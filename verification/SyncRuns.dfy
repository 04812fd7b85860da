/** Whole runs of a core with any number of nodes, in which sync steps of different nodes, connection checks, online
    reports and traffic events interleave and user-manager calls may fail. */
module SyncRuns {
  import opened Optional
  import opened Text
  import opened Panel
  import opened UserDiff
  import opened UserRegistry
  import opened Limiter
  import LimiterRuns
  import opened UserSync
  import Admission
  import Vless

  // ---- The registry after a sync step, failed or not ----

  function Removed(x: SyncInput): seq<UserInfo> {
    x.deleted[..Min(x.removals, |x.deleted|)]
  }

  function IdsWritten(r: Registry, tag: string, x: SyncInput): seq<UserInfo> {
    if RemovalsOk(r, tag, x) then x.added else []
  }

  function Entered(r: Registry, tag: string, nodeType: string, x: SyncInput): seq<UserInfo> {
    if RemovalsOk(r, tag, x) && SupportedType(nodeType) then x.added[..Min(x.additions, |x.added|)] else []
  }

  lemma NoUsersChangeNothing(r: Registry, tag: string)
    requires tag in r.managers
    ensures AfterDelUsers(r, tag, []) == r && AfterAddUsers(r, tag, [], []) == r
  {
    DelUsersEffect(r, tag, []);
    AddUsersEffect(r, tag, [], []);
    assert UidOps(tag, []) + ManagerOps(tag, []) == [];
  }

  lemma RemovalsForm(r: Registry, tag: string, x: SyncInput)
    requires tag in r.managers
    ensures AfterRemovals(r, tag, x) == AfterDelUsers(r, tag, Removed(x)) && tag in AfterRemovals(r, tag, x).managers
  {
    hide ApplyAll; hide Emails;
    NoUsersChangeNothing(r, tag);
    DelUsersEffect(r, tag, Removed(x));
    if x.deleted == [] {
      assert Removed(x) == [];
    }
  }

  /** A sync step removes a prefix of the deleted users and then, if that was all of them, writes the ids of the added
      users and enters a prefix of them. */
  lemma SyncRegistryForm(r: Registry, tag: string, nodeType: string, x: SyncInput)
    requires tag in r.managers && HasList(x)
    ensures tag in AfterDelUsers(r, tag, Removed(x)).managers
    ensures SyncRegistry(r, tag, nodeType, x) ==
            AfterAddUsers(AfterDelUsers(r, tag, Removed(x)), tag, IdsWritten(r, tag, x), Entered(r, tag, nodeType, x))
  {
    hide ApplyAll; hide Emails; hide UidMapOf; hide AfterDelUsers; hide AfterAddUsers; hide UidOps; hide ManagerOps;
    RemovalsForm(r, tag, x);
    var r1 := AfterDelUsers(r, tag, Removed(x));
    NoUsersChangeNothing(r1, tag);
    if RemovalsOk(r, tag, x) {
      AddUsersEffect(r1, tag, x.added, Entered(r, tag, nodeType, x));
      if !SupportedType(nodeType) {
        NoUsersOps(tag);
      }
      if x.added == [] {
        assert Entered(r, tag, nodeType, x) == [];
      }
    }
  }

  /** One successful step from agreement: the node's list is the panel's, user manager and id map agree with it exactly
      when the users kept at their speed kept their ids, limits and uuid map do so under the same condition, and the
      cached buckets stay at the rates of fresh computations in any case. */
  lemma SyncAgreesExactly(r: Registry, tag: string, n: NodeState, x: SyncInput, uuidLength: nat)
    requires PanelList(n.users, uuidLength) && PanelList(x.newList, uuidLength) && HasList(x)
    requires IsDiff(n.users, x.newList, x.deleted, x.added)
    requires CoreAgrees(r, tag, n.users) && LimiterAgrees(n.limiter, tag, n.users)
    requires SyncOk(r, tag, n.nodeType, x)
    ensures var n' := SyncNode(r, tag, n, x);
            && n'.users == x.newList
            && (CoreAgrees(SyncRegistry(r, tag, n.nodeType, x), tag, x.newList) <==> IdsKept(n.users, x.newList))
            && (LimiterAgrees(n'.limiter, tag, x.newList) <==> IdsKept(n.users, x.newList))
            && (LimiterRuns.Valid(n.limiter) ==> LimiterRuns.Valid(n'.limiter))
  {
    hide IdsKept; hide CoreAgrees; hide InfoAgrees; hide UuidsAgree; hide IsDiff; hide AfterDelUsers;
    hide AfterAddUsers;
    hide SyncRegistry; hide PanelList; hide AfterUpdate; hide LimiterRuns.Valid;
    if LimiterRuns.Valid(n.limiter) {
      assert PanelInput(n, x, uuidLength);
      SyncKeepsLimiterValid(r, tag, n, x, uuidLength);
    }
    assert tag in r.managers by { AgreeingHasManager(r, tag, n.users); }
    SplitsOfDiff(n, x, uuidLength);
    SyncRegistryForm(r, tag, n.nodeType, x);
    CompleteSync(r, tag, n, x);
    CorePatchExactly(r, tag, n.users, x.newList, x.deleted, x.added);
    LimiterSync(r, tag, n, x);
  }

  lemma SplitsOfDiff(n: NodeState, x: SyncInput, uuidLength: nat)
    requires PanelList(n.users, uuidLength) && PanelList(x.newList, uuidLength)
    requires IsDiff(n.users, x.newList, x.deleted, x.added)
    ensures Splits(n.users, x.newList, x.deleted, x.added)
  {
    hide IsDiff; hide IdsKept;
    DiffOfPanelLists(n.users, x.newList, x.deleted, x.added, uuidLength);
  }

  lemma AgreeingHasManager(r: Registry, tag: string, users: seq<UserInfo>)
    requires CoreAgrees(r, tag, users)
    ensures tag in r.managers
  {
  }

  lemma CompleteSync(r: Registry, tag: string, n: NodeState, x: SyncInput)
    requires SyncOk(r, tag, n.nodeType, x) && tag in r.managers && HasList(x)
    ensures Removed(x) == x.deleted && IdsWritten(r, tag, x) == x.added
    ensures x.added == Entered(r, tag, n.nodeType, x)
  {
    hide ApplyAll;
  }

  lemma LimiterSync(r: Registry, tag: string, n: NodeState, x: SyncInput)
    requires Splits(n.users, x.newList, x.deleted, x.added) && LimiterAgrees(n.limiter, tag, n.users)
    requires SyncOk(r, tag, n.nodeType, x) && HasList(x)
    ensures LimiterAgrees(SyncNode(r, tag, n, x).limiter, tag, x.newList) <==> IdsKept(n.users, x.newList)
  {
    hide Splits; hide InfoAgrees; hide UuidsAgree; hide IdsKept; hide AfterDelete; hide AfterAdd;
    var s := n.limiter.(alive := x.alive);
    LimiterPatchExactly(s, tag, n.users, x.newList, x.deleted, x.added);
    AfterDeleteNone(s, tag);
    AfterAddNone(s, tag);
  }

  // ---- Runs ----

  datatype System = System(registry: Registry, nodes: map<string, NodeState>)

  datatype Event =
    | Start(tag: string, nodeType: string, users: seq<UserInfo>, alive: map<int, int>, additions: nat)
    | Sync(tag: string, input: SyncInput)
    | Check(tag: string, email: string, ip: string, now: int, noSSUDP: bool)
    | Report(tag: string, order: seq<(string, string)>)
    | Traffic(counters: map<string, set<string>>, links: set<string>)

  /** The promises of the environment: panel lists are well formed, the diff is one the code can compute, kept users
      keep their id, and a node starts under a new tag. */
  ghost predicate Allowed(sys: System, ev: Event, uuidLength: nat) {
    match ev
    case Start(tag, _, users, _, _) => tag !in sys.registry.managers && users != [] && PanelList(users, uuidLength)
    case Sync(tag, x) =>
      && tag in sys.nodes
      && (HasList(x) ==>
            && PanelList(x.newList, uuidLength)
            && IsDiff(sys.nodes[tag].users, x.newList, x.deleted, x.added)
            && IdsKept(sys.nodes[tag].users, x.newList))
    case Check(tag, _, _, _, _) => tag in sys.nodes
    case Report(tag, order) => tag in sys.nodes && Enumerates(order, Devices(sys.nodes[tag].limiter.online))
    case Traffic(_, _) => true
  }

  /** The inbound of a new node has an empty user manager. */
  function WithInbound(r: Registry, tag: string): Registry {
    r.(managers := r.managers[tag := {}])
  }

  ghost function Step(sys: System, ev: Event, uuidLength: nat): System
    requires Allowed(sys, ev, uuidLength)
  {
    var r := sys.registry;
    match ev
    case Start(tag, nodeType, users, alive, additions) =>
      var r0 := WithInbound(r, tag);
      System(ApplyAll(r0, AddUsersOps(r0, tag, nodeType, users, additions)),
             if AddUsersOk(r0, tag, nodeType, users, additions)
             then sys.nodes[tag := NodeState(users, NewState(tag, users, alive), nodeType, false)] else sys.nodes)
    case Sync(tag, x) =>
      System(SyncRegistry(r, tag, sys.nodes[tag].nodeType, x), sys.nodes[tag := SyncNode(r, tag, sys.nodes[tag], x)])
    case Check(tag, email, ip, now, noSSUDP) =>
      var n := sys.nodes[tag];
      sys.(nodes := sys.nodes[tag := n.(limiter := AfterCheck(n.limiter, email, ip, now, noSSUDP).0)])
    case Report(tag, order) =>
      var n := sys.nodes[tag];
      sys.(nodes := sys.nodes[tag := n.(limiter := AfterReport(n.limiter, order))])
    case Traffic(counters, links) => sys.(registry := r.(counters := counters, links := links))
  }

  ghost predicate IsRun(states: seq<System>, events: seq<Event>, uuidLength: nat) {
    && |states| == |events| + 1
    && states[0] == System(Registry(map[], map[], map[], {}), map[])
    && forall i | 0 <= i < |events| ::
         Allowed(states[i], events[i], uuidLength) && states[i + 1] == Step(states[i], events[i], uuidLength)
  }

  /** Every id entry belongs to some node with an inbound. */
  ghost predicate UidsOwned(r: Registry) {
    forall e | e in r.uidMap :: exists t | t in r.managers :: OwnedBy(e, t)
  }

  ghost predicate RegistryInv(r: Registry) {
    Known(r) && Owned(r) && UidsOwned(r)
  }

  /** The limiter agrees with the node's list in every state; the core does as long as no sync step has failed. */
  ghost predicate NodeInv(r: Registry, tag: string, n: NodeState, uuidLength: nat) {
    && tag in r.managers && PanelList(n.users, uuidLength)
    && LimiterRuns.Valid(n.limiter) && LimiterAgrees(n.limiter, tag, n.users)
    && (!n.failed ==> CoreAgrees(r, tag, n.users))
  }

  ghost predicate SystemInv(sys: System, uuidLength: nat) {
    RegistryInv(sys.registry) && forall t | t in sys.nodes :: NodeInv(sys.registry, t, sys.nodes[t], uuidLength)
  }

  // ---- Other nodes ----

  /** Two registries hold the same users and ids for a node. */
  ghost predicate SameFor(r: Registry, r': Registry, tag: string) {
    && (tag in r.managers ==> tag in r'.managers && r'.managers[tag] == r.managers[tag])
    && forall e | OwnedBy(e, tag) ::
       (e in r.uidMap <==> e in r'.uidMap) && (e in r.uidMap ==> r.uidMap[e] == r'.uidMap[e])
  }

  lemma EmailsOwned(tag: string, users: seq<UserInfo>)
    requires forall u | u in users :: '|' !in u.uuid
    ensures forall e | e in Emails(tag, users) :: OwnedBy(e, tag)
  {
    hide UserTag;
    forall u | u in users ensures OwnedBy(UserTag(tag, u.uuid), tag) {
    }
  }

  lemma NotOfOther(tag: string, users: seq<UserInfo>, other: string)
    requires forall u | u in users :: '|' !in u.uuid
    requires other != tag
    ensures forall e | OwnedBy(e, other) :: e !in Emails(tag, users)
  {
    EmailsOwned(tag, users);
    forall e | OwnedBy(e, other) && e in Emails(tag, users) ensures false {
      OwnedOnce(e, other, tag);
    }
  }

  /** No entry of another tag is touched. */
  lemma OtherNodeUntouched(r: Registry, tag: string, deleted: seq<UserInfo>, ids: seq<UserInfo>, users: seq<UserInfo>,
                           other: string)
    requires tag in r.managers && other != tag
    requires forall u | u in deleted :: '|' !in u.uuid
    requires forall u | u in ids :: '|' !in u.uuid
    ensures SameFor(r, AfterAddUsers(AfterDelUsers(r, tag, deleted), tag, ids, users), other)
  {
    hide Emails; hide OwnedBy; hide UidMapOf;
    NotOfOther(tag, deleted, other);
    NotOfOther(tag, ids, other);
    UidMapOfEmails(tag, ids);
  }

  lemma SameForKeepsNode(r: Registry, r': Registry, tag: string, n: NodeState, uuidLength: nat)
    requires NodeInv(r, tag, n, uuidLength) && SameFor(r, r', tag)
    ensures NodeInv(r', tag, n, uuidLength)
  {
    hide OwnedBy; hide UserTag; hide PanelList; hide LimiterRuns.Valid; hide LimiterAgrees; hide Emails;
    if !n.failed {
      assert PanelList(n.users, uuidLength);
      UsersOwned(tag, n.users, uuidLength);
    }
  }

  lemma UsersOwned(tag: string, users: seq<UserInfo>, uuidLength: nat)
    requires PanelList(users, uuidLength)
    ensures forall u | u in users :: OwnedBy(UserTag(tag, u.uuid), tag)
  {
    hide UserTag;
  }

  // ---- Steps keep the invariant ----

  lemma GoodPrefix(users: seq<UserInfo>, n: nat)
    requires n <= |users| && forall u | u in users :: GoodUser(u)
    ensures forall u | u in users[..n] :: GoodUser(u)
  {
  }

  lemma AddUsersKeepsRegistry(r: Registry, tag: string, nodeType: string, users: seq<UserInfo>, accepts: nat)
    requires RegistryInv(r) && tag in r.managers && forall u | u in users :: GoodUser(u)
    ensures RegistryInv(ApplyAll(r, AddUsersOps(r, tag, nodeType, users, accepts)))
    ensures tag in ApplyAll(r, AddUsersOps(r, tag, nodeType, users, accepts)).managers
  {
    var k := if SupportedType(nodeType) then Min(accepts, |users|) else 0;
    var ops := AddUsersOps(r, tag, nodeType, users, accepts);
    AddOpsPrefix(tag, users, k);
    assert ops == UidOps(tag, users) + ManagerOps(tag, users[..k]);
    AddStepsKeepKnown(r, tag, users, |users| + k);
    AddUsersEffect(r, tag, users, users[..k]);
    AddUsersKeepsUidsOwned(r, tag, users, users[..k]);
  }

  lemma AddOpsPrefix(tag: string, users: seq<UserInfo>, k: nat)
    requires k <= |users|
    ensures |users| + k <= |AddOps(tag, users)|
    ensures AddOps(tag, users)[..|users| + k] == UidOps(tag, users) + ManagerOps(tag, users[..k])
  {
    hide UserTag;
  }

  lemma AddUsersKeepsUidsOwned(r: Registry, tag: string, ids: seq<UserInfo>, users: seq<UserInfo>)
    requires UidsOwned(r) && tag in r.managers && forall u | u in ids :: '|' !in u.uuid
    ensures UidsOwned(AfterAddUsers(r, tag, ids, users))
  {
    hide OwnedBy; hide Emails; hide UidMapOf;
    EmailsOwned(tag, ids);
    UidMapOfEmails(tag, ids);
    var r' := AfterAddUsers(r, tag, ids, users);
    assert r'.managers.Keys == r.managers.Keys;
    forall e | e in r'.uidMap ensures exists t | t in r'.managers :: OwnedBy(e, t) {
      if e in Emails(tag, ids) {
        assert tag in r'.managers && OwnedBy(e, tag);
      } else {
        var t :| t in r.managers && OwnedBy(e, t);
        assert t in r'.managers;
      }
    }
  }

  lemma DelUsersKeepsRegistry(r: Registry, tag: string, users: seq<UserInfo>)
    requires RegistryInv(r) && tag in r.managers && forall u | u in users :: GoodUser(u)
    ensures RegistryInv(AfterDelUsers(r, tag, users))
  {
    hide Known; hide Owned; hide OwnedBy; hide Emails;
    DelUsersEffect(r, tag, users);
    assert DelOps(tag, users)[..|DelOps(tag, users)|] == DelOps(tag, users);
    DelStepsKeepKnown(r, tag, users, |DelOps(tag, users)|);
    var r' := AfterDelUsers(r, tag, users);
    assert r'.managers.Keys == r.managers.Keys;
  }

  ghost predicate PanelInput(n: NodeState, x: SyncInput, uuidLength: nat) {
    && PanelList(n.users, uuidLength)
    && PanelList(x.newList, uuidLength)
    && IsDiff(n.users, x.newList, x.deleted, x.added)
  }

  ghost predicate GoodInput(n: NodeState, x: SyncInput, uuidLength: nat) {
    PanelInput(n, x, uuidLength) && IdsKept(n.users, x.newList)
  }

  lemma GoodUsers(n: NodeState, x: SyncInput, uuidLength: nat)
    requires GoodInput(n, x, uuidLength)
    ensures forall u | u in x.deleted :: GoodUser(u)
    ensures forall u | u in x.added :: GoodUser(u)
  {
    hide Keys; hide DistinctUuids; hide IdsKept;
    FreshKeys(x.newList, Keys(n.users));
  }

  lemma SyncKeepsRegistry(r: Registry, tag: string, n: NodeState, x: SyncInput, uuidLength: nat)
    requires RegistryInv(r) && tag in r.managers && HasList(x) && GoodInput(n, x, uuidLength)
    ensures RegistryInv(SyncRegistry(r, tag, n.nodeType, x)) && tag in SyncRegistry(r, tag, n.nodeType, x).managers
  {
    hide RegistryInv; hide ApplyAll; hide AfterDelUsers; hide AddUsersOps; hide DelUsersOps; hide GoodInput;
    hide GoodUser;
    GoodUsers(n, x, uuidLength);
    RemovalsForm(r, tag, x);
    GoodPrefix(x.deleted, Min(x.removals, |x.deleted|));
    DelUsersKeepsRegistry(r, tag, Removed(x));
    if x.added != [] {
      AddUsersKeepsRegistry(AfterRemovals(r, tag, x), tag, n.nodeType, x.added, x.additions);
    }
  }

  lemma SyncKeepsOthers(r: Registry, tag: string, n: NodeState, x: SyncInput, uuidLength: nat, other: string)
    requires tag in r.managers && HasList(x) && GoodInput(n, x, uuidLength) && other != tag
    ensures SameFor(r, SyncRegistry(r, tag, n.nodeType, x), other)
  {
    hide SameFor; hide AfterDelUsers; hide AfterAddUsers; hide SyncRegistry; hide GoodInput; hide RemovalsOk;
    GoodUsers(n, x, uuidLength);
    GoodPrefix(x.deleted, Min(x.removals, |x.deleted|));
    SyncRegistryForm(r, tag, n.nodeType, x);
    OtherNodeUntouched(r, tag, Removed(x), IdsWritten(r, tag, x), Entered(r, tag, n.nodeType, x), other);
  }

  lemma SyncKeepsNode(r: Registry, tag: string, n: NodeState, x: SyncInput, uuidLength: nat)
    requires RegistryInv(r) && NodeInv(r, tag, n, uuidLength) && HasList(x) && GoodInput(n, x, uuidLength)
    ensures NodeInv(SyncRegistry(r, tag, n.nodeType, x), tag, SyncNode(r, tag, n, x), uuidLength)
  {
    hide RegistryInv; hide CoreAgrees; hide InfoAgrees; hide UuidsAgree; hide SyncRegistry; hide PanelList; hide IsDiff;
    hide IdsKept; hide Splits; hide SyncOk; hide AfterUpdate;
    SyncKeepsRegistry(r, tag, n, x, uuidLength);
    SyncKeepsLimiterValid(r, tag, n, x, uuidLength);
    if SyncOk(r, tag, n.nodeType, x) {
      SplitsOfDiff(n, x, uuidLength);
      LimiterSync(r, tag, n, x);
      if !n.failed {
        SyncAgreesExactly(r, tag, n, x, uuidLength);
      }
    }
  }

  /** An added user is unknown to the limiter or is deleted in the same step. */
  lemma SyncReplaces(tag: string, n: NodeState, x: SyncInput, uuidLength: nat)
    requires PanelInput(n, x, uuidLength) && LimiterAgrees(n.limiter, tag, n.users)
    ensures LimiterRuns.Replaces(n.limiter.(alive := x.alive), tag, x.added, x.deleted)
  {
    hide UserTag; hide IsDiff; hide UuidsAgree; hide IdsKept;
    SplitsOfDiff(n, x, uuidLength);
    forall v | v in x.added && UserTag(tag, v.uuid) in Emails(tag, n.users)
      ensures UserTag(tag, v.uuid) in Emails(tag, x.deleted)
    {
      InEmails(tag, n.users, v.uuid);
      var u :| u in n.users && u.uuid == v.uuid;
      SameUuidSameUserAll(x.newList);
      assert Identity(u) !in Identities(x.newList);
      InEmails(tag, x.deleted, v.uuid);
      assert u in x.deleted;
    }
  }

  lemma SyncKeepsLimiterValid(r: Registry, tag: string, n: NodeState, x: SyncInput, uuidLength: nat)
    requires PanelInput(n, x, uuidLength) && LimiterAgrees(n.limiter, tag, n.users) && LimiterRuns.Valid(n.limiter)
    ensures LimiterRuns.Valid(SyncNode(r, tag, n, x).limiter)
  {
    hide PanelInput; hide LimiterAgrees; hide AfterUpdate; hide SyncOk;
    var s := n.limiter.(alive := x.alive);
    assert LimiterRuns.Valid(s) by {
      LimiterRuns.StepKeepsValid(n.limiter, LimiterRuns.SetAlive(x.alive));
    }
    SyncReplaces(tag, n, x, uuidLength);
    LimiterRuns.UpdateKeepsValid(s, tag, x.added, x.deleted);
  }

  lemma StartKeepsInv(sys: System, ev: Event, uuidLength: nat)
    requires SystemInv(sys, uuidLength) && Allowed(sys, ev, uuidLength) && ev.Start?
    ensures SystemInv(Step(sys, ev, uuidLength), uuidLength)
  {
    hide RegistryInv; hide NodeInv; hide ApplyAll; hide AddUsersOps; hide LimiterRuns.Valid;
    var r, tag, users := sys.registry, ev.tag, ev.users;
    var r0 := WithInbound(r, tag);
    var r' := Step(sys, ev, uuidLength).registry;
    InboundKeepsRegistry(r, tag);
    AddUsersKeepsRegistry(r0, tag, ev.nodeType, users, ev.additions);
    forall t | t in sys.nodes ensures NodeInv(r', t, sys.nodes[t], uuidLength) && t != tag {
      assert NodeInv(r, t, sys.nodes[t], uuidLength);
      NodeHasManager(r, t, sys.nodes[t], uuidLength);
      StartKeepsOthers(r, tag, ev.nodeType, users, ev.additions, t);
      SameForKeepsNode(r, r', t, sys.nodes[t], uuidLength);
    }
    if AddUsersOk(r0, tag, ev.nodeType, users, ev.additions) {
      StartedNodeInv(r, tag, ev.nodeType, users, ev.alive, ev.additions, uuidLength);
    }
  }

  lemma NodeHasManager(r: Registry, tag: string, n: NodeState, uuidLength: nat)
    requires NodeInv(r, tag, n, uuidLength)
    ensures tag in r.managers
  {
  }

  lemma InboundKeepsRegistry(r: Registry, tag: string)
    requires RegistryInv(r) && tag !in r.managers
    ensures RegistryInv(WithInbound(r, tag))
    ensures forall e | OwnedBy(e, tag) :: e !in r.uidMap
  {
    hide OwnedBy;
    var r0 := WithInbound(r, tag);
    forall e | e in r.uidMap ensures (exists t | t in r0.managers :: OwnedBy(e, t)) && !OwnedBy(e, tag) {
      var t :| t in r.managers && OwnedBy(e, t);
      assert t in r0.managers;
      if OwnedBy(e, tag) {
        OwnedOnce(e, t, tag);
      }
    }
  }

  lemma StartKeepsOthers(r: Registry, tag: string, nodeType: string, users: seq<UserInfo>, additions: nat,
                         other: string)
    requires tag !in r.managers && other != tag && forall u | u in users :: GoodUser(u)
    ensures SameFor(r, ApplyAll(WithInbound(r, tag),
                                AddUsersOps(WithInbound(r, tag), tag, nodeType, users, additions)), other)
  {
    hide ApplyAll; hide Emails; hide OwnedBy; hide UidMapOf;
    var r0 := WithInbound(r, tag);
    var k := if SupportedType(nodeType) then Min(additions, |users|) else 0;
    assert AddUsersOps(r0, tag, nodeType, users, additions) == UidOps(tag, users) + ManagerOps(tag, users[..k]);
    AddUsersEffect(r0, tag, users, users[..k]);
    NotOfOther(tag, users, other);
    UidMapOfEmails(tag, users);
  }

  lemma StartedNodeInv(r: Registry, tag: string, nodeType: string, users: seq<UserInfo>, alive: map<int, int>,
                       additions: nat, uuidLength: nat)
    requires RegistryInv(r) && tag !in r.managers && PanelList(users, uuidLength)
    requires AddUsersOk(WithInbound(r, tag), tag, nodeType, users, additions)
    ensures NodeInv(ApplyAll(WithInbound(r, tag), AddUsersOps(WithInbound(r, tag), tag, nodeType, users, additions)),
                    tag,
                    NodeState(users, NewState(tag, users, alive), nodeType, false), uuidLength)
  {
    hide ApplyAll; hide Emails; hide OwnedBy; hide UidMapOf; hide UserTag; hide InfoOf; hide UidsOf; hide RegistryInv;
    var r0 := WithInbound(r, tag);
    InboundKeepsRegistry(r, tag);
    assert users[..Min(additions, |users|)] == users;
    AddUsersEffect(r0, tag, users, users);
    UidMapOfEmails(tag, users);
    MapsOfUsers(tag, users);
    LimiterRuns.InfoOfEmails(tag, users);
    UidsOfUuids(users);
    LimiterRuns.NewStateValid(tag, users, alive);
  }

  lemma SyncKeepsInv(sys: System, ev: Event, uuidLength: nat)
    requires SystemInv(sys, uuidLength) && Allowed(sys, ev, uuidLength) && ev.Sync?
    ensures SystemInv(Step(sys, ev, uuidLength), uuidLength)
  {
    hide RegistryInv; hide LimiterRuns.Valid; hide LimiterAgrees; hide CoreAgrees; hide PanelList; hide IsDiff;
    hide IdsKept;
    hide ApplyAll;
    var r, tag, x := sys.registry, ev.tag, ev.input;
    var n := sys.nodes[tag];
    assert NodeInv(r, tag, n, uuidLength);
    var sys' := Step(sys, ev, uuidLength);
    if x.answered && x.newList == [] {
      assert LimiterRuns.Valid(SyncNode(r, tag, n, x).limiter) by {
        LimiterRuns.StepKeepsValid(n.limiter, LimiterRuns.SetAlive(x.alive));
      }
      AliveKeepsAgreement(n.limiter, tag, n.users, x.alive);
    } else if x.answered {
      assert GoodInput(n, x, uuidLength);
      SyncKeepsRegistry(r, tag, n, x, uuidLength);
      SyncKeepsNode(r, tag, n, x, uuidLength);
      forall t | t in sys.nodes && t != tag ensures NodeInv(sys'.registry, t, sys.nodes[t], uuidLength) {
        assert NodeInv(r, t, sys.nodes[t], uuidLength);
        SyncKeepsOthers(r, tag, n, x, uuidLength, t);
        SameForKeepsNode(r, sys'.registry, t, sys.nodes[t], uuidLength);
      }
    }
  }

  lemma AliveKeepsAgreement(s: State, tag: string, users: seq<UserInfo>, alive: map<int, int>)
    requires LimiterAgrees(s, tag, users)
    ensures LimiterAgrees(s.(alive := alive), tag, users)
  {
    hide InfoAgrees; hide UuidsAgree;
  }

  lemma LimiterStepKeepsInv(sys: System, ev: Event, uuidLength: nat)
    requires SystemInv(sys, uuidLength) && Allowed(sys, ev, uuidLength) && (ev.Check? || ev.Report?)
    ensures SystemInv(Step(sys, ev, uuidLength), uuidLength)
  {
    hide RegistryInv; hide LimiterRuns.Valid; hide CoreAgrees; hide PanelList; hide AfterCheck; hide AfterReport;
    hide InfoAgrees; hide UuidsAgree;
    var n := sys.nodes[ev.tag];
    assert NodeInv(sys.registry, ev.tag, n, uuidLength);
    if ev.Check? {
      LimiterRuns.StepKeepsValid(n.limiter, LimiterRuns.Check(ev.email, ev.ip, ev.now, ev.noSSUDP));
      ValidNeverExpires(n.limiter);
      LimiterRuns.CheckKeepsInfo(n.limiter, ev.email, ev.ip, ev.now, ev.noSSUDP);
    } else {
      LimiterRuns.StepKeepsValid(n.limiter, LimiterRuns.Report(ev.order));
      ReportKeepsInfo(n.limiter, ev.order);
    }
  }

  lemma ValidNeverExpires(s: State)
    requires LimiterRuns.Valid(s)
    ensures LimiterRuns.NothingExpires(s)
  {
  }

  lemma ReportKeepsInfo(s: State, order: seq<(string, string)>)
    requires Enumerates(order, Devices(s.online))
    ensures AfterReport(s, order).info == s.info && AfterReport(s, order).uuidToUid == s.uuidToUid
  {
  }

  lemma TrafficKeepsInv(sys: System, ev: Event, uuidLength: nat)
    requires SystemInv(sys, uuidLength) && ev.Traffic?
    ensures SystemInv(Step(sys, ev, uuidLength), uuidLength)
  {
    hide OwnedBy; hide LimiterRuns.Valid; hide LimiterAgrees; hide PanelList; hide Emails; hide UserTag;
    forall t | t in sys.nodes ensures NodeInv(Step(sys, ev, uuidLength).registry, t, sys.nodes[t], uuidLength) {
      assert NodeInv(sys.registry, t, sys.nodes[t], uuidLength);
    }
  }

  lemma StepKeepsInv(sys: System, ev: Event, uuidLength: nat)
    requires SystemInv(sys, uuidLength) && Allowed(sys, ev, uuidLength)
    ensures SystemInv(Step(sys, ev, uuidLength), uuidLength)
  {
    hide *;
    match ev {
      case Start(_, _, _, _, _) => StartKeepsInv(sys, ev, uuidLength);
      case Sync(_, _) => SyncKeepsInv(sys, ev, uuidLength);
      case Check(_, _, _, _, _) => LimiterStepKeepsInv(sys, ev, uuidLength);
      case Report(_, _) => LimiterStepKeepsInv(sys, ev, uuidLength);
      case Traffic(_, _) => TrafficKeepsInv(sys, ev, uuidLength);
    }
  }

  lemma {:induction false} RunKeepsInv(states: seq<System>, events: seq<Event>, uuidLength: nat, i: nat)
    requires IsRun(states, events, uuidLength) && i <= |events|
    ensures SystemInv(states[i], uuidLength)
  {
    if i > 0 {
      hide SystemInv; hide Step;
      RunKeepsInv(states, events, uuidLength, i - 1);
      assert Allowed(states[i - 1], events[i - 1], uuidLength) &&
        states[i] == Step(states[i - 1], events[i - 1], uuidLength);
      StepKeepsInv(states[i - 1], events[i - 1], uuidLength);
    }
  }

  // ---- What runs guarantee ----

  /** The panel's latest list for a node: the last one that was not empty. */
  function Latest(events: seq<Event>, tag: string): seq<UserInfo> {
    if events == [] then []
    else
      var before := Latest(events[..|events| - 1], tag);
      match events[|events| - 1]
      case Start(t, _, users, _, _) => if t == tag then users else before
      case Sync(t, x) => if t == tag && HasList(x) then x.newList else before
      case _ => before
  }

  lemma StepInstallsLatest(sys: System, ev: Event, uuidLength: nat, tag: string, before: seq<UserInfo>)
    requires SystemInv(sys, uuidLength) && Allowed(sys, ev, uuidLength)
    requires tag in sys.nodes && !sys.nodes[tag].failed ==> sys.nodes[tag].users == before
    ensures var n := Step(sys, ev, uuidLength).nodes;
            tag in n && !n[tag].failed ==>
              n[tag].users == match ev
                              case Start(t, _, users, _, _) => if t == tag then users else before
                              case Sync(t, x) => if t == tag && HasList(x) then x.newList else before
                              case _ => before
  {
    hide IsDiff; hide ApplyAll; hide AfterUpdate; hide AfterCheck; hide AfterReport; hide PanelList; hide IdsKept;
    hide AddUsersOps; hide RegistryInv;
    if ev.Start? && tag in sys.nodes {
      assert NodeInv(sys.registry, tag, sys.nodes[tag], uuidLength);
      NodeHasManager(sys.registry, tag, sys.nodes[tag], uuidLength);
    }
  }

  lemma {:induction false} NodeHoldsLatest(states: seq<System>, events: seq<Event>, uuidLength: nat, i: nat,
                                           tag: string)
    requires IsRun(states, events, uuidLength) && i <= |events|
    ensures tag in states[i].nodes && !states[i].nodes[tag].failed ==>
              states[i].nodes[tag].users == Latest(events[..i], tag)
  {
    if i > 0 {
      hide SystemInv; hide Step;
      NodeHoldsLatest(states, events, uuidLength, i - 1, tag);
      RunKeepsInv(states, events, uuidLength, i - 1);
      assert Allowed(states[i - 1], events[i - 1], uuidLength) &&
        states[i] == Step(states[i - 1], events[i - 1], uuidLength);
      StepInstallsLatest(states[i - 1], events[i - 1], uuidLength, tag, Latest(events[..i - 1], tag));
      assert events[..i][..i - 1] == events[..i - 1];
    }
  }

  /** In every state of every run: a node's limiter holds exactly the node's user list, with its ids and speed limits,
      even after failed steps, and each cached bucket has the rate of a fresh computation. If no sync step of the node
      has failed, that list is the panel's latest, and the user manager and the id map of the node hold exactly it too.
      Whoever can authenticate at any inbound has a non-zero id, so no drain discards that user's traffic. */
  lemma EveryReachableState(states: seq<System>, events: seq<Event>, uuidLength: nat, i: nat, tag: string)
    requires IsRun(states, events, uuidLength) && i <= |events| && tag in states[i].nodes
    ensures var r, n := states[i].registry, states[i].nodes[tag];
            && LimiterAgrees(n.limiter, tag, n.users)
            && LimiterRuns.BucketsFresh(n.limiter)
            && (!n.failed ==> n.users == Latest(events[..i], tag) && CoreAgrees(r, tag, n.users))
            && Known(r)
  {
    hide LimiterAgrees; hide CoreAgrees; hide Known; hide Owned; hide UidsOwned; hide PanelList;
    RunKeepsInv(states, events, uuidLength, i);
    NodeHoldsLatest(states, events, uuidLength, i, tag);
    assert NodeInv(states[i].registry, tag, states[i].nodes[tag], uuidLength);
  }

  // ---- Runs without refusals ----

  /** A node type other than Mieru of some enabled protocol that the check of the configuration accepts. */
  ghost predicate Checked(nodeType: string) {
    nodeType != "mieru" && exists p :: Admission.Accepted(p, nodeType)
  }

  /** Nodes start with a checked type, and the user manager refuses nobody. */
  ghost predicate Smooth(ev: Event) {
    match ev
    case Start(_, nodeType, users, _, additions) => Checked(nodeType) && additions >= |users|
    case Sync(_, x) => x.removals >= |x.deleted| && x.additions >= |x.added|
    case _ => true
  }

  ghost predicate NoneFailed(sys: System) {
    forall t | t in sys.nodes :: !sys.nodes[t].failed && Checked(sys.nodes[t].nodeType)
  }

  lemma CheckedTakesUsers(r: Registry, tag: string, nodeType: string, users: seq<UserInfo>, accepts: nat)
    requires Checked(nodeType) && tag in r.managers && accepts >= |users|
    ensures AddUsersOk(r, tag, nodeType, users, accepts)
  {
    hide Admission.Accepted; hide AddUsersOk;
    var p :| Admission.Accepted(p, nodeType);
    AcceptedKind(p, nodeType);
    Admission.ValidatedTakesUsers(p, r, tag, users, accepts);
  }

  lemma AcceptedKind(p: Vless.Protocol, nodeType: string)
    requires Admission.Accepted(p, nodeType)
    ensures p.kind == nodeType
  {
  }

  lemma SmoothSyncSucceeds(r: Registry, tag: string, nodeType: string, x: SyncInput)
    requires tag in r.managers && Checked(nodeType) && x.removals >= |x.deleted| && x.additions >= |x.added|
    ensures SyncOk(r, tag, nodeType, x)
  {
    hide Checked; hide AddUsersOk; hide AfterRemovals;
    RemovalsForm(r, tag, x);
    CheckedTakesUsers(AfterRemovals(r, tag, x), tag, nodeType, x.added, x.additions);
  }

  lemma SmoothStep(sys: System, ev: Event, uuidLength: nat)
    requires SystemInv(sys, uuidLength) && Allowed(sys, ev, uuidLength) && NoneFailed(sys) && Smooth(ev)
    ensures NoneFailed(Step(sys, ev, uuidLength)) && sys.nodes.Keys <= Step(sys, ev, uuidLength).nodes.Keys
    ensures ev.Start? ==> ev.tag in Step(sys, ev, uuidLength).nodes
  {
    hide Checked; hide IsDiff; hide ApplyAll; hide AfterUpdate; hide AfterCheck; hide AfterReport; hide PanelList;
    hide IdsKept; hide AddUsersOps; hide RegistryInv; hide SyncOk; hide AddUsersOk;
    if ev.Start? {
      CheckedTakesUsers(WithInbound(sys.registry, ev.tag), ev.tag, ev.nodeType, ev.users, ev.additions);
    }
    if ev.Sync? {
      assert NodeInv(sys.registry, ev.tag, sys.nodes[ev.tag], uuidLength);
      SmoothSyncSucceeds(sys.registry, ev.tag, sys.nodes[ev.tag].nodeType, ev.input);
    }
  }

  lemma {:induction false} SmoothRun(states: seq<System>, events: seq<Event>, uuidLength: nat, i: nat)
    requires IsRun(states, events, uuidLength) && i <= |events| && forall j | 0 <= j < i :: Smooth(events[j])
    ensures NoneFailed(states[i])
    ensures forall j | 0 <= j < i && events[j].Start? :: events[j].tag in states[i].nodes
  {
    if i > 0 {
      hide SystemInv; hide Step; hide Allowed; hide Smooth; hide NoneFailed;
      SmoothRun(states, events, uuidLength, i - 1);
      RunKeepsInv(states, events, uuidLength, i - 1);
      assert Allowed(states[i - 1], events[i - 1], uuidLength) &&
        states[i] == Step(states[i - 1], events[i - 1], uuidLength);
      SmoothStep(states[i - 1], events[i - 1], uuidLength);
    } else {
      assert states[0].nodes == map[];
    }
  }

  /** With node types that passed the check of the configuration and a user manager that refuses nobody, every node that
      was ever started serves exactly the panel's latest list: in its own copy, the user manager, the ids and the
      limiter. */
  lemma SmoothRunsServe(states: seq<System>, events: seq<Event>, uuidLength: nat, i: nat, tag: string)
    requires IsRun(states, events, uuidLength) && i <= |events| && forall j | 0 <= j < i :: Smooth(events[j])
    requires exists j | 0 <= j < i :: events[j].Start? && events[j].tag == tag
    ensures tag in states[i].nodes
    ensures var r, n := states[i].registry, states[i].nodes[tag];
            && !n.failed && n.users == Latest(events[..i], tag)
            && CoreAgrees(r, tag, n.users) && LimiterAgrees(n.limiter, tag, n.users)
  {
    hide LimiterAgrees; hide CoreAgrees; hide IsRun; hide Smooth; hide Checked;
    SmoothRun(states, events, uuidLength, i);
    EveryReachableState(states, events, uuidLength, i, tag);
  }

  /** A failed step need not be made good by a later successful one: of two users, one was removed before the manager
      refused the second removal; when the panel lists both again the diff is empty, and the first user stays locked
      out. */
  lemma FailureIsNotRepaired()
    ensures exists r: Registry, n: NodeState, x: SyncInput, y: SyncInput ::
              && CoreAgrees(r, "t", n.users)
              && IsDiff(n.users, x.newList, x.deleted, x.added)
              && !SyncOk(r, "t", n.nodeType, x)
              && y.newList == n.users && IsDiff(SyncNode(r, "t", n, x).users, y.newList, y.deleted, y.added)
              && SyncOk(SyncRegistry(r, "t", n.nodeType, x), "t", n.nodeType, y)
              && !CoreAgrees(SyncRegistry(SyncRegistry(r, "t", n.nodeType, x), "t", n.nodeType, y), "t", y.newList)
  {
    var a, b, c := UserInfo(1, "a", 0, 0), UserInfo(2, "b", 0, 0), UserInfo(3, "c", 0, 0);
    var users := [a, b];
    var r0 := Registry(map["t" := {}], map[], map[], {});
    var r := AfterAddUsers(r0, "t", users, users);
    var n := NodeState(users, NewState("t", users, map[]), "vless", false);
    var x := SyncInput(true, [c], map[], [a, b], [c], 1, 1);
    var y := SyncInput(true, users, map[], [], [], 0, 0);
    PairAgrees(a, b);
    PairReplaced(a, b, c);
    assert DistinctKeys(users);
    NothingChanged(users);
    hide CoreAgrees; hide IsDiff; hide AfterDelUsers; hide AfterAddUsers; hide ApplyAll; hide NewState;
    assert "t" in r.managers by { AgreeingHasManager(r, "t", users); }
    RemovalsForm(r, "t", x);
    assert Removed(x) == [a];
    var r1 := AfterDelUsers(r, "t", [a]);
    assert !SyncOk(r, "t", n.nodeType, x) && SyncRegistry(r, "t", n.nodeType, x) == r1;
    assert SyncOk(r1, "t", n.nodeType, y) && SyncRegistry(r1, "t", n.nodeType, y) == r1;
    RemovedIsMissed(r, "t", users, a);
    assert SyncNode(r, "t", n, x).users == users;
  }

  lemma RemovedIsMissed(r: Registry, tag: string, users: seq<UserInfo>, u: UserInfo)
    requires CoreAgrees(r, tag, users) && u in users
    ensures !CoreAgrees(AfterDelUsers(r, tag, [u]), tag, users)
  {
    hide UserTag; hide OwnedBy;
    assert UserTag(tag, u.uuid) in Emails(tag, [u]) by { assert u in [u]; }
    assert UserTag(tag, u.uuid) in Emails(tag, users);
  }

  lemma PairAgrees(a: UserInfo, b: UserInfo)
    requires a.uuid == "a" && b.uuid == "b"
    ensures CoreAgrees(AfterAddUsers(Registry(map["t" := {}], map[], map[], {}), "t", [a, b], [a, b]), "t", [a, b])
  {
    hide OwnedBy; hide UserTag;
    UidMapOfEmails("t", [a, b]);
    MapsOfUsers("t", [a, b]);
  }

  lemma PairReplaced(a: UserInfo, b: UserInfo, c: UserInfo)
    requires a.uuid == "a" && b.uuid == "b" && c.uuid == "c" && a.speedLimit == b.speedLimit == c.speedLimit
    ensures IsDiff([a, b], [c], [a, b], [c])
  {
    var s := Itoa(a.speedLimit);
    hide Itoa;
    assert Key(a) == "a" + s && Key(b) == "b" + s && Key(c) == "c" + s;
    assert Key(a)[0] == 'a' && Key(b)[0] == 'b' && Key(c)[0] == 'c';
    assert Keys([a, b]) == {Key(a), Key(b)} by { assert a in [a, b] && b in [a, b]; }
    assert Keys([c]) == {Key(c)} by { assert c in [c]; }
    assert Fresh([c], {Key(a), Key(b)}) == [c] + Fresh([c][1..], {Key(a), Key(b)}) == [c];
  }

  lemma NothingChanged(users: seq<UserInfo>)
    requires DistinctKeys(users)
    ensures IsDiff(users, users, [], [])
  {
    FreshAllKnown(users, Keys(users));
  }

  lemma {:induction false} FreshAllKnown(users: seq<UserInfo>, known: set<string>)
    requires Keys(users) <= known
    ensures DistinctKeys(users) ==> Fresh(users, known) == []
  {
    if users != [] && DistinctKeys(users) {
      hide Key;
      KeysCons(users);
      forall k | k in Keys(users[1..]) ensures k != Key(users[0]) {
        var u :| u in users[1..] && Key(u) == k;
        var i :| 0 <= i < |users[1..]| && users[1..][i] == u;
        assert Key(users[0]) != Key(users[i + 1]);
      }
      FreshAllKnown(users[1..], known - {Key(users[0])});
    }
  }
}
