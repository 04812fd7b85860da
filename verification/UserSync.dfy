/** User synchronisation (node/task.go, node/controller.go): one logical user list is kept in a node's own copy, the
    core's user manager and id map, and the limiter's limit, id and bucket maps. A sync step diffs the panel's list
    against the copy and pushes the difference; any call to the user manager may fail and end the step. */
module UserSync {
  import opened Optional
  import opened Text
  import opened Panel
  import opened UserDiff
  import opened UserRegistry
  import opened Limiter
  import opened LimiterRuns

  /** A node; `failed` records whether a sync step of the node has failed. */
  datatype NodeState = NodeState(users: seq<UserInfo>, limiter: State, nodeType: string, failed: bool)

  /** Whether the panel answered both queries, its answers, the diff, and how many removals and additions the user
      manager accepts before it refuses one. The panel client gives an empty list for an unchanged list and for an empty
      one. */
  datatype SyncInput = SyncInput(answered: bool, newList: seq<UserInfo>, alive: map<int, int>, deleted: seq<UserInfo>,
                                 added: seq<UserInfo>, removals: nat, additions: nat)

  /** Only an answered step with a list goes on to the diff. */
  predicate HasList(x: SyncInput) {
    x.answered && x.newList != []
  }

  // ---- One sync step ----

  function AfterRemovals(r: Registry, tag: string, x: SyncInput): Registry {
    if x.deleted == [] then r else ApplyAll(r, DelUsersOps(r, tag, x.deleted, x.removals))
  }

  predicate RemovalsOk(r: Registry, tag: string, x: SyncInput) {
    x.deleted == [] || DelUsersOk(r, tag, x.deleted, x.removals)
  }

  function AfterAdditions(r: Registry, tag: string, nodeType: string, x: SyncInput): Registry {
    if x.added == [] then r else ApplyAll(r, AddUsersOps(r, tag, nodeType, x.added, x.additions))
  }

  predicate AdditionsOk(r: Registry, tag: string, nodeType: string, x: SyncInput) {
    x.added == [] || AddUsersOk(r, tag, nodeType, x.added, x.additions)
  }

  predicate SyncOk(r: Registry, tag: string, nodeType: string, x: SyncInput) {
    RemovalsOk(r, tag, x) && AdditionsOk(AfterRemovals(r, tag, x), tag, nodeType, x)
  }

  function SyncRegistry(r: Registry, tag: string, nodeType: string, x: SyncInput): Registry {
    if !HasList(x) then r
    else if !RemovalsOk(r, tag, x) then AfterRemovals(r, tag, x)
    else AfterAdditions(AfterRemovals(r, tag, x), tag, nodeType, x)
  }

  ghost function SyncNode(r: Registry, tag: string, n: NodeState, x: SyncInput): NodeState {
    var limiter := n.limiter.(alive := x.alive);
    if !x.answered then n
    else if x.newList == [] then n.(limiter := limiter)
    else if !SyncOk(r, tag, n.nodeType, x) then n.(limiter := limiter, failed := true)
    else n.(users := x.newList,
            limiter := if x.added == [] && x.deleted == [] then limiter
                       else AfterUpdate(limiter, tag, x.added, x.deleted))
  }

  class XrayController {
    const server: XrayCore
    const limiter: Limiter
    const tag: string
    const nodeType: string
    var userList: seq<UserInfo>
    ghost var failed: bool

    constructor (server: XrayCore, limiter: Limiter, tag: string, nodeType: string, userList: seq<UserInfo>)
      ensures this.server == server && this.limiter == limiter && this.tag == tag && this.nodeType == nodeType
      ensures this.userList == userList && !failed
    {
      this.server, this.limiter, this.tag, this.nodeType := server, limiter, tag, nodeType;
      this.userList, this.failed := userList, false;
    }

    ghost function View(): NodeState
      reads this, limiter
    {
      NodeState(userList, limiter.View(), nodeType, failed)
    }

    method UserListMonitor(answered: bool, newList: seq<UserInfo>, alive: map<int, int>, removals: nat, additions: nat)
      returns (ghost x: SyncInput)
      modifies this, server, limiter
      ensures x.answered == answered && x.newList == newList && x.alive == alive
      ensures x.removals == removals && x.additions == additions
      ensures answered && newList != [] ==> IsDiff(old(userList), newList, x.deleted, x.added)
      ensures server.View() == SyncRegistry(old(server.View()), tag, nodeType, x)
      ensures View() == SyncNode(old(server.View()), tag, old(View()), x)
    {
      hide IsDiff; hide ApplyAll; hide DelUsersOps; hide AddUsersOps; hide AfterUpdate; hide DelUsersOk;
      hide AddUsersOk;
      x := SyncInput(answered, newList, alive, [], [], removals, additions);
      if !answered {
        return;
      }
      limiter.aliveList := alive;
      if newList == [] {
        return;
      }
      var deleted, added := CompareUserList(userList, newList);
      x := SyncInput(answered, newList, alive, deleted, added, removals, additions);
      if |deleted| > 0 {
        var ok := server.DelUsers(deleted, tag, removals);
        if !ok {
          failed := true;
          return;
        }
      }
      if |added| > 0 {
        var ok := server.AddUsers(tag, nodeType, added, additions);
        if !ok {
          failed := true;
          return;
        }
      }
      if |added| > 0 || |deleted| > 0 {
        limiter.UpdateUser(tag, added, deleted);
      }
      userList := newList;
    }
  }

  /** The panel's answer on alive devices is taken over by every answered step, also by one that fails or finds nothing
      new; a step that goes through forgets the deleted users in it. */
  lemma AliveTakenOver(r: Registry, tag: string, n: NodeState, x: SyncInput)
    ensures SyncNode(r, tag, n, x).limiter.alive ==
            if !x.answered then n.limiter.alive
            else if x.newList != [] && SyncOk(r, tag, n.nodeType, x) then x.alive - Ids(x.deleted)
            else x.alive
  {
    hide SyncOk; hide Emails; hide Uuids; hide InfoOf; hide UidsOf;
    if x.deleted == [] {
      assert Ids(x.deleted) == {};
      assert x.alive - {} == x.alive;
    }
  }

  // ---- Agreement of the registries with a user list ----

  ghost predicate CoreAgrees(r: Registry, tag: string, users: seq<UserInfo>) {
    && tag in r.managers && r.managers[tag] == Emails(tag, users)
    && (forall u | u in users :: UserTag(tag, u.uuid) in r.uidMap && r.uidMap[UserTag(tag, u.uuid)] == u.id)
    && (forall e | e in r.uidMap && OwnedBy(e, tag) :: e in Emails(tag, users))
  }

  ghost predicate InfoAgrees(info: map<string, LimitInfo>, tag: string, users: seq<UserInfo>) {
    && info.Keys == Emails(tag, users)
    && forall u | u in users ::
         && UserTag(tag, u.uuid) in info
         && info[UserTag(tag, u.uuid)].uid == u.id && info[UserTag(tag, u.uuid)].speedLimit == u.speedLimit
  }

  ghost predicate UuidsAgree(uids: map<string, int>, users: seq<UserInfo>) {
    uids.Keys == Uuids(users) && forall u | u in users :: u.uuid in uids && uids[u.uuid] == u.id
  }

  ghost predicate LimiterAgrees(s: State, tag: string, users: seq<UserInfo>) {
    InfoAgrees(s.info, tag, users) && UuidsAgree(s.uuidToUid, users)
  }

  /** Users kept at their speed keep their id. */
  ghost predicate IdsKept(oldList: seq<UserInfo>, newList: seq<UserInfo>) {
    forall u, v | u in oldList && v in newList && Identity(u) == Identity(v) :: u.id == v.id
  }

  lemma {:induction false} MapsOfUsers(tag: string, users: seq<UserInfo>)
    requires DistinctUuids(users)
    ensures forall u | u in users ::
              && UserTag(tag, u.uuid) in InfoOf(tag, users) && InfoOf(tag, users)[UserTag(tag, u.uuid)] == InfoOfUser(u)
              && UserTag(tag, u.uuid) in UidMapOf(tag, users) && UidMapOf(tag, users)[UserTag(tag, u.uuid)] == u.id
              && u.uuid in UidsOf(users) && UidsOf(users)[u.uuid] == u.id
  {
    if users != [] {
      var most, last := users[..|users| - 1], users[|users| - 1];
      MapsOfUsers(tag, most);
      forall u | u in users
        ensures && UserTag(tag, u.uuid) in InfoOf(tag, users) &&
                InfoOf(tag, users)[UserTag(tag, u.uuid)] == InfoOfUser(u)
                && UserTag(tag, u.uuid) in UidMapOf(tag, users) && UidMapOf(tag, users)[UserTag(tag, u.uuid)] == u.id
                && u.uuid in UidsOf(users) && UidsOf(users)[u.uuid] == u.id
      {
        if u in most {
          EmailsOfUuids(tag, u, last);
        }
      }
    }
  }

  lemma EmailsOfUuids(tag: string, u: UserInfo, v: UserInfo)
    ensures UserTag(tag, u.uuid) == UserTag(tag, v.uuid) ==> u.uuid == v.uuid
  {
    assert UserTag(tag, u.uuid)[|tag| + 1..] == u.uuid && UserTag(tag, v.uuid)[|tag| + 1..] == v.uuid;
  }

  lemma {:induction false} UidsOfUuids(users: seq<UserInfo>)
    ensures UidsOf(users).Keys == Uuids(users)
  {
    if users != [] {
      UidsOfUuids(users[..|users| - 1]);
      SetsSnoc("", users[..|users| - 1], users[|users| - 1]);
      assert users == users[..|users| - 1] + [users[|users| - 1]];
    }
  }

  /** A diff of panel lists, in terms of users. */
  ghost predicate Splits(oldList: seq<UserInfo>, newList: seq<UserInfo>, deleted: seq<UserInfo>, added: seq<UserInfo>) {
    && DistinctUuids(oldList) && DistinctUuids(newList) && DistinctUuids(added)
    && (forall u :: u in deleted <==> u in oldList && Identity(u) !in Identities(newList))
    && (forall u :: u in added <==> u in newList && Identity(u) !in Identities(oldList))
  }

  /** A new user is added, or it is an old user who was not deleted and whose uuid no deleted user has. */
  lemma AddedOrKept(oldList: seq<UserInfo>, newList: seq<UserInfo>, deleted: seq<UserInfo>, added: seq<UserInfo>,
                    v: UserInfo)
    requires Splits(oldList, newList, deleted, added) && v in newList && v !in added
    ensures exists u | u in oldList :: Identity(u) == Identity(v)
    ensures v.uuid !in Uuids(deleted) && v.uuid !in Uuids(added)
  {
    SameUuidSameUserAll(oldList);
    SameUuidSameUserAll(newList);
    var u :| u in oldList && Identity(u) == Identity(v);
    assert forall d | d in oldList && d.uuid == v.uuid :: d == u;
  }

  /** An old user whose uuid no deleted user has is a new user at its speed. */
  lemma KeptIsNew(oldList: seq<UserInfo>, newList: seq<UserInfo>, deleted: seq<UserInfo>, added: seq<UserInfo>,
                  u: UserInfo)
    requires Splits(oldList, newList, deleted, added) && u in oldList && u.uuid !in Uuids(deleted)
    ensures exists v | v in newList :: Identity(v) == Identity(u)
  {
    assert u !in deleted;
  }

  lemma UuidSetPatched(oldList: seq<UserInfo>, newList: seq<UserInfo>, deleted: seq<UserInfo>, added: seq<UserInfo>)
    requires Splits(oldList, newList, deleted, added)
    ensures Uuids(oldList) - Uuids(deleted) + Uuids(added) == Uuids(newList)
  {
    forall id ensures id in Uuids(oldList) - Uuids(deleted) + Uuids(added) <==> id in Uuids(newList) {
      if v :| v in newList && v.uuid == id && v !in added {
        AddedOrKept(oldList, newList, deleted, added, v);
      }
      if u :| u in oldList && u.uuid == id && id !in Uuids(deleted) {
        KeptIsNew(oldList, newList, deleted, added, u);
      }
    }
  }

  lemma InEmails(tag: string, users: seq<UserInfo>, uuid: string)
    ensures UserTag(tag, uuid) in Emails(tag, users) <==> uuid in Uuids(users)
  {
    if u :| u in users && UserTag(tag, u.uuid) == UserTag(tag, uuid) {
      EmailsOfUuids(tag, u, UserInfo(0, uuid, 0, 0));
    }
  }

  lemma EmailSetPatched(tag: string, oldList: seq<UserInfo>, newList: seq<UserInfo>, deleted: seq<UserInfo>,
                        added: seq<UserInfo>)
    requires Splits(oldList, newList, deleted, added)
    ensures Emails(tag, oldList) - Emails(tag, deleted) + Emails(tag, added) == Emails(tag, newList)
  {
    hide UserTag; hide Splits;
    UuidSetPatched(oldList, newList, deleted, added);
    forall e
      ensures e in Emails(tag, oldList) - Emails(tag, deleted) + Emails(tag, added) <==> e in Emails(tag, newList)
    {
      if u :| u in oldList + deleted + added + newList && UserTag(tag, u.uuid) == e {
        InEmails(tag, oldList, u.uuid);
        InEmails(tag, deleted, u.uuid);
        InEmails(tag, added, u.uuid);
        InEmails(tag, newList, u.uuid);
      }
    }
  }

  /** After a complete update of the registry, ids agree with the new list exactly when kept users kept theirs. */
  lemma CorePatchExactly(r: Registry, tag: string, oldList: seq<UserInfo>, newList: seq<UserInfo>,
                         deleted: seq<UserInfo>, added: seq<UserInfo>)
    requires Splits(oldList, newList, deleted, added) && CoreAgrees(r, tag, oldList)
    ensures CoreAgrees(AfterAddUsers(AfterDelUsers(r, tag, deleted), tag, added, added), tag, newList) <==>
            IdsKept(oldList, newList)
  {
    hide UserTag; hide OwnedBy; hide Emails; hide UidMapOf;
    EmailSetPatched(tag, oldList, newList, deleted, added);
    MapsOfUsers(tag, added);
    UidMapOfEmails(tag, added);
    var r' := AfterAddUsers(AfterDelUsers(r, tag, deleted), tag, added, added);
    forall u, v | u in oldList && v in newList && Identity(u) == Identity(v)
      ensures UserTag(tag, v.uuid) in r'.uidMap && r'.uidMap[UserTag(tag, v.uuid)] == u.id
    {
      assert v !in added;
      AddedOrKept(oldList, newList, deleted, added, v);
      InEmails(tag, deleted, v.uuid);
      InEmails(tag, added, v.uuid);
    }
    forall v | v in newList ensures UserTag(tag, v.uuid) in r'.uidMap
    {
      if v !in added {
        AddedOrKept(oldList, newList, deleted, added, v);
      }
    }
  }

  lemma InfoPatchExactly(info: map<string, LimitInfo>, tag: string, oldList: seq<UserInfo>, newList: seq<UserInfo>,
                         deleted: seq<UserInfo>, added: seq<UserInfo>)
    requires Splits(oldList, newList, deleted, added) && InfoAgrees(info, tag, oldList)
    ensures InfoAgrees(info - Emails(tag, deleted) + InfoOf(tag, added), tag, newList) <==> IdsKept(oldList, newList)
  {
    hide UserTag; hide Emails; hide InfoOf;
    EmailSetPatched(tag, oldList, newList, deleted, added);
    MapsOfUsers(tag, added);
    InfoOfEmails(tag, added);
    var info' := info - Emails(tag, deleted) + InfoOf(tag, added);
    forall u, v | u in oldList && v in newList && Identity(u) == Identity(v)
      ensures && UserTag(tag, v.uuid) in info' && info'[UserTag(tag, v.uuid)].uid == u.id
              && info'[UserTag(tag, v.uuid)].speedLimit == v.speedLimit
    {
      assert v !in added;
      AddedOrKept(oldList, newList, deleted, added, v);
      InEmails(tag, deleted, v.uuid);
      InEmails(tag, added, v.uuid);
    }
    forall v | v in newList && v !in added ensures exists u | u in oldList :: Identity(u) == Identity(v) {
      AddedOrKept(oldList, newList, deleted, added, v);
    }
  }

  lemma UuidsPatched(uids: map<string, int>, oldList: seq<UserInfo>, newList: seq<UserInfo>,
                     deleted: seq<UserInfo>, added: seq<UserInfo>)
    requires Splits(oldList, newList, deleted, added) && UuidsAgree(uids, oldList)
    ensures IdsKept(oldList, newList) ==> UuidsAgree(uids - Uuids(deleted) + UidsOf(added), newList)
  {
    hide Uuids; hide UidsOf;
    UuidSetPatched(oldList, newList, deleted, added);
    MapsOfUsers("", added);
    UidsOfUuids(added);
    var uids' := uids - Uuids(deleted) + UidsOf(added);
    forall v | v in newList ensures v.uuid in uids' && (IdsKept(oldList, newList) ==> uids'[v.uuid] == v.id) {
      if v !in added {
        AddedOrKept(oldList, newList, deleted, added, v);
      }
    }
  }

  /** The same for the limiter. */
  lemma LimiterPatchExactly(s: State, tag: string, oldList: seq<UserInfo>, newList: seq<UserInfo>,
                            deleted: seq<UserInfo>, added: seq<UserInfo>)
    requires Splits(oldList, newList, deleted, added) && LimiterAgrees(s, tag, oldList)
    ensures LimiterAgrees(AfterUpdate(s, tag, added, deleted), tag, newList) <==> IdsKept(oldList, newList)
  {
    hide InfoAgrees; hide UuidsAgree; hide IdsKept;
    InfoPatchExactly(s.info, tag, oldList, newList, deleted, added);
    UuidsPatched(s.uuidToUid, oldList, newList, deleted, added);
  }
}
