/** The core's user registry (core/user.go): the user manager of each inbound, the shared map from user key to id, the
    traffic entries and the link managers. The inbound's user manager is an abstract set whose operations may fail and
    then change nothing. */
module UserRegistry {
  import opened Text
  import opened Panel

  datatype Registry = Registry(
    managers: map<string, set<string>>,  // inbound tag to the keys of users who can authenticate
    uidMap: map<string, int>,            // user key to id
    counters: map<string, set<string>>,  // inbound tag to the keys with a traffic entry
    links: set<string>                   // keys with a link manager
  )

  /** The single writes the operations are made of. */
  datatype Op =
    | ManagerRemove(tag: string, email: string)
    | UidDelete(email: string)
    | CounterDelete(tag: string, email: string)
    | LinksClose(email: string)
    | UidSet(email: string, id: int)
    | ManagerAdd(tag: string, email: string)

  function Shrink(m: map<string, set<string>>, tag: string, email: string): map<string, set<string>> {
    if tag in m then m[tag := m[tag] - {email}] else m
  }

  function Apply(r: Registry, op: Op): Registry {
    match op
    case ManagerRemove(tag, email) => r.(managers := Shrink(r.managers, tag, email))
    case UidDelete(email) => r.(uidMap := r.uidMap - {email})
    case CounterDelete(tag, email) => r.(counters := Shrink(r.counters, tag, email))
    case LinksClose(email) => r.(links := r.links - {email})
    case UidSet(email, id) => r.(uidMap := r.uidMap[email := id])
    case ManagerAdd(tag, email) =>
      if tag in r.managers then r.(managers := r.managers[tag := r.managers[tag] + {email}]) else r
  }

  function ApplyAll(r: Registry, ops: seq<Op>): Registry {
    if ops == [] then r else Apply(ApplyAll(r, ops[..|ops| - 1]), ops[|ops| - 1])
  }

  function DelOpsOf(tag: string, u: UserInfo): seq<Op> {
    var email := UserTag(tag, u.uuid);
    [ManagerRemove(tag, email), UidDelete(email), CounterDelete(tag, email), LinksClose(email)]
  }

  function DelOps(tag: string, users: seq<UserInfo>): seq<Op> {
    if users == [] then [] else DelOps(tag, users[..|users| - 1]) + DelOpsOf(tag, users[|users| - 1])
  }

  function UidOps(tag: string, users: seq<UserInfo>): seq<Op> {
    seq(|users|, i requires 0 <= i < |users| => UidSet(UserTag(tag, users[i].uuid), users[i].id))
  }

  function ManagerOps(tag: string, users: seq<UserInfo>): seq<Op> {
    seq(|users|, i requires 0 <= i < |users| => ManagerAdd(tag, UserTag(tag, users[i].uuid)))
  }

  function AddOps(tag: string, users: seq<UserInfo>): seq<Op> {
    UidOps(tag, users) + ManagerOps(tag, users)
  }

  predicate SupportedType(nodeType: string) {
    nodeType in {"vmess", "vless", "trojan", "shadowsocks", "hysteria2", "hysteria", "tuic", "anytls"}
  }

  function Min(a: nat, b: nat): nat {
    if a < b then a else b
  }

  /** The writes of DelUsers when the manager accepts the first `accepts` removals and refuses the next. */
  function DelUsersOps(r: Registry, tag: string, users: seq<UserInfo>, accepts: nat): seq<Op> {
    if tag in r.managers then DelOps(tag, users[..Min(accepts, |users|)]) else []
  }

  predicate DelUsersOk(r: Registry, tag: string, users: seq<UserInfo>, accepts: nat) {
    tag in r.managers && accepts >= |users|
  }

  /** The writes of AddUsers: all ids first, then the users the manager accepts before it refuses one. */
  function AddUsersOps(r: Registry, tag: string, nodeType: string, users: seq<UserInfo>, accepts: nat): seq<Op> {
    UidOps(tag, users) +
    if SupportedType(nodeType) && tag in r.managers then ManagerOps(tag, users[..Min(accepts, |users|)]) else []
  }

  predicate AddUsersOk(r: Registry, tag: string, nodeType: string, users: seq<UserInfo>, accepts: nat) {
    SupportedType(nodeType) && tag in r.managers && accepts >= |users|
  }

  lemma ApplySnoc(r: Registry, ops: seq<Op>, op: Op)
    ensures ApplyAll(r, ops + [op]) == Apply(ApplyAll(r, ops), op)
  {
    assert (ops + [op])[..|ops|] == ops;
  }

  lemma ApplyFour(r: Registry, ops: seq<Op>, a: Op, b: Op, c: Op, d: Op)
    ensures ApplyAll(r, ops + [a, b, c, d]) == Apply(Apply(Apply(Apply(ApplyAll(r, ops), a), b), c), d)
  {
    hide ApplyAll; hide Apply;
    ApplySnoc(r, ops, a);
    ApplySnoc(r, ops + [a], b);
    ApplySnoc(r, ops + [a] + [b], c);
    ApplySnoc(r, ops + [a] + [b] + [c], d);
    assert ops + [a, b, c, d] == ops + [a] + [b] + [c] + [d];
  }

  class XrayCore {
    var managers: map<string, set<string>>
    var uidMap: map<string, int>
    var counters: map<string, set<string>>
    var links: set<string>

    ghost function View(): Registry
      reads this
    {
      Registry(managers, uidMap, counters, links)
    }

    method DelUsers(users: seq<UserInfo>, tag: string, accepts: nat) returns (ok: bool)
      modifies this
      ensures ok == DelUsersOk(old(View()), tag, users, accepts)
      ensures View() == ApplyAll(old(View()), DelUsersOps(old(View()), tag, users, accepts))
    {
      hide ApplyAll; hide UserTag;
      ApplyNone(View(), []);
      if tag !in managers {
        return false;
      }
      for i := 0 to |users|
        invariant tag in managers && i <= accepts
        invariant View() == ApplyAll(old(View()), DelOps(tag, users[..i]))
      {
        if i == accepts {
          return false;
        }
        var email := UserTag(tag, users[i].uuid);
        assert users[..i + 1][..i] == users[..i];
        ApplyFour(old(View()), DelOps(tag, users[..i]), ManagerRemove(tag, email), UidDelete(email),
                  CounterDelete(tag, email), LinksClose(email));
        managers := managers[tag := managers[tag] - {email}];
        uidMap := uidMap - {email};
        if tag in counters {
          counters := counters[tag := counters[tag] - {email}];
        }
        if email in links {
          links := links - {email};
        }
      }
      return true;
    }

    method AddUsers(tag: string, nodeType: string, users: seq<UserInfo>, accepts: nat) returns (ok: bool)
      modifies this
      ensures ok == AddUsersOk(old(View()), tag, nodeType, users, accepts)
      ensures View() == ApplyAll(old(View()), AddUsersOps(old(View()), tag, nodeType, users, accepts))
    {
      hide ApplyAll; hide UserTag;
      ApplyNone(View(), []);
      assert UidOps(tag, users[..0]) == [];
      for i := 0 to |users|
        invariant managers == old(managers)
        invariant View() == ApplyAll(old(View()), UidOps(tag, users[..i]))
      {
        var email := UserTag(tag, users[i].uuid);
        ApplySnoc(old(View()), UidOps(tag, users[..i]), UidSet(email, users[i].id));
        assert UidOps(tag, users[..i + 1]) == UidOps(tag, users[..i]) + [UidSet(email, users[i].id)];
        uidMap := uidMap[email := users[i].id];
      }
      assert users[..|users|] == users;
      assert UidOps(tag, users) + ManagerOps(tag, users[..0]) == UidOps(tag, users);
      assert UidOps(tag, users) + [] == UidOps(tag, users);
      if !SupportedType(nodeType) || tag !in managers {
        return false;
      }
      for i := 0 to |users|
        invariant tag in managers && i <= accepts
        invariant View() == ApplyAll(old(View()), UidOps(tag, users) + ManagerOps(tag, users[..i]))
      {
        if i == accepts {
          return false;
        }
        var email := UserTag(tag, users[i].uuid);
        ApplySnoc(old(View()), UidOps(tag, users) + ManagerOps(tag, users[..i]), ManagerAdd(tag, email));
        assert ManagerOps(tag, users[..i + 1]) == ManagerOps(tag, users[..i]) + [ManagerAdd(tag, email)];
        assert UidOps(tag, users) + ManagerOps(tag, users[..i + 1])
            == UidOps(tag, users) + ManagerOps(tag, users[..i]) + [ManagerAdd(tag, email)];
        managers := managers[tag := managers[tag] + {email}];
      }
      return true;
    }
  }

  lemma ApplyNone(r: Registry, ops: seq<Op>)
    requires ops == []
    ensures ApplyAll(r, ops) == r
  {
  }

  /** Without the inbound neither call succeeds: deleting users writes nothing, and adding users writes their ids
      only. */
  lemma MissingInbound(r: Registry, tag: string, nodeType: string, users: seq<UserInfo>, accepts: nat)
    requires tag !in r.managers
    ensures !DelUsersOk(r, tag, users, accepts) && ApplyAll(r, DelUsersOps(r, tag, users, accepts)) == r
    ensures !AddUsersOk(r, tag, nodeType, users, accepts)
    ensures ApplyAll(r, AddUsersOps(r, tag, nodeType, users, accepts)) == r.(uidMap := r.uidMap + UidMapOf(tag, users))
  {
    UidOpsEffect(r, tag, users);
    assert UidOps(tag, users) + [] == UidOps(tag, users);
  }

  // ---- Every intermediate step ----

  ghost predicate OwnedBy(email: string, tag: string) {
    exists uuid: string :: '|' !in uuid && email == UserTag(tag, uuid)
  }

  /** Managers hold keys of their own node only. */
  ghost predicate Owned(r: Registry) {
    forall t, e | t in r.managers && e in r.managers[t] :: OwnedBy(e, t)
  }

  /** Whoever can authenticate has a non-zero id. */
  ghost predicate Known(r: Registry) {
    forall t, e | t in r.managers && e in r.managers[t] :: e in r.uidMap && r.uidMap[e] != 0
  }

  ghost predicate GoodUser(u: UserInfo) {
    '|' !in u.uuid && u.id != 0
  }

  lemma OwnedOnce(email: string, tag1: string, tag2: string)
    requires OwnedBy(email, tag1) && OwnedBy(email, tag2)
    ensures tag1 == tag2
  {
    var u1: string :| '|' !in u1 && email == UserTag(tag1, u1);
    var u2: string :| '|' !in u2 && email == UserTag(tag2, u2);
    UserTagInjective(tag1, u1, tag2, u2);
  }

  /** What a write needs of the state it meets. */
  ghost predicate OpReady(r: Registry, op: Op) {
    match op
    case UidDelete(email) => forall t | t in r.managers :: email !in r.managers[t]
    case UidSet(_, id) => id != 0
    case ManagerAdd(tag, email) => OwnedBy(email, tag) && email in r.uidMap && r.uidMap[email] != 0
    case _ => true
  }

  lemma ApplyKeepsKnown(r: Registry, op: Op)
    requires Known(r) && Owned(r) && OpReady(r, op)
    ensures Known(Apply(r, op)) && Owned(Apply(r, op))
  {
    hide OwnedBy;
  }

  lemma GoneAfterRemoval(r: Registry, tag: string, email: string)
    requires Owned(r) && OwnedBy(email, tag)
    ensures var r' := Apply(r, ManagerRemove(tag, email));
            forall t | t in r'.managers :: email !in r'.managers[t]
  {
    forall t | t in r.managers && email in r.managers[t] ensures t == tag {
      OwnedOnce(email, t, tag);
    }
  }

  predicate WellPlaced(ops: seq<Op>, i: nat)
    requires i < |ops|
  {
    match ops[i]
    case UidDelete(email) => i > 0 && ops[i - 1].ManagerRemove? && ops[i - 1].email == email
    case UidSet(_, _) => false
    case ManagerAdd(_, _) => false
    case _ => true
  }

  /** Writes in which an id is dropped only right after its user left the manager. */
  ghost predicate RemovalsFirst(ops: seq<Op>) {
    forall i: nat | i < |ops| :: WellPlaced(ops, i) && (ops[i].ManagerRemove? ==> OwnedBy(ops[i].email, ops[i].tag))
  }

  lemma RemovalsFirstPrefix(ops: seq<Op>, n: nat)
    requires RemovalsFirst(ops) && n <= |ops|
    ensures RemovalsFirst(ops[..n])
  {
    hide OwnedBy;
    forall i: nat | i < n ensures WellPlaced(ops[..n], i) {
      assert WellPlaced(ops, i);
    }
  }

  lemma RemovalsFirstUser(ops: seq<Op>, tag: string, u: UserInfo)
    requires RemovalsFirst(ops) && GoodUser(u)
    ensures RemovalsFirst(ops + DelOpsOf(tag, u))
  {
    hide UserTag;
    assert OwnedBy(UserTag(tag, u.uuid), tag);
    var all := ops + DelOpsOf(tag, u);
    forall i: nat | i < |all|
      ensures WellPlaced(all, i) && (all[i].ManagerRemove? ==> OwnedBy(all[i].email, all[i].tag))
    {
      if i < |ops| {
        assert WellPlaced(ops, i);
      }
    }
  }

  lemma {:induction false} DelOpsRemoveFirst(tag: string, users: seq<UserInfo>)
    requires forall u | u in users :: GoodUser(u)
    ensures RemovalsFirst(DelOps(tag, users))
  {
    hide UserTag; hide RemovalsFirst; hide DelOpsOf;
    if users == [] {
      NoOpsFirst();
    } else {
      DelOpsRemoveFirst(tag, users[..|users| - 1]);
      RemovalsFirstUser(DelOps(tag, users[..|users| - 1]), tag, users[|users| - 1]);
    }
  }

  lemma NoOpsFirst()
    ensures RemovalsFirst([])
  {
  }

  lemma {:induction false} RemovalsKeepKnown(r: Registry, ops: seq<Op>)
    requires Known(r) && Owned(r) && RemovalsFirst(ops)
    ensures Known(ApplyAll(r, ops)) && Owned(ApplyAll(r, ops))
    decreases |ops|
  {
    hide Known; hide Owned; hide UserTag; hide Apply; hide OwnedBy;
    if ops != [] {
      var n := |ops| - 1;
      assert WellPlaced(ops, n);
      RemovalsFirstPrefix(ops, n);
      RemovalsKeepKnown(r, ops[..n]);
      if ops[n].UidDelete? {
        assert WellPlaced(ops, n - 1);
        RemovalsFirstPrefix(ops, n - 1);
        RemovalsKeepKnown(r, ops[..n - 1]);
        assert ops[..n] == ops[..n - 1] + [ops[n - 1]];
        ApplySnoc(r, ops[..n - 1], ops[n - 1]);
        GoneAfterRemoval(ApplyAll(r, ops[..n - 1]), ops[n - 1].tag, ops[n - 1].email);
      }
      ApplyKeepsKnown(ApplyAll(r, ops[..n]), ops[n]);
    }
  }

  /** After any number of writes of deleting users, each user of a manager has a non-zero id. */
  lemma DelStepsKeepKnown(r: Registry, tag: string, users: seq<UserInfo>, n: nat)
    requires Known(r) && Owned(r) && n <= |DelOps(tag, users)|
    requires forall u | u in users :: GoodUser(u)
    ensures Known(ApplyAll(r, DelOps(tag, users)[..n])) && Owned(ApplyAll(r, DelOps(tag, users)[..n]))
  {
    hide Known; hide Owned; hide ApplyAll; hide DelOps;
    DelOpsRemoveFirst(tag, users);
    RemovalsFirstPrefix(DelOps(tag, users), n);
    RemovalsKeepKnown(r, DelOps(tag, users)[..n]);
  }

  ghost predicate UidsSet(r: Registry, tag: string, users: seq<UserInfo>) {
    forall u | u in users :: UserTag(tag, u.uuid) in r.uidMap && r.uidMap[UserTag(tag, u.uuid)] != 0
  }

  /** After any number of writes of adding users, each user of a manager has a non-zero id. */
  lemma {:induction false} AddStepsKeepKnown(r: Registry, tag: string, users: seq<UserInfo>, n: nat)
    requires Known(r) && Owned(r) && n <= |AddOps(tag, users)|
    requires forall u | u in users :: GoodUser(u)
    ensures Known(ApplyAll(r, AddOps(tag, users)[..n])) && Owned(ApplyAll(r, AddOps(tag, users)[..n]))
    ensures UidsSet(ApplyAll(r, AddOps(tag, users)[..n]), tag, users[..Min(n, |users|)])
    decreases n
  {
    hide Known; hide Owned; hide UserTag;
    if n == 0 {
      ApplyNone(r, []);
    } else {
      var ops := AddOps(tag, users);
      AddStepsKeepKnown(r, tag, users, n - 1);
      ApplySnoc(r, ops[..n - 1], ops[n - 1]);
      assert ops[..n] == ops[..n - 1] + [ops[n - 1]];
      var s := ApplyAll(r, ops[..n - 1]);
      var u := users[if n <= |users| then n - 1 else n - 1 - |users|];
      assert u in users && GoodUser(u);
      assert OwnedBy(UserTag(tag, u.uuid), tag);
      if n > |users| {
        assert u in users[..Min(n - 1, |users|)];
      }
      ApplyKeepsKnown(s, ops[n - 1]);
      if n <= |users| {
        assert users[..n] == users[..n - 1] + [u];
      }
    }
  }

  // ---- Completed operations ----

  ghost function Without(m: map<string, set<string>>, tag: string, emails: set<string>): map<string, set<string>> {
    if tag in m then m[tag := m[tag] - emails] else m
  }

  /** The ids of a list of users by key; of users with one uuid the last counts. */
  function UidMapOf(tag: string, users: seq<UserInfo>): map<string, int> {
    if users == [] then map[]
    else UidMapOf(tag, users[..|users| - 1])[UserTag(tag, users[|users| - 1].uuid) := users[|users| - 1].id]
  }

  ghost function AfterDelUsers(r: Registry, tag: string, users: seq<UserInfo>): Registry {
    var emails := Emails(tag, users);
    Registry(Without(r.managers, tag, emails), r.uidMap - emails, Without(r.counters, tag, emails), r.links - emails)
  }

  /** Deleting users leaves no manager entry, id, traffic entry or link manager of any of them, and touches no other. */
  lemma {:induction false} DelUsersEffect(r: Registry, tag: string, users: seq<UserInfo>)
    ensures ApplyAll(r, DelOps(tag, users)) == AfterDelUsers(r, tag, users)
  {
    hide UserTag;
    if users == [] {
      assert Emails(tag, users) == {};
      assert r.uidMap - {} == r.uidMap;
      WithoutNone(r.managers, tag);
      WithoutNone(r.counters, tag);
    } else {
      var most, u := users[..|users| - 1], users[|users| - 1];
      DelUsersEffect(r, tag, most);
      assert users == most + [u];
      DelUserEffect(r, tag, most, u);
    }
  }

  lemma DelUserEffect(r: Registry, tag: string, most: seq<UserInfo>, u: UserInfo)
    requires ApplyAll(r, DelOps(tag, most)) == AfterDelUsers(r, tag, most)
    ensures ApplyAll(r, DelOps(tag, most + [u])) == AfterDelUsers(r, tag, most + [u])
  {
    hide UserTag; hide ApplyAll; hide Emails;
    var email := UserTag(tag, u.uuid);
    assert (most + [u])[..|most|] == most;
    SetsSnoc(tag, most, u);
    ApplyFour(r, DelOps(tag, most), ManagerRemove(tag, email), UidDelete(email), CounterDelete(tag, email),
              LinksClose(email));
    WithoutSnoc(r.managers, tag, Emails(tag, most), email);
    WithoutSnoc(r.counters, tag, Emails(tag, most), email);
    assert r.uidMap - (Emails(tag, most) + {email}) == r.uidMap - Emails(tag, most) - {email};
    assert r.links - (Emails(tag, most) + {email}) == r.links - Emails(tag, most) - {email};
  }

  lemma WithoutNone(m: map<string, set<string>>, tag: string)
    ensures Without(m, tag, {}) == m
  {
    if tag in m {
      assert m[tag] - {} == m[tag];
    }
  }

  lemma WithoutSnoc(m: map<string, set<string>>, tag: string, emails: set<string>, email: string)
    ensures Without(m, tag, emails + {email}) == Shrink(Without(m, tag, emails), tag, email)
  {
    if tag in m {
      assert m[tag] - (emails + {email}) == m[tag] - emails - {email};
    }
  }

  ghost function AfterAddUsers(r: Registry, tag: string, ids: seq<UserInfo>, users: seq<UserInfo>): Registry
    requires tag in r.managers
  {
    r.(uidMap := r.uidMap + UidMapOf(tag, ids), managers := r.managers[tag := r.managers[tag] + Emails(tag, users)])
  }

  lemma OpsSnoc(tag: string, users: seq<UserInfo>, u: UserInfo)
    ensures UidOps(tag, users + [u]) == UidOps(tag, users) + [UidSet(UserTag(tag, u.uuid), u.id)]
    ensures ManagerOps(tag, users + [u]) == ManagerOps(tag, users) + [ManagerAdd(tag, UserTag(tag, u.uuid))]
    ensures UidMapOf(tag, users + [u]) == UidMapOf(tag, users)[UserTag(tag, u.uuid) := u.id]
  {
    hide UserTag;
    assert (users + [u])[..|users|] == users;
  }

  lemma {:induction false} UidOpsEffect(r: Registry, tag: string, users: seq<UserInfo>)
    ensures ApplyAll(r, UidOps(tag, users)) == r.(uidMap := r.uidMap + UidMapOf(tag, users))
  {
    hide UserTag; hide ApplyAll; hide UidOps;
    if users == [] {
      NoUsersOps(tag);
      ApplyNone(r, UidOps(tag, users));
      assert r.uidMap + map[] == r.uidMap;
    } else {
      hide UidMapOf;
      var most, u := users[..|users| - 1], users[|users| - 1];
      UidOpsEffect(r, tag, most);
      OpsSnoc(tag, most, u);
      assert most + [u] == users;
      ApplySnoc(r, UidOps(tag, most), UidSet(UserTag(tag, u.uuid), u.id));
    }
  }

  lemma NoUsersOps(tag: string)
    ensures UidOps(tag, []) == [] && ManagerOps(tag, []) == [] && Emails(tag, []) == {} && UidMapOf(tag, []) == map[]
  {
  }

  /** Adding users sets all their ids and enters in the manager those it accepts. */
  lemma {:induction false} AddUsersEffect(r: Registry, tag: string, ids: seq<UserInfo>, users: seq<UserInfo>)
    requires tag in r.managers
    ensures ApplyAll(r, UidOps(tag, ids) + ManagerOps(tag, users)) == AfterAddUsers(r, tag, ids, users)
    decreases |users|
  {
    hide UserTag; hide ApplyAll; hide UidOps; hide ManagerOps; hide UidMapOf; hide Emails;
    if users == [] {
      NoUsersOps(tag);
      assert UidOps(tag, ids) + [] == UidOps(tag, ids);
      UidOpsEffect(r, tag, ids);
      assert r.managers[tag] + {} == r.managers[tag];
      assert r.managers[tag := r.managers[tag]] == r.managers;
    } else {
      var most, u := users[..|users| - 1], users[|users| - 1];
      AddUsersEffect(r, tag, ids, most);
      var op := ManagerAdd(tag, UserTag(tag, u.uuid));
      OpsSnoc(tag, most, u);
      SetsSnoc(tag, most, u);
      assert most + [u] == users;
      assert UidOps(tag, ids) + ManagerOps(tag, users) == UidOps(tag, ids) + ManagerOps(tag, most) + [op];
      ApplySnoc(r, UidOps(tag, ids) + ManagerOps(tag, most), op);
      assert r.managers[tag] + Emails(tag, most) + {op.email} == r.managers[tag] + Emails(tag, users);
    }
  }

  lemma {:induction false} UidMapOfEmails(tag: string, users: seq<UserInfo>)
    ensures UidMapOf(tag, users).Keys == Emails(tag, users)
  {
    hide UserTag;
    if users != [] {
      UidMapOfEmails(tag, users[..|users| - 1]);
      SetsSnoc(tag, users[..|users| - 1], users[|users| - 1]);
      assert users == users[..|users| - 1] + [users[|users| - 1]];
    }
  }
}
