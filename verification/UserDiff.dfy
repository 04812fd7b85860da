/** The user-list diff (node/task.go). Users are compared by one string key, the uuid followed by the
    printed speed limit; the surviving keys of the old list are visited in arbitrary order. */
module UserDiff {
  import opened Text
  import opened Panel

  function Key(u: UserInfo): string {
    u.uuid + Itoa(u.speedLimit)
  }

  /** What the key stands for. */
  function Identity(u: UserInfo): (string, int) {
    (u.uuid, u.speedLimit)
  }

  ghost function Keys(list: seq<UserInfo>): set<string> {
    set u | u in list :: Key(u)
  }

  ghost function Identities(list: seq<UserInfo>): set<(string, int)> {
    set u | u in list :: Identity(u)
  }

  ghost predicate DistinctKeys(list: seq<UserInfo>) {
    forall i, j | 0 <= i < j < |list| :: Key(list[i]) != Key(list[j])
  }

  ghost predicate DistinctUuids(list: seq<UserInfo>) {
    forall i, j | 0 <= i < j < |list| :: list[i].uuid != list[j].uuid
  }

  /** Users of a list whose key is outside `seen` and is new within the list, in list order;
      a repeated key counts as new again, because its first occurrence used up the old entry. */
  function Fresh(list: seq<UserInfo>, known: set<string>): seq<UserInfo> {
    if list == [] then []
    else if Key(list[0]) in known then Fresh(list[1..], known - {Key(list[0])})
    else [list[0]] + Fresh(list[1..], known)
  }

  /** The outcomes of comparing two lists, over every order in which the surviving keys are visited. */
  ghost predicate IsDiff(oldList: seq<UserInfo>, newList: seq<UserInfo>, deleted: seq<UserInfo>, added: seq<UserInfo>) {
    && Keys(deleted) == Keys(oldList) - Keys(newList)
    && DistinctKeys(deleted)
    && (forall u | u in deleted :: u in oldList)
    && added == Fresh(newList, Keys(oldList))
  }

  lemma {:induction false} FreshSnoc(list: seq<UserInfo>, u: UserInfo, known: set<string>)
    ensures Fresh(list + [u], known) ==
            Fresh(list, known) + (if Key(u) in known - Keys(list) then [] else [u])
  {
    hide Key;
    if list == [] {
      assert list + [u] == [u] && Fresh([u][1..], known) == [];
      assert Fresh([u][1..], known - {Key(u)}) == [];
      assert known - Keys(list) == known;
    } else {
      var next := if Key(list[0]) in known then known - {Key(list[0])} else known;
      FreshSnoc(list[1..], u, next);
      assert (list + [u])[1..] == list[1..] + [u];
      assert list == [list[0]] + list[1..];
      assert known - Keys(list) == next - Keys(list[1..]);
    }
  }

  lemma KeysSnoc(list: seq<UserInfo>, u: UserInfo)
    ensures Keys(list + [u]) == Keys(list) + {Key(u)}
  {
    hide Key;
    assert u in list + [u];
  }

  lemma KeysCons(list: seq<UserInfo>)
    requires list != []
    ensures Keys(list) == {Key(list[0])} + Keys(list[1..])
  {
    hide Key;
    assert list == [list[0]] + list[1..];
  }

  lemma DistinctSnoc(list: seq<UserInfo>, u: UserInfo)
    requires DistinctKeys(list) && Key(u) !in Keys(list)
    ensures DistinctKeys(list + [u])
  {
    hide Key;
    assert forall i | 0 <= i < |list| :: Key(list[i]) in Keys(list);
  }

  /** The indices a key map still holds point at users with those keys. */
  ghost predicate PointsInto(m: map<string, nat>, list: seq<UserInfo>) {
    forall k | k in m :: m[k] < |list| && Key(list[m[k]]) == k
  }

  method CompareUserList(oldList: seq<UserInfo>, newList: seq<UserInfo>)
    returns (deleted: seq<UserInfo>, added: seq<UserInfo>)
    ensures IsDiff(oldList, newList, deleted, added)
  {
    hide Key;
    var oldMap := IndexByKey(oldList);
    added := [];
    for j := 0 to |newList|
      invariant oldMap.Keys == Keys(oldList) - Keys(newList[..j])
      invariant PointsInto(oldMap, oldList)
      invariant added == Fresh(newList[..j], Keys(oldList))
    {
      var key := Key(newList[j]);
      assert newList[..j + 1] == newList[..j] + [newList[j]];
      KeysSnoc(newList[..j], newList[j]);
      FreshSnoc(newList[..j], newList[j], Keys(oldList));
      if key !in oldMap {
        added := added + [newList[j]];
      } else {
        oldMap := oldMap - {key};
      }
    }
    assert newList[..|newList|] == newList;
    deleted := Remaining(oldList, oldMap);
  }

  /** The loop that indexes the old list; of repeated keys the last index stays. */
  method IndexByKey(oldList: seq<UserInfo>) returns (oldMap: map<string, nat>)
    ensures oldMap.Keys == Keys(oldList) && PointsInto(oldMap, oldList)
  {
    hide Key;
    oldMap := map[];
    for i := 0 to |oldList|
      invariant oldMap.Keys == Keys(oldList[..i])
      invariant PointsInto(oldMap, oldList)
    {
      KeysSnoc(oldList[..i], oldList[i]);
      assert oldList[..i + 1] == oldList[..i] + [oldList[i]];
      oldMap := oldMap[Key(oldList[i]) := i];
    }
    assert oldList[..|oldList|] == oldList;
  }

  /** The loop that collects the users left in the key map, in arbitrary order. */
  method Remaining(oldList: seq<UserInfo>, oldMap: map<string, nat>) returns (deleted: seq<UserInfo>)
    requires PointsInto(oldMap, oldList)
    ensures Keys(deleted) == oldMap.Keys && DistinctKeys(deleted)
    ensures forall u | u in deleted :: u in oldList
  {
    hide Key;
    deleted := [];
    var left := oldMap.Keys;
    while left != {}
      invariant left <= oldMap.Keys && Keys(deleted) == oldMap.Keys - left
      invariant DistinctKeys(deleted)
      invariant forall u | u in deleted :: u in oldList
      decreases |left|
    {
      var key :| key in left;
      var u := oldList[oldMap[key]];
      KeysSnoc(deleted, u);
      DistinctSnoc(deleted, u);
      deleted := deleted + [u];
      left := left - {key};
    }
  }

  // ---- The diff as a patch ----

  lemma {:induction false} FreshKeys(list: seq<UserInfo>, known: set<string>)
    ensures Keys(list) - known <= Keys(Fresh(list, known)) <= Keys(list)
    ensures forall u | u in Fresh(list, known) :: u in list
  {
    hide Key;
    if list != [] {
      var next := if Key(list[0]) in known then known - {Key(list[0])} else known;
      FreshKeys(list[1..], next);
      KeysCons(list);
      KeysCons([list[0]] + Fresh(list[1..], known));
      assert list == [list[0]] + list[1..];
    }
  }

  lemma {:induction false} FreshOfDistinct(list: seq<UserInfo>, known: set<string>)
    requires DistinctKeys(list)
    ensures forall u :: u in Fresh(list, known) <==> u in list && Key(u) !in known
    ensures DistinctKeys(Fresh(list, known))
  {
    hide Key;
    if list != [] {
      var head, tail := list[0], list[1..];
      var next := if Key(head) in known then known - {Key(head)} else known;
      FreshOfDistinct(tail, next);
      assert list == [head] + tail;
      assert forall u | u in tail :: Key(u) != Key(head);
    }
  }

  /** On keys the diff is a patch for any two lists, however the surviving keys are visited. */
  lemma PatchOnKeys(oldList: seq<UserInfo>, newList: seq<UserInfo>, deleted: seq<UserInfo>, added: seq<UserInfo>)
    requires IsDiff(oldList, newList, deleted, added)
    ensures Keys(oldList) - Keys(deleted) + Keys(added) == Keys(newList)
    ensures Keys(deleted) !! Keys(newList)
    ensures DistinctKeys(newList) ==> Keys(added) !! Keys(oldList)
  {
    hide Key;
    FreshKeys(newList, Keys(oldList));
    if DistinctKeys(newList) {
      FreshOfDistinct(newList, Keys(oldList));
    }
  }

  /** Equal keys across the two lists stand for equal uuid and speed limit. */
  ghost predicate KeysFaithful(oldList: seq<UserInfo>, newList: seq<UserInfo>) {
    forall u, v | u in oldList && v in newList && Key(u) == Key(v) :: Identity(u) == Identity(v)
  }

  lemma SameKeySameUser(list: seq<UserInfo>, u: UserInfo, v: UserInfo)
    requires DistinctKeys(list) && u in list && v in list && Key(u) == Key(v)
    ensures u == v
  {
    hide Key;
    var i :| 0 <= i < |list| && list[i] == u;
    var j :| 0 <= j < |list| && list[j] == v;
    if i < j { assert false; }
    if j < i { assert false; }
  }

  lemma MissingIsDeleted(oldList: seq<UserInfo>, newList: seq<UserInfo>, deleted: seq<UserInfo>, added: seq<UserInfo>,
                         u: UserInfo)
    requires IsDiff(oldList, newList, deleted, added) && DistinctKeys(oldList)
    requires u in oldList && Key(u) !in Keys(newList)
    ensures u in deleted
  {
    hide Key;
    assert Key(u) in Keys(deleted);
    var d :| d in deleted && Key(d) == Key(u);
    SameKeySameUser(oldList, u, d);
  }

  lemma PatchedIdentity(oldList: seq<UserInfo>, newList: seq<UserInfo>, deleted: seq<UserInfo>, added: seq<UserInfo>,
                        p: (string, int))
    requires IsDiff(oldList, newList, deleted, added) && DistinctKeys(oldList) && DistinctKeys(newList)
    ensures p in Identities(oldList) - Identities(deleted) + Identities(added) <==>
            || (exists u :: u in oldList && Identity(u) == p && Key(u) in Keys(newList))
            || (exists v :: v in newList && Identity(v) == p && Key(v) !in Keys(oldList))
  {
    FreshOfDistinct(newList, Keys(oldList));
    forall u, d | u in oldList && d in deleted && Identity(u) == Identity(d)
      ensures Key(u) !in Keys(newList)
    {
      assert Key(d) in Keys(deleted);
    }
    forall u | u in oldList && Key(u) !in Keys(newList)
      ensures u in deleted
    {
      MissingIsDeleted(oldList, newList, deleted, added, u);
    }
  }

  /** Lists with distinct keys: the diff turns the old set of (uuid, speed limit) pairs into the new one exactly when
      no key is shared by two different pairs of the lists. */
  lemma DiffIsPatchExactly(oldList: seq<UserInfo>, newList: seq<UserInfo>, deleted: seq<UserInfo>, added: seq<UserInfo>)
    requires IsDiff(oldList, newList, deleted, added) && DistinctKeys(oldList) && DistinctKeys(newList)
    ensures Identities(oldList) - Identities(deleted) + Identities(added) == Identities(newList)
            <==> KeysFaithful(oldList, newList)
  {
    var patched := Identities(oldList) - Identities(deleted) + Identities(added);
    if patched == Identities(newList) {
      forall u, v | u in oldList && v in newList && Key(u) == Key(v)
        ensures Identity(u) == Identity(v)
      {
        PatchedIdentity(oldList, newList, deleted, added, Identity(u));
        assert Key(u) in Keys(newList) && Identity(u) in patched;
        var w :| w in newList && Identity(w) == Identity(u);
        SameKeySameUser(newList, v, w);
      }
    }
    if KeysFaithful(oldList, newList) {
      forall p ensures p in patched <==> p in Identities(newList) {
        PatchedIdentity(oldList, newList, deleted, added, p);
        if v :| v in newList && Identity(v) == p && Key(v) in Keys(oldList) {
          var u :| u in oldList && Key(u) == Key(v);
          assert Identity(u) == p && Key(u) in Keys(newList);
        }
      }
    }
  }

  /** Two users of different uuid length share a key, and the diff then misses the change. */
  lemma KeysCollide()
    ensures var u, v := UserInfo(1, "a1", 2, 0), UserInfo(2, "a", 12, 0);
            Key(u) == Key(v) && IsDiff([u], [v], [], []) && Identities([u]) != Identities([v])
  {
    var u, v := UserInfo(1, "a1", 2, 0), UserInfo(2, "a", 12, 0);
    assert Itoa(2) == "2" && DecimalNat(12 / 10) == "1" && Itoa(12) == "12";
    assert Key(u) == "a12" == Key(v);
    assert Keys([u]) == {Key(u)} == Keys([v]);
    assert Fresh([v], {Key(v)}) == Fresh([v][1..], {}) == [];
    assert Keys([]) == {};
    assert ("a1", 2) in Identities([u]) by { assert u in [u]; }
    assert forall w | w in [v] :: w == v;
  }

  // ---- Panel lists ----

  /** What the panel promises of a user list: uuids of one length, distinct and without bars, and non-zero ids. */
  ghost predicate PanelList(list: seq<UserInfo>, uuidLength: nat) {
    && DistinctUuids(list)
    && forall u | u in list :: |u.uuid| == uuidLength && '|' !in u.uuid && u.id != 0
  }

  lemma KeyInjective(u: UserInfo, v: UserInfo)
    requires |u.uuid| == |v.uuid| && Key(u) == Key(v)
    ensures Identity(u) == Identity(v)
  {
    assert u.uuid == Key(u)[..|u.uuid|] == v.uuid;
    assert Itoa(u.speedLimit) == Key(u)[|u.uuid|..] == Itoa(v.speedLimit);
    ItoaReadsBack(u.speedLimit);
    ItoaReadsBack(v.speedLimit);
  }

  lemma PanelListsFaithful(oldList: seq<UserInfo>, newList: seq<UserInfo>, uuidLength: nat)
    requires PanelList(oldList, uuidLength) && PanelList(newList, uuidLength)
    ensures DistinctKeys(oldList) && DistinctKeys(newList) && KeysFaithful(oldList, newList)
  {
    forall i, j | 0 <= i < j < |oldList| ensures Key(oldList[i]) != Key(oldList[j]) {
      KeysOfTwo(oldList[i], oldList[j]);
    }
    forall i, j | 0 <= i < j < |newList| ensures Key(newList[i]) != Key(newList[j]) {
      KeysOfTwo(newList[i], newList[j]);
    }
    forall u, v | u in oldList && v in newList && Key(u) == Key(v) ensures Identity(u) == Identity(v) {
      KeysOfTwo(u, v);
    }
  }

  lemma KeysOfTwo(u: UserInfo, v: UserInfo)
    requires |u.uuid| == |v.uuid|
    ensures Key(u) == Key(v) ==> Identity(u) == Identity(v)
  {
    if Key(u) == Key(v) {
      KeyInjective(u, v);
    }
  }

  /** On panel lists: a user is deleted when no new user has its uuid at its speed, added when no old user has, and a
      user whose speed changed is in both, so that deletions must be applied before additions. */
  lemma DiffOfPanelLists(oldList: seq<UserInfo>, newList: seq<UserInfo>, deleted: seq<UserInfo>, added: seq<UserInfo>,
                         uuidLength: nat)
    requires IsDiff(oldList, newList, deleted, added)
    requires PanelList(oldList, uuidLength) && PanelList(newList, uuidLength)
    ensures forall u :: u in deleted <==> u in oldList && Identity(u) !in Identities(newList)
    ensures forall u :: u in added <==> u in newList && Identity(u) !in Identities(oldList)
    ensures DistinctUuids(deleted) && DistinctUuids(added)
    ensures forall u, v | u in oldList && v in newList && u.uuid == v.uuid && u.speedLimit != v.speedLimit ::
              u in deleted && v in added
  {
    PanelListsFaithful(oldList, newList, uuidLength);
    FreshOfDistinct(newList, Keys(oldList));
    SameUuidSameUserAll(oldList);
    SameUuidSameUserAll(newList);
    forall u | u in oldList ensures u in deleted <==> Identity(u) !in Identities(newList) {
      if Key(u) in Keys(newList) {
        var v :| v in newList && Key(v) == Key(u);
        assert Key(u) !in Keys(deleted);
      } else {
        MissingIsDeleted(oldList, newList, deleted, added, u);
        assert forall v | v in newList :: Key(v) in Keys(newList);
      }
    }
    forall v | v in newList ensures v in added <==> Identity(v) !in Identities(oldList) {
      if Key(v) in Keys(oldList) {
        var u :| u in oldList && Key(u) == Key(v);
      } else {
        assert forall u | u in oldList :: Key(u) in Keys(oldList);
      }
    }
    DistinctUuidsWithin(oldList, deleted);
    DistinctUuidsWithin(newList, added);
  }

  ghost predicate SameUuidSameUser(list: seq<UserInfo>) {
    forall u, v | u in list && v in list && u.uuid == v.uuid :: u == v
  }

  lemma SameUuidSameUserAll(list: seq<UserInfo>)
    requires DistinctUuids(list)
    ensures SameUuidSameUser(list)
  {
    forall u, v | u in list && v in list && u.uuid == v.uuid ensures u == v {
      var i :| 0 <= i < |list| && list[i] == u;
      var j :| 0 <= j < |list| && list[j] == v;
      if i < j { assert false; }
      if j < i { assert false; }
    }
  }

  lemma DistinctUuidsWithin(list: seq<UserInfo>, part: seq<UserInfo>)
    requires SameUuidSameUser(list) && DistinctKeys(part)
    requires forall u | u in part :: u in list
    ensures DistinctUuids(part)
  {
    hide Key;
    forall i, j | 0 <= i < j < |part| ensures part[i].uuid != part[j].uuid {
      assert part[i] in part && part[j] in part;
    }
  }
}
