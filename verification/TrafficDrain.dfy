/** Traffic entries and their drain (common/counter/traffic.go, core/user.go), with no counting between the steps of a
    drain; TrafficLedger covers the interleavings. */
module TrafficDrain {
  import opened Panel

  /** The counters of one user; connections hold references to it that outlive its key. */
  class TrafficStorage {
    var up: int
    var down: int

    constructor ()
      ensures up == 0 && down == 0
    {
      up, down := 0, 0;
    }
  }

  type Snapshot = map<string, (int, int)>

  class TrafficCounter {
    var counters: map<string, TrafficStorage>

    /** No two keys share a storage. */
    ghost predicate Valid()
      reads this
    {
      forall e, f | e in counters && f in counters && counters[e] == counters[f] :: e == f
    }

    ghost function View(): Snapshot
      reads this, counters.Values
    {
      map e | e in counters :: (counters[e].up, counters[e].down)
    }

    constructor ()
      ensures Valid() && View() == map[] && counters == map[]
    {
      counters := map[];
    }

    /** The storage of a user, made at first use. */
    method GetCounter(email: string) returns (s: TrafficStorage)
      requires Valid()
      modifies this
      ensures Valid() && email in counters && counters[email] == s
      ensures email in old(counters) ==> counters == old(counters)
      ensures email !in old(counters) ==> fresh(s) && counters == old(counters)[email := s] && s.up == 0 && s.down == 0
    {
      if email in counters {
        return counters[email];
      }
      s := new TrafficStorage();
      counters := counters[email := s];
    }

    method Delete(email: string)
      requires Valid()
      modifies this
      ensures Valid() && counters == old(counters) - {email}
    {
      counters := counters - {email};
    }

    method Rx(email: string, n: int)
      requires Valid()
      modifies this, counters.Values
      ensures Valid() && counters.Keys == old(counters).Keys + {email}
      ensures View() == old(View())[email := (old(Total(View(), email)).0, old(Total(View(), email)).1 + n)]
    {
      var s := GetCounter(email);
      s.down := s.down + n;
    }

    method Tx(email: string, n: int)
      requires Valid()
      modifies this, counters.Values
      ensures Valid() && counters.Keys == old(counters).Keys + {email}
      ensures View() == old(View())[email := (old(Total(View(), email)).0 + n, old(Total(View(), email)).1)]
    {
      var s := GetCounter(email);
      s.up := s.up + n;
    }
  }

  /** The counts of a user, zero without an entry. */
  function Total(snap: Snapshot, email: string): (int, int) {
    if email in snap then snap[email] else (0, 0)
  }

  // ---- The drain ----

  function UidOf(uidMap: map<string, int>, email: string): int {
    if email in uidMap then uidMap[email] else 0
  }

  predicate Over(snap: Snapshot, mintraffic: int, email: string)
    requires email in snap
  {
    snap[email].0 + snap[email].1 > mintraffic
  }

  /** Entries over the threshold are set to zero, or removed if no user has them; others stay. */
  ghost function Drained(snap: Snapshot, uidMap: map<string, int>, mintraffic: int): Snapshot {
    map e | e in snap && !(Over(snap, mintraffic, e) && UidOf(uidMap, e) == 0) ::
      if Over(snap, mintraffic, e) then (0, 0) else snap[e]
  }

  ghost function Reported(snap: Snapshot, uidMap: map<string, int>, mintraffic: int): set<string> {
    set e | e in snap && Over(snap, mintraffic, e) && UidOf(uidMap, e) != 0
  }

  /** The order has each of the emails once and no other. */
  ghost predicate Lists(who: seq<string>, emails: set<string>) {
    (forall i, j | 0 <= i < j < |who| :: who[i] != who[j]) && forall e :: e in who <==> e in emails
  }

  /** The slice has one line, with full counts, for each reported entry. */
  ghost predicate IsSlice(snap: Snapshot, uidMap: map<string, int>, who: seq<string>, slice: seq<UserTraffic>) {
    && |slice| == |who|
    && forall i | 0 <= i < |who| ::
         who[i] in snap && slice[i] == UserTraffic(UidOf(uidMap, who[i]), snap[who[i]].0, snap[who[i]].1)
  }

  ghost predicate Unshared(all: map<string, TrafficStorage>) {
    forall e, f | e in all && f in all && all[e] == all[f] :: e == f
  }

  ghost function CountsOf(all: map<string, TrafficStorage>): Snapshot
    reads all.Values
  {
    map e | e in all :: (all[e].up, all[e].down)
  }

  /** The visit of one entry; `all` are the entries the drain started with. */
  method VisitEntry(c: TrafficCounter, ghost all: map<string, TrafficStorage>, email: string, uidMap: map<string, int>,
                    mintraffic: int, slice0: seq<UserTraffic>)
    returns (slice: seq<UserTraffic>)
    requires email in c.counters && email in all && c.counters[email] == all[email] && Unshared(all)
    modifies c, all[email]
    ensures var (up, down, uid) := (old(all[email].up), old(all[email].down), UidOf(uidMap, email));
            var over := up + down > mintraffic;
            && CountsOf(all) == old(CountsOf(all))[email := if over then (0, 0) else (up, down)]
            && c.counters == (if over && uid == 0 then old(c.counters) - {email} else old(c.counters))
            && slice == if over && uid != 0 then slice0 + [UserTraffic(uid, up, down)] else slice0
  {
    slice := slice0;
    var s := c.counters[email];
    var up, down := s.up, s.down;
    if up + down > mintraffic {
      s.up := 0;
      s.down := 0;
      var uid := if email in uidMap then uidMap[email] else 0;
      if uid == 0 {
        c.counters := c.counters - {email};
        return;
      }
      slice := slice + [UserTraffic(uid, up, down)];
    }
  }

  /** What the entries hold once those outside `left` are visited. */
  ghost function VisitedCounts(snap: Snapshot, mintraffic: int, left: set<string>): Snapshot {
    map e | e in snap :: if e !in left && Over(snap, mintraffic, e) then (0, 0) else snap[e]
  }

  ghost function Removed(snap: Snapshot, uidMap: map<string, int>, mintraffic: int): set<string> {
    set e | e in snap && Over(snap, mintraffic, e) && UidOf(uidMap, e) == 0
  }

  /** Entries are visited in arbitrary order; `who` records the order of the reported ones. */
  method GetUserTrafficSlice(c: TrafficCounter, uidMap: map<string, int>, mintraffic: int)
    returns (slice: seq<UserTraffic>, ghost who: seq<string>)
    requires c.Valid()
    modifies c, c.counters.Values
    ensures c.Valid() && c.View() == Drained(old(c.View()), uidMap, mintraffic)
    ensures forall e | e in c.counters :: e in old(c.counters) && c.counters[e] == old(c.counters)[e]
    ensures Lists(who, Reported(old(c.View()), uidMap, mintraffic))
    ensures IsSlice(old(c.View()), uidMap, who, slice)
  {
    hide UidOf; hide Drained; hide Reported; hide Removed; hide Lists; hide IsSlice; hide VisitedCounts;
    ghost var all := c.counters;
    ghost var snap := c.View();
    NothingVisited(all, snap, mintraffic, uidMap);
    slice, who := [], [];
    var left := c.counters.Keys;
    while left != {}
      invariant left <= all.Keys
      invariant c.counters == all - (Removed(snap, uidMap, mintraffic) - left)
      invariant CountsOf(all) == VisitedCounts(snap, mintraffic, left)
      invariant Lists(who, Reported(snap, uidMap, mintraffic) - left)
      invariant IsSlice(snap, uidMap, who, slice)
      decreases |left|
    {
      var email :| email in left;
      Classify(snap, uidMap, mintraffic, email);
      RemovedWithout(all, Removed(snap, uidMap, mintraffic), left, email);
      VisitedMore(snap, mintraffic, left, email);
      ReportedWithout(Reported(snap, uidMap, mintraffic), left, email);
      assert CountsOf(all)[email] == (all[email].up, all[email].down);
      if email in Reported(snap, uidMap, mintraffic) {
        ReportedMore(snap, uidMap, who, slice, Reported(snap, uidMap, mintraffic) - left, email);
        who := who + [email];
      }
      slice := VisitEntry(c, all, email, uidMap, mintraffic, slice);
      left := left - {email};
    }
    AllVisited(c, all, snap, uidMap, mintraffic);
  }

  lemma NothingVisited(all: map<string, TrafficStorage>, snap: Snapshot, mintraffic: int, uidMap: map<string, int>)
    requires all.Keys == snap.Keys
    ensures VisitedCounts(snap, mintraffic, all.Keys) == snap && IsSlice(snap, uidMap, [], [])
    ensures all - (Removed(snap, uidMap, mintraffic) - all.Keys) == all
    ensures Lists([], Reported(snap, uidMap, mintraffic) - all.Keys)
  {
    assert Removed(snap, uidMap, mintraffic) - all.Keys == {};
  }

  lemma Classify(snap: Snapshot, uidMap: map<string, int>, mintraffic: int, email: string)
    requires email in snap
    ensures email in Removed(snap, uidMap, mintraffic) <==> Over(snap, mintraffic, email) && UidOf(uidMap, email) == 0
    ensures email in Reported(snap, uidMap, mintraffic) <==> Over(snap, mintraffic, email) && UidOf(uidMap, email) != 0
  {
  }

  lemma RemovedWithout(all: map<string, TrafficStorage>, removed: set<string>, left: set<string>, email: string)
    requires email in left && email in all
    ensures email in all - (removed - left)
    ensures all - (removed - (left - {email})) ==
            if email in removed then all - (removed - left) - {email} else all - (removed - left)
  {
    if email in removed {
      assert removed - (left - {email}) == removed - left + {email};
    } else {
      assert removed - (left - {email}) == removed - left;
    }
  }

  lemma ReportedWithout(reported: set<string>, left: set<string>, email: string)
    requires email in left
    ensures reported - (left - {email}) == if email in reported then reported - left + {email} else reported - left
  {
  }

  lemma VisitedMore(snap: Snapshot, mintraffic: int, left: set<string>, email: string)
    requires email in left && email in snap
    ensures VisitedCounts(snap, mintraffic, left)[email] == snap[email]
    ensures VisitedCounts(snap, mintraffic, left - {email}) ==
            VisitedCounts(snap, mintraffic, left)
            [email := if Over(snap, mintraffic, email) then (0, 0) else snap[email]]
  {
  }

  lemma ReportedMore(snap: Snapshot, uidMap: map<string, int>, who: seq<string>, slice: seq<UserTraffic>,
                     told: set<string>,
                     email: string)
    requires Lists(who, told) && email !in told && email in snap && IsSlice(snap, uidMap, who, slice)
    ensures Lists(who + [email], told + {email})
    ensures IsSlice(snap, uidMap, who + [email],
                    slice + [UserTraffic(UidOf(uidMap, email), snap[email].0, snap[email].1)])
  {
    hide UidOf;
  }

  lemma AllVisited(c: TrafficCounter, all: map<string, TrafficStorage>, snap: Snapshot, uidMap: map<string, int>,
                   mintraffic: int)
    requires CountsOf(all) == VisitedCounts(snap, mintraffic, {})
    requires c.counters == all - (Removed(snap, uidMap, mintraffic) - {}) && all.Keys == snap.Keys
    ensures c.View() == Drained(snap, uidMap, mintraffic)
    ensures Reported(snap, uidMap, mintraffic) - {} == Reported(snap, uidMap, mintraffic)
  {
    hide UidOf;
    forall e | e in c.counters
      ensures (c.counters[e].up, c.counters[e].down) == VisitedCounts(snap, mintraffic, {})[e]
    {
      assert CountsOf(all)[e] == (all[e].up, all[e].down);
    }
  }

  /** A user has an id: one that is stored and not zero. */
  ghost predicate HasId(uidMap: map<string, int>, email: string) {
    email in uidMap && uidMap[email] != 0
  }

  /** What a drain does, entry by entry: one over the threshold gives a line with both its counts under the id of its
      user and starts again from zero, or goes without a line if the user has no id; any other stays as it is and gives
      none. */
  lemma DrainExactly(snap: Snapshot, uidMap: map<string, int>, mintraffic: int, who: seq<string>,
                     slice: seq<UserTraffic>)
    requires Lists(who, Reported(snap, uidMap, mintraffic)) && IsSlice(snap, uidMap, who, slice)
    ensures forall e :: e in who <==> e in snap && snap[e].0 + snap[e].1 > mintraffic && HasId(uidMap, e)
    ensures |slice| == |who| && forall i | 0 <= i < |who| ::
              who[i] in snap && who[i] in uidMap &&
              slice[i] == UserTraffic(uidMap[who[i]], snap[who[i]].0, snap[who[i]].1)
    ensures forall e | e in snap ::
              var d := Drained(snap, uidMap, mintraffic);
              if snap[e].0 + snap[e].1 <= mintraffic then e in d && d[e] == snap[e]
              else if HasId(uidMap, e) then e in d && d[e] == (0, 0)
              else e !in d
    ensures Drained(snap, uidMap, mintraffic).Keys <= snap.Keys
  {
    forall i | 0 <= i < |who| ensures who[i] in Reported(snap, uidMap, mintraffic) {
      assert who[i] in who;
    }
  }

  /** With a threshold that is not negative, what a drain leaves of any user is at most the threshold, and no drain
      lowers an entry it does not report or remove: pending traffic is bounded however many drains run. */
  lemma PendingAtMostThreshold(snap: Snapshot, uidMap: map<string, int>, mintraffic: int)
    requires mintraffic >= 0
    ensures forall e | e in Drained(snap, uidMap, mintraffic) ::
              && Drained(snap, uidMap, mintraffic)[e].0 + Drained(snap, uidMap, mintraffic)[e].1 <= mintraffic
              && (e in Reported(snap, uidMap, mintraffic) || Drained(snap, uidMap, mintraffic)[e] == snap[e])
  {
    var d := Drained(snap, uidMap, mintraffic);
    forall e | e in d
      ensures d[e].0 + d[e].1 <= mintraffic && (e in Reported(snap, uidMap, mintraffic) || d[e] == snap[e])
    {
      if Over(snap, mintraffic, e) {
        assert d[e] == (0, 0) && UidOf(uidMap, e) != 0;
      }
    }
  }

  // ---- Runs of counts and drains ----

  /** Traffic is counted for some user, or a drain looks up ids, visits the reported entries in some order and gives a
      slice. */
  datatype Move =
    | Count(email: string, up: nat, down: nat)
    | Drain(uidMap: map<string, int>, mintraffic: nat, who: seq<string>, slice: seq<UserTraffic>)

  ghost function Apply(snap: Snapshot, move: Move): Snapshot {
    match move
    case Count(e, up, down) => snap[e := (Total(snap, e).0 + up, Total(snap, e).1 + down)]
    case Drain(uidMap, m, _, _) => Drained(snap, uidMap, m)
  }

  /** The slice of a drain is one GetUserTrafficSlice can return. */
  ghost predicate Possible(snap: Snapshot, move: Move) {
    move.Drain? ==>
      Lists(move.who, Reported(snap, move.uidMap, move.mintraffic)) && IsSlice(snap, move.uidMap, move.who, move.slice)
  }

  ghost predicate IsRun(snaps: seq<Snapshot>, moves: seq<Move>) {
    && |snaps| == |moves| + 1 && snaps[0] == map[]
    && forall i | 0 <= i < |moves| :: Possible(snaps[i], moves[i]) && snaps[i + 1] == Apply(snaps[i], moves[i])
  }

  function CountedFor(moves: seq<Move>, email: string): (int, int) {
    if moves == [] then (0, 0)
    else
      var p, m := CountedFor(moves[..|moves| - 1], email), moves[|moves| - 1];
      if m.Count? && m.email == email then (p.0 + m.up, p.1 + m.down) else p
  }

  /** The bytes of a user's lines in a slice. */
  function LinesOf(who: seq<string>, slice: seq<UserTraffic>, email: string): (int, int)
    requires |who| == |slice|
  {
    if who == [] then (0, 0)
    else
      var n := |who| - 1;
      var p := LinesOf(who[..n], slice[..n], email);
      if who[n] == email then (p.0 + slice[n].upload, p.1 + slice[n].download) else p
  }

  /** The bytes of a user in all slices of a run. */
  ghost function SentFor(moves: seq<Move>, email: string): (int, int) {
    if moves == [] then (0, 0)
    else
      var p, m := SentFor(moves[..|moves| - 1], email), moves[|moves| - 1];
      if m.Drain? && |m.who| == |m.slice|
      then (p.0 + LinesOf(m.who, m.slice, email).0, p.1 + LinesOf(m.who, m.slice, email).1) else p
  }

  lemma {:induction false} LinesOfOthers(who: seq<string>, slice: seq<UserTraffic>, email: string)
    requires |who| == |slice| && email !in who
    ensures LinesOf(who, slice, email) == (0, 0)
  {
    if who != [] {
      LinesOfOthers(who[..|who| - 1], slice[..|who| - 1], email);
    }
  }

  /** A user listed once has one line. */
  lemma {:induction false} LinesOfListed(who: seq<string>, slice: seq<UserTraffic>, email: string, i: nat)
    requires |who| == |slice| && i < |who| && who[i] == email
    requires forall j, k | 0 <= j < k < |who| :: who[j] != who[k]
    ensures LinesOf(who, slice, email) == (slice[i].upload, slice[i].download)
  {
    var n := |who| - 1;
    if i == n {
      LinesOfOthers(who[..n], slice[..n], email);
    } else {
      LinesOfListed(who[..n], slice[..n], email, i);
    }
  }

  /** A drain moves what it sends for a user out of the user's entry. */
  lemma DrainBalances(snap: Snapshot, move: Move, email: string)
    requires move.Drain? && Possible(snap, move) && UidOf(move.uidMap, email) != 0
    ensures |move.who| == |move.slice|
    ensures var t, l := Total(Drained(snap, move.uidMap, move.mintraffic), email), LinesOf(move.who, move.slice, email);
            t.0 + l.0 == Total(snap, email).0 && t.1 + l.1 == Total(snap, email).1
  {
    hide LinesOf;
    if email in Reported(snap, move.uidMap, move.mintraffic) {
      assert email in move.who;
      var i :| 0 <= i < |move.who| && move.who[i] == email;
      LinesOfListed(move.who, move.slice, email, i);
    } else {
      assert email !in move.who;
      LinesOfOthers(move.who, move.slice, email);
    }
  }

  /** Over any run of counts and drains, for a user who has an id at every drain: what the slices held for the user plus
      what is pending is what was counted, in both directions; and a run that ends in a drain leaves at most its
      threshold pending. */
  lemma {:induction false} SubThresholdTrafficKept(snaps: seq<Snapshot>, moves: seq<Move>, email: string)
    requires IsRun(snaps, moves) && forall i | 0 <= i < |moves| && moves[i].Drain? :: UidOf(moves[i].uidMap, email) != 0
    ensures var p := Total(snaps[|moves|], email);
            && SentFor(moves, email).0 + p.0 == CountedFor(moves, email).0
            && SentFor(moves, email).1 + p.1 == CountedFor(moves, email).1
            && (moves != [] && moves[|moves| - 1].Drain? ==> p.0 + p.1 <= moves[|moves| - 1].mintraffic)
  {
    if moves != [] {
      hide LinesOf; hide UidOf; hide Lists; hide IsSlice; hide Drained; hide Reported;
      var n := |moves| - 1;
      SubThresholdTrafficKept(snaps[..n + 1], moves[..n], email);
      assert Possible(snaps[n], moves[n]) && snaps[n + 1] == Apply(snaps[n], moves[n]);
      if moves[n].Drain? {
        DrainBalances(snaps[n], moves[n], email);
        PendingOfUser(snaps[n], moves[n].uidMap, moves[n].mintraffic, email);
      }
    }
  }

  lemma PendingOfUser(snap: Snapshot, uidMap: map<string, int>, mintraffic: nat, email: string)
    ensures Total(Drained(snap, uidMap, mintraffic), email).0 +
            Total(Drained(snap, uidMap, mintraffic), email).1 <= mintraffic
  {
  }

  // ---- The online filter of the report task (node/task.go) ----

  /** Online users are left out when a line of the traffic slice shows no traffic for them. */
  method FilterOnline(userTraffic: seq<UserTraffic>, online: seq<OnlineUser>) returns (result: seq<OnlineUser>)
    ensures result == Kept(userTraffic, online)
  {
    var nocountUID: set<int> := {};
    for i := 0 to |userTraffic|
      invariant nocountUID == NoCount(userTraffic[..i])
    {
      assert userTraffic[..i + 1] == userTraffic[..i] + [userTraffic[i]];
      if userTraffic[i].upload + userTraffic[i].download <= 0 {
        nocountUID := nocountUID + {userTraffic[i].uid};
      }
    }
    assert userTraffic[..|userTraffic|] == userTraffic;
    result := [];
    for i := 0 to |online|
      invariant result == Kept(userTraffic, online[..i])
    {
      assert online[..i + 1][..i] == online[..i];
      if online[i].uid !in nocountUID {
        result := result + [online[i]];
      }
    }
    assert online[..|online|] == online;
  }

  ghost function NoCount(userTraffic: seq<UserTraffic>): set<int> {
    set t | t in userTraffic && t.upload + t.download <= 0 :: t.uid
  }

  ghost function Kept(userTraffic: seq<UserTraffic>, online: seq<OnlineUser>): seq<OnlineUser> {
    if online == [] then []
    else
      var n := |online| - 1;
      Kept(userTraffic, online[..n]) + if online[n].uid in NoCount(userTraffic) then [] else [online[n]]
  }

  /** Some line of the slice shows no traffic for the user. */
  ghost predicate ShownIdle(userTraffic: seq<UserTraffic>, uid: int) {
    exists t | t in userTraffic :: t.uid == uid && t.upload + t.download <= 0
  }

  lemma KeptAlone(userTraffic: seq<UserTraffic>, o: OnlineUser)
    ensures Kept(userTraffic, []) == []
    ensures Kept(userTraffic, [o]) == if ShownIdle(userTraffic, o.uid) then [] else [o]
  {
    assert [o][..0] == [] && Kept(userTraffic, []) == [];
    assert o.uid in NoCount(userTraffic) <==> ShownIdle(userTraffic, o.uid);
  }

  /** Each online user is kept or left out by itself, in order: it is left out exactly if a line shows no traffic for
      it. */
  lemma {:induction false} KeptExactly(userTraffic: seq<UserTraffic>, online: seq<OnlineUser>, o: OnlineUser,
                                       more: seq<OnlineUser>)
    ensures Kept(userTraffic, []) == []
    ensures Kept(userTraffic, [o]) == if ShownIdle(userTraffic, o.uid) then [] else [o]
    ensures Kept(userTraffic, online + more) == Kept(userTraffic, online) + Kept(userTraffic, more)
    decreases |more|
  {
    KeptAlone(userTraffic, o);
    hide NoCount; hide ShownIdle;
    if more == [] {
      assert online + more == online;
    } else {
      KeptExactly(userTraffic, online, o, more[..|more| - 1]);
      assert (online + more)[..|online + more| - 1] == online + more[..|more| - 1];
    }
  }

  /** The filter never removes anyone: each line of a slice is over a threshold that is not negative. So every online
      device is reported, although the code's comment speaks of users with more than 100 kB only. */
  lemma {:induction false} FilterKeepsEveryone(snap: Snapshot, uidMap: map<string, int>, mintraffic: int,
                                               who: seq<string>,
                                               slice: seq<UserTraffic>, online: seq<OnlineUser>)
    requires mintraffic >= 0 && IsSlice(snap, uidMap, who, slice)
    requires Lists(who, Reported(snap, uidMap, mintraffic))
    ensures Kept(slice, online) == online
  {
    if online != [] {
      FilterKeepsEveryone(snap, uidMap, mintraffic, who, slice, online[..|online| - 1]);
      forall t | t in slice ensures t.upload + t.download > 0 {
        var i :| 0 <= i < |slice| && slice[i] == t;
        assert who[i] in who;
      }
      assert NoCount(slice) == {};
      assert online == online[..|online| - 1] + [online[|online| - 1]];
    }
  }
}
