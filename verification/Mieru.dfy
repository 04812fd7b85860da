/** The Mieru controller (node/mieru.go): its counters only grow, so each report sends the difference to a snapshot of
    the last reading. The snapshot moves on even when the difference stays below the threshold and is not sent. */
module Mieru {
  import opened Optional
  import opened Text
  import opened Panel
  import opened UserDiff

  datatype Reading = Reading(upload: int, download: int) {
    function Plus(r: Reading): Reading {
      Reading(upload + r.upload, download + r.download)
    }
    function Minus(r: Reading): Reading {
      Reading(upload - r.upload, download - r.download)
    }
    function Sum(): int {
      upload + download
    }
  }

  const NOTHING := Reading(0, 0)

  /** The counters by user name; users without metrics have no entry. */
  type Metrics = map<string, Reading>

  function LastOf(last: map<int, Reading>, id: int): Reading {
    if id in last then last[id] else NOTHING
  }

  function Threshold(configured: int): int {
    if configured > 0 then configured else 0
  }

  /** The snapshots and the lines after reading the users in order. */
  function AfterReport(last: map<int, Reading>, users: seq<UserInfo>, metrics: Metrics, threshold: int)
    : (map<int, Reading>, seq<UserTraffic>)
  {
    if users == [] then (last, [])
    else
      var (l, traffic) := AfterReport(last, users[..|users| - 1], metrics, threshold);
      var u := users[|users| - 1];
      if u.uuid !in metrics then (l, traffic)
      else
        var delta := metrics[u.uuid].Minus(LastOf(l, u.id));
        (l[u.id := metrics[u.uuid]],
         if delta.Sum() > threshold then traffic + [UserTraffic(u.id, delta.upload, delta.download)] else traffic)
  }

  datatype MuxUser = MuxUser(name: string, password: string)

  function BuildMieruUsers(users: seq<UserInfo>): map<string, MuxUser> {
    if users == [] then map[]
    else
      var u := users[|users| - 1];
      BuildMieruUsers(users[..|users| - 1])
      [Itoa(u.id) := MuxUser(u.uuid, if u.uuid == "" then "user_" + Itoa(u.id) else u.uuid)]
  }

  class MieruController {
    const trafficReportThreshold: int
    var userList: seq<UserInfo>
    var muxUsers: map<string, MuxUser>
    var lastTraffic: map<int, Reading>

    constructor (threshold: int, users: seq<UserInfo>)
      ensures trafficReportThreshold == threshold && userList == users && lastTraffic == map[]
      ensures muxUsers == BuildMieruUsers(users)
    {
      trafficReportThreshold, userList, lastTraffic := threshold, users, map[];
      muxUsers := BuildMieruUsers(users);
    }

    method ReportUserTraffic(metrics: Metrics) returns (traffic: seq<UserTraffic>)
      modifies this`lastTraffic
      ensures (lastTraffic, traffic) ==
              AfterReport(old(lastTraffic), userList, metrics, Threshold(trafficReportThreshold))
    {
      var threshold := 0;
      if trafficReportThreshold > 0 {
        threshold := trafficReportThreshold;
      }
      traffic := [];
      for i := 0 to |userList|
        invariant (lastTraffic, traffic) == AfterReport(old(lastTraffic), userList[..i], metrics, threshold)
      {
        var u := userList[i];
        assert userList[..i + 1][..i] == userList[..i];
        if u.uuid in metrics {
          var now := metrics[u.uuid];
          var last := if u.id in lastTraffic then lastTraffic[u.id] else NOTHING;
          var deltaUp, deltaDown := now.upload - last.upload, now.download - last.download;
          lastTraffic := lastTraffic[u.id := now];
          if deltaUp + deltaDown > threshold {
            traffic := traffic + [UserTraffic(u.id, deltaUp, deltaDown)];
          }
        }
      }
      assert userList[..|userList|] == userList;
    }

    /** An unchanged or empty panel list is an empty sequence here. */
    method UserListMonitor(newList: seq<UserInfo>) returns (ghost deleted: seq<UserInfo>, ghost added: seq<UserInfo>)
      modifies this`userList, this`muxUsers
      ensures newList == [] ==> userList == old(userList) && muxUsers == old(muxUsers)
      ensures newList != [] ==>
                && IsDiff(old(userList), newList, deleted, added)
                && userList == (if deleted == [] && added == [] then old(userList) else newList)
                && muxUsers == (if deleted == [] && added == [] then old(muxUsers) else BuildMieruUsers(newList))
    {
      hide IsDiff;
      deleted, added := [], [];
      if newList == [] {
        return;
      }
      var gone, extra := CompareUserList(userList, newList);
      deleted, added := gone, extra;
      if |gone| > 0 || |extra| > 0 {
        muxUsers := BuildMieruUsers(newList);
        userList := newList;
      }
    }
  }

  ghost predicate DistinctIds(users: seq<UserInfo>) {
    forall i, j | 0 <= i < j < |users| :: users[i].id != users[j].id
  }

  /** A configured threshold counts if it is positive; there is none otherwise. */
  lemma ThresholdExactly(configured: int)
    ensures configured >= 0 ==> Threshold(configured) == configured
    ensures configured < 0 ==> Threshold(configured) == 0
  {
  }

  /** After a step with a panel list the node serves exactly the listed users at their speeds. */
  lemma MonitorInstallsList(oldList: seq<UserInfo>, newList: seq<UserInfo>, deleted: seq<UserInfo>,
                            added: seq<UserInfo>,
                            uuidLength: nat)
    requires PanelList(oldList, uuidLength) && PanelList(newList, uuidLength) &&
             IsDiff(oldList, newList, deleted, added)
    ensures Identities(if deleted == [] && added == [] then oldList else newList) == Identities(newList)
  {
    hide IsDiff; hide Identity;
    DiffOfPanelLists(oldList, newList, deleted, added, uuidLength);
    if deleted == [] && added == [] {
      assert forall u | u in oldList :: u !in deleted;
      assert forall u | u in newList :: u !in added;
    }
  }

  lemma PrintedIdsDiffer(a: int, b: int)
    requires a != b
    ensures Itoa(a) != Itoa(b)
  {
    hide Itoa; hide ReadInt;
    ItoaReadsBack(a);
    ItoaReadsBack(b);
  }

  lemma LastIdIsNew(users: seq<UserInfo>)
    requires users != [] && DistinctIds(users)
    ensures DistinctIds(users[..|users| - 1])
    ensures forall u | u in users[..|users| - 1] :: Itoa(u.id) != Itoa(users[|users| - 1].id)
  {
    hide Itoa;
    var most, last := users[..|users| - 1], users[|users| - 1];
    forall i | 0 <= i < |most| ensures Itoa(most[i].id) != Itoa(last.id) {
      assert users[i].id != last.id;
      PrintedIdsDiffer(most[i].id, last.id);
    }
  }

  /** The entry bears the user's uuid as its name and password; a user without a uuid has a password made of its id. */
  ghost predicate Authenticates(m: MuxUser, u: UserInfo) {
    && m.name == u.uuid
    && (u.uuid != "" ==> m.password == u.uuid)
    && (u.uuid == "" ==> m.password == "user_" + Itoa(u.id))
  }

  /** The multiplexer has one entry for each user, under its printed id, that authenticates it, and no other. */
  ghost predicate Serves(m: map<string, MuxUser>, users: seq<UserInfo>) {
    && (forall u | u in users :: Itoa(u.id) in m && Authenticates(m[Itoa(u.id)], u))
    && (forall k | k in m :: exists u | u in users :: k == Itoa(u.id))
  }

  lemma {:induction false} MuxUsersFaithful(users: seq<UserInfo>)
    requires DistinctIds(users)
    ensures Serves(BuildMieruUsers(users), users)
  {
    hide Itoa; hide BuildMieruUsers; hide DistinctIds; hide Serves; hide Authenticates;
    if users == [] {
      NobodyServed(users);
    } else {
      var most, last := users[..|users| - 1], users[|users| - 1];
      LastIdIsNew(users);
      MuxUsersFaithful(most);
      MuxUserSnoc(most, last);
      assert users == most + [last];
    }
  }

  lemma NobodyServed(users: seq<UserInfo>)
    requires users == []
    ensures Serves(BuildMieruUsers(users), users)
  {
  }

  lemma MuxUserSnoc(most: seq<UserInfo>, last: UserInfo)
    requires Serves(BuildMieruUsers(most), most)
    requires forall u | u in most :: Itoa(u.id) != Itoa(last.id)
    ensures Serves(BuildMieruUsers(most + [last]), most + [last])
  {
    var entry := MuxUserLast(most, last);
    hide Itoa; hide BuildMieruUsers; hide Authenticates;
    ServesOneMore(BuildMieruUsers(most), most, last, entry);
  }

  lemma MuxUserLast(most: seq<UserInfo>, last: UserInfo) returns (entry: MuxUser)
    ensures BuildMieruUsers(most + [last]) == BuildMieruUsers(most)[Itoa(last.id) := entry]
    ensures Authenticates(entry, last)
  {
    hide Itoa;
    assert (most + [last])[..|most|] == most;
    entry := MuxUser(last.uuid, if last.uuid == "" then "user_" + Itoa(last.id) else last.uuid);
  }

  lemma ServesOneMore(m: map<string, MuxUser>, most: seq<UserInfo>, last: UserInfo, entry: MuxUser)
    requires Serves(m, most) && Authenticates(entry, last) && forall u | u in most :: Itoa(u.id) != Itoa(last.id)
    ensures Serves(m[Itoa(last.id) := entry], most + [last])
  {
    hide Itoa; hide Authenticates;
    assert last in most + [last] && forall u | u in most :: u in most + [last];
  }

  // ---- Runs of reports ----

  datatype Round = Round(users: seq<UserInfo>, metrics: Metrics)

  /** The reading a round takes of a user id. */
  function ReadingOf(users: seq<UserInfo>, metrics: Metrics, id: int): Option<Reading> {
    if users == [] then None
    else
      var u := users[|users| - 1];
      if u.id == id && u.uuid in metrics then Some(metrics[u.uuid]) else ReadingOf(users[..|users| - 1], metrics, id)
  }

  function SumFor(traffic: seq<UserTraffic>, id: int): Reading {
    if traffic == [] then NOTHING
    else
      var t := traffic[|traffic| - 1];
      SumFor(traffic[..|traffic| - 1], id).Plus(if t.uid == id then Reading(t.upload, t.download) else NOTHING)
  }

  function Snapshots(rounds: seq<Round>, threshold: int): map<int, Reading> {
    if rounds == [] then map[]
    else
      var r := rounds[|rounds| - 1];
      AfterReport(Snapshots(rounds[..|rounds| - 1], threshold), r.users, r.metrics, threshold).0
  }

  /** Everything sent for a user id in a run. */
  function Sent(rounds: seq<Round>, threshold: int, id: int): Reading {
    if rounds == [] then NOTHING
    else
      var before, r := rounds[..|rounds| - 1], rounds[|rounds| - 1];
      Sent(before, threshold, id)
      .Plus(SumFor(AfterReport(Snapshots(before, threshold), r.users, r.metrics, threshold).1, id))
  }

  /** The counters of a user id when a run last read them. */
  function Cumulative(rounds: seq<Round>, id: int): Reading {
    if rounds == [] then NOTHING
    else
      var r := ReadingOf(rounds[|rounds| - 1].users, rounds[|rounds| - 1].metrics, id);
      if r.Some? then r.value else Cumulative(rounds[..|rounds| - 1], id)
  }

  /** The differences a run did not send. */
  function Withheld(rounds: seq<Round>, threshold: int, id: int): Reading {
    if rounds == [] then NOTHING
    else
      var before, last := rounds[..|rounds| - 1], rounds[|rounds| - 1];
      var r := ReadingOf(last.users, last.metrics, id);
      var delta := if r.Some? then r.value.Minus(Cumulative(before, id)) else NOTHING;
      Withheld(before, threshold, id).Plus(if delta.Sum() > threshold then NOTHING else delta)
  }

  predicate AtLeast(a: Reading, b: Reading) {
    a.upload >= b.upload && a.download >= b.download
  }

  /** In every round ids are distinct, and the counters of an id never go down. */
  ghost predicate Growing(rounds: seq<Round>, id: int) {
    && (forall i | 0 <= i < |rounds| :: DistinctIds(rounds[i].users))
    && forall n | 0 <= n < |rounds| ::
         var r := ReadingOf(rounds[n].users, rounds[n].metrics, id);
         r.Some? ==> AtLeast(r.value, Cumulative(rounds[..n], id))
  }

  /** Counters that only grow, under a name that the id always has. */
  ghost predicate CountersGrow(rounds: seq<Round>, id: int, name: string) {
    && (forall i, u | 0 <= i < |rounds| && u in rounds[i].users && u.id == id :: u.uuid == name)
    && (forall i | 0 <= i < |rounds| && name in rounds[i].metrics ::
          rounds[i].metrics[name].upload >= 0 && rounds[i].metrics[name].download >= 0)
    && forall i, j | 0 <= i < j < |rounds| && name in rounds[i].metrics && name in rounds[j].metrics ::
         && rounds[i].metrics[name].upload <= rounds[j].metrics[name].upload
         && rounds[i].metrics[name].download <= rounds[j].metrics[name].download
  }

  lemma {:induction false} ReadingIsOfName(users: seq<UserInfo>, metrics: Metrics, id: int, name: string)
    requires forall u | u in users && u.id == id :: u.uuid == name
    ensures ReadingOf(users, metrics, id).Some? ==>
              name in metrics && ReadingOf(users, metrics, id).value == metrics[name]
  {
    if users != [] {
      ReadingIsOfName(users[..|users| - 1], metrics, id, name);
    }
  }

  lemma {:induction false} CumulativeIsSomeReading(rounds: seq<Round>, id: int, name: string)
    requires CountersGrow(rounds, id, name)
    ensures Cumulative(rounds, id) == NOTHING ||
            exists i | 0 <= i < |rounds| && name in rounds[i].metrics ::
              Cumulative(rounds, id) == rounds[i].metrics[name]
  {
    if rounds != [] {
      var n := |rounds| - 1;
      ReadingIsOfName(rounds[n].users, rounds[n].metrics, id, name);
      assert CountersGrow(rounds[..n], id, name);
      CumulativeIsSomeReading(rounds[..n], id, name);
      var before := rounds[..n];
      if i :| 0 <= i < n && name in before[i].metrics && Cumulative(before, id) == before[i].metrics[name] {
        assert rounds[i] == rounds[..n][i];
      }
    }
  }

  /** Growing counters and a fixed pairing of ids and names are all the reports need. */
  lemma CountersGrowEnough(rounds: seq<Round>, id: int, name: string)
    requires CountersGrow(rounds, id, name) && forall i | 0 <= i < |rounds| :: DistinctIds(rounds[i].users)
    ensures Growing(rounds, id)
  {
    forall n | 0 <= n < |rounds|
      ensures var r := ReadingOf(rounds[n].users, rounds[n].metrics, id);
              r.Some? ==> AtLeast(r.value, Cumulative(rounds[..n], id))
    {
      hide ReadingOf; hide Cumulative; hide DistinctIds;
      ReadingIsOfName(rounds[n].users, rounds[n].metrics, id, name);
      assert CountersGrow(rounds[..n], id, name);
      CumulativeIsSomeReading(rounds[..n], id, name);
      var before := rounds[..n];
      if i :| 0 <= i < n && name in before[i].metrics && Cumulative(before, id) == before[i].metrics[name] {
        assert rounds[i] == rounds[..n][i];
      }
    }
  }

  /** What one report does for a user id: the snapshot becomes the reading, and the difference is sent when it is over
      the threshold. */
  ghost predicate Handles(last: map<int, Reading>, r: Option<Reading>, l: map<int, Reading>, sum: Reading,
                          threshold: int, id: int) {
    var delta := if r.Some? then r.value.Minus(LastOf(last, id)) else NOTHING;
    && LastOf(l, id) == (if r.Some? then r.value else LastOf(last, id))
    && sum == (if delta.Sum() > threshold then delta else NOTHING)
  }

  lemma SumForSnoc(traffic: seq<UserTraffic>, t: UserTraffic, id: int)
    ensures SumFor(traffic + [t], id) ==
            SumFor(traffic, id).Plus(if t.uid == id then Reading(t.upload, t.download) else NOTHING)
  {
    hide Reading.Plus;
    assert (traffic + [t])[..|traffic|] == traffic;
  }

  lemma PlusNothing(r: Reading)
    ensures r.Plus(NOTHING) == r && NOTHING.Plus(r) == r
  {
  }

  lemma {:induction false} NotListed(last: map<int, Reading>, users: seq<UserInfo>, metrics: Metrics, threshold: int,
                                     id: int)
    requires forall u | u in users :: u.id != id
    ensures var (l, traffic) := AfterReport(last, users, metrics, threshold);
            LastOf(l, id) == LastOf(last, id) && SumFor(traffic, id) == NOTHING && ReadingOf(users, metrics, id) == None
  {
    if users != [] {
      var most, u := users[..|users| - 1], users[|users| - 1];
      NotListed(last, most, metrics, threshold, id);
      var (l, traffic) := AfterReport(last, most, metrics, threshold);
      if u.uuid in metrics {
        var delta := metrics[u.uuid].Minus(LastOf(l, u.id));
        SumForSnoc(traffic, UserTraffic(u.id, delta.upload, delta.download), id);
        PlusNothing(NOTHING);
      }
    }
  }

  lemma ReportSnoc(last: map<int, Reading>, most: seq<UserInfo>, u: UserInfo, metrics: Metrics, threshold: int)
    ensures var (l, traffic) := AfterReport(last, most, metrics, threshold);
            AfterReport(last, most + [u], metrics, threshold) ==
              if u.uuid !in metrics then (l, traffic)
              else
                var delta := metrics[u.uuid].Minus(LastOf(l, u.id));
                (l[u.id := metrics[u.uuid]],
                 if delta.Sum() > threshold then traffic + [UserTraffic(u.id, delta.upload, delta.download)]
                 else traffic)
    ensures forall id :: ReadingOf(most + [u], metrics, id) ==
              if u.id == id && u.uuid in metrics then Some(metrics[u.uuid]) else ReadingOf(most, metrics, id)
  {
    assert (most + [u])[..|most|] == most;
  }

  /** The user with the id is read last: its snapshot was untouched before. */
  lemma EffectOnUser(last: map<int, Reading>, most: seq<UserInfo>, u: UserInfo, metrics: Metrics, threshold: int)
    requires threshold >= 0 && forall v | v in most :: v.id != u.id
    ensures var (l, traffic) := AfterReport(last, most + [u], metrics, threshold);
            Handles(last, ReadingOf(most + [u], metrics, u.id), l, SumFor(traffic, u.id), threshold, u.id)
  {
    hide AfterReport; hide ReadingOf; hide SumFor;
    NotListed(last, most, metrics, threshold, u.id);
    ReportSnoc(last, most, u, metrics, threshold);
    if u.uuid in metrics {
      var (l, traffic) := AfterReport(last, most, metrics, threshold);
      var delta := metrics[u.uuid].Minus(LastOf(l, u.id));
      SumForSnoc(traffic, UserTraffic(u.id, delta.upload, delta.download), u.id);
      PlusNothing(delta);
    }
  }

  /** A user with another id is read last. */
  lemma NoEffectOnOthers(last: map<int, Reading>, most: seq<UserInfo>, u: UserInfo, metrics: Metrics, threshold: int,
                         id: int)
    requires u.id != id
    ensures var (l, traffic) := AfterReport(last, most, metrics, threshold);
            var (l', traffic') := AfterReport(last, most + [u], metrics, threshold);
            && LastOf(l', id) == LastOf(l, id) && SumFor(traffic', id) == SumFor(traffic, id)
            && ReadingOf(most + [u], metrics, id) == ReadingOf(most, metrics, id)
  {
    hide AfterReport; hide ReadingOf; hide SumFor;
    ReportSnoc(last, most, u, metrics, threshold);
    if u.uuid in metrics {
      var (l, traffic) := AfterReport(last, most, metrics, threshold);
      var delta := metrics[u.uuid].Minus(LastOf(l, u.id));
      SumForSnoc(traffic, UserTraffic(u.id, delta.upload, delta.download), id);
      PlusNothing(SumFor(traffic, id));
    }
  }

  lemma {:induction false} RoundEffect(last: map<int, Reading>, users: seq<UserInfo>, metrics: Metrics, threshold: int,
                                       id: int)
    requires DistinctIds(users) && threshold >= 0
    ensures var (l, traffic) := AfterReport(last, users, metrics, threshold);
            Handles(last, ReadingOf(users, metrics, id), l, SumFor(traffic, id), threshold, id)
  {
    if users != [] {
      hide AfterReport; hide ReadingOf; hide SumFor; hide Handles; hide LastOf; hide Reading.Minus;
      var most, u := users[..|users| - 1], users[|users| - 1];
      assert most + [u] == users;
      if u.id == id {
        assert forall v | v in most :: v.id != id;
        EffectOnUser(last, most, u, metrics, threshold);
      } else {
        RoundEffect(last, most, metrics, threshold, id);
        NoEffectOnOthers(last, most, u, metrics, threshold, id);
        HandlesOnlyThese(last, most, u, metrics, threshold, id);
      }
    }
  }

  lemma HandlesOnlyThese(last: map<int, Reading>, most: seq<UserInfo>, u: UserInfo, metrics: Metrics, threshold: int,
                         id: int)
    requires var (l, traffic) := AfterReport(last, most, metrics, threshold);
             var (l', traffic') := AfterReport(last, most + [u], metrics, threshold);
             && LastOf(l', id) == LastOf(l, id) && SumFor(traffic', id) == SumFor(traffic, id)
             && ReadingOf(most + [u], metrics, id) == ReadingOf(most, metrics, id)
             && Handles(last, ReadingOf(most, metrics, id), l, SumFor(traffic, id), threshold, id)
    ensures var (l', traffic') := AfterReport(last, most + [u], metrics, threshold);
            Handles(last, ReadingOf(most + [u], metrics, id), l', SumFor(traffic', id), threshold, id)
  {
    hide AfterReport; hide ReadingOf; hide SumFor;
  }

  lemma {:induction false} SnapshotIsCumulative(rounds: seq<Round>, threshold: int, id: int)
    requires Growing(rounds, id) && threshold >= 0
    ensures LastOf(Snapshots(rounds, threshold), id) == Cumulative(rounds, id)
  {
    if rounds != [] {
      hide AfterReport; hide ReadingOf; hide LastOf; hide DistinctIds;
      var before, r := rounds[..|rounds| - 1], rounds[|rounds| - 1];
      GrowingPrefix(rounds, id);
      SnapshotIsCumulative(before, threshold, id);
      RoundEffect(Snapshots(before, threshold), r.users, r.metrics, threshold, id);
    } else {
      assert LastOf(map[], id) == NOTHING;
    }
  }

  lemma GrowingPrefix(rounds: seq<Round>, id: int)
    requires Growing(rounds, id) && rounds != []
    ensures Growing(rounds[..|rounds| - 1], id) && DistinctIds(rounds[|rounds| - 1].users)
  {
    hide ReadingOf; hide Cumulative; hide DistinctIds;
    var before := rounds[..|rounds| - 1];
    forall n | 0 <= n < |before| ensures before[n] == rounds[n] && before[..n] == rounds[..n] {
    }
  }

  lemma RoundSnoc(before: seq<Round>, r: Round, threshold: int, id: int)
    ensures var reading := ReadingOf(r.users, r.metrics, id);
            Cumulative(before + [r], id) == if reading.Some? then reading.value else Cumulative(before, id)
    ensures Sent(before + [r], threshold, id) ==
            Sent(before, threshold, id)
            .Plus(SumFor(AfterReport(Snapshots(before, threshold), r.users, r.metrics, threshold).1, id))
    ensures Withheld(before + [r], threshold, id) ==
            Withheld(before, threshold, id)
            .Plus(if Delta(before, r, id).Sum() > threshold then NOTHING else Delta(before, r, id))
  {
    hide AfterReport; hide ReadingOf; hide SumFor; hide Reading.Plus; hide Reading.Minus; hide Reading.Sum;
    assert (before + [r])[..|before|] == before;
  }

  /** The growth of an id's counters in a round. */
  function Delta(before: seq<Round>, r: Round, id: int): Reading {
    var reading := ReadingOf(r.users, r.metrics, id);
    if reading.Some? then reading.value.Minus(Cumulative(before, id)) else NOTHING
  }

  /** The growth is not negative and accounts for the counters. */
  lemma DeltaGrows(before: seq<Round>, r: Round, threshold: int, id: int)
    requires Growing(before + [r], id)
    ensures Delta(before, r, id).upload >= 0 && Delta(before, r, id).download >= 0
    ensures Cumulative(before + [r], id).upload == Cumulative(before, id).upload + Delta(before, r, id).upload
    ensures Cumulative(before + [r], id).download == Cumulative(before, id).download + Delta(before, r, id).download
  {
    hide ReadingOf; hide Cumulative; hide Growing; hide Sent; hide Withheld; hide AfterReport; hide Snapshots;
    hide SumFor;
    hide DistinctIds; hide Reading.Sum; hide Reading.Plus;
    GrowingLast(before, r, id);
    RoundSnoc(before, r, threshold, id);
  }

  /** The growth of a round is sent when it is over the threshold, and withheld otherwise. */
  lemma RoundSplits(before: seq<Round>, r: Round, threshold: int, id: int)
    requires Growing(before + [r], id) && threshold >= 0
    ensures Delta(before, r, id).Sum() > threshold ==>
              && Sent(before + [r], threshold, id) == Sent(before, threshold, id).Plus(Delta(before, r, id))
              && Withheld(before + [r], threshold, id) == Withheld(before, threshold, id).Plus(NOTHING)
    ensures Delta(before, r, id).Sum() <= threshold ==>
              && Sent(before + [r], threshold, id) == Sent(before, threshold, id).Plus(NOTHING)
              && Withheld(before + [r], threshold, id) == Withheld(before, threshold, id).Plus(Delta(before, r, id))
  {
    hide AfterReport; hide ReadingOf; hide LastOf; hide DistinctIds; hide SumFor; hide Reading.Plus; hide Sent;
    hide Withheld;
    hide Cumulative; hide Snapshots; hide Growing; hide Reading.Sum; hide Delta;
    GrowingLast(before, r, id);
    RoundSnoc(before, r, threshold, id);
    SnapshotIsCumulative(before, threshold, id);
    RoundSends(before, r, threshold, id);
  }

  lemma RoundSends(before: seq<Round>, r: Round, threshold: int, id: int)
    requires DistinctIds(r.users) && threshold >= 0
    requires LastOf(Snapshots(before, threshold), id) == Cumulative(before, id)
    ensures SumFor(AfterReport(Snapshots(before, threshold), r.users, r.metrics, threshold).1, id) ==
            if Delta(before, r, id).Sum() > threshold then Delta(before, r, id) else NOTHING
  {
    hide AfterReport; hide ReadingOf; hide LastOf; hide DistinctIds; hide SumFor; hide Reading.Plus; hide Reading.Minus;
    hide Reading.Sum; hide Snapshots; hide Cumulative;
    RoundEffect(Snapshots(before, threshold), r.users, r.metrics, threshold, id);
  }

  lemma GrowingLast(before: seq<Round>, r: Round, id: int)
    requires Growing(before + [r], id)
    ensures Growing(before, id) && DistinctIds(r.users)
    ensures var v := ReadingOf(r.users, r.metrics, id);
            v.Some? ==> AtLeast(v.value, Cumulative(before, id))
  {
    hide ReadingOf; hide Cumulative; hide DistinctIds;
    var rounds := before + [r];
    assert rounds[|before|] == r && rounds[..|before|] == before;
    GrowingPrefix(rounds, id);
  }

  lemma TimesSucc(n: nat, t: int)
    ensures (n + 1) * t == n * t + t
  {
  }

  /** What n rounds may withhold. */
  function Allowance(n: nat, threshold: int): int {
    if n == 0 then 0 else Allowance(n - 1, threshold) + threshold
  }

  lemma {:induction false} AllowanceIsProduct(n: nat, threshold: int)
    ensures Allowance(n, threshold) == n * threshold
  {
    if n > 0 {
      AllowanceIsProduct(n - 1, threshold);
      TimesSucc(n - 1, threshold);
    }
  }

  ghost predicate Telescoped(sent: Reading, withheld: Reading, total: Reading, limit: int) {
    && sent.upload + withheld.upload == total.upload && sent.download + withheld.download == total.download
    && withheld.upload >= 0 && withheld.download >= 0 && withheld.Sum() <= limit
  }

  lemma AllowanceSucc(n: nat, threshold: int)
    ensures Allowance(n + 1, threshold) == Allowance(n, threshold) + threshold
  {
  }

  lemma NothingTelescopes(rounds: seq<Round>, threshold: int, id: int)
    requires rounds == []
    ensures Telescoped(Sent(rounds, threshold, id), Withheld(rounds, threshold, id), Cumulative(rounds, id),
                       Allowance(|rounds|, threshold))
  {
  }

  lemma {:induction false} RoundsTelescope(rounds: seq<Round>, threshold: int, id: int)
    requires Growing(rounds, id) && threshold >= 0
    ensures Telescoped(Sent(rounds, threshold, id), Withheld(rounds, threshold, id), Cumulative(rounds, id),
                       Allowance(|rounds|, threshold))
  {
    hide *;
    if rounds == [] {
      NothingTelescopes(rounds, threshold, id);
    } else {
      var before, r := rounds[..|rounds| - 1], rounds[|rounds| - 1];
      assert before + [r] == rounds;
      GrowingPrefix(rounds, id);
      RoundSplits(before, r, threshold, id);
      DeltaGrows(before, r, threshold, id);
      RoundsTelescope(before, threshold, id);
      AllowanceSucc(|before|, threshold);
      TelescopeOnce(Sent(before, threshold, id), Withheld(before, threshold, id), Cumulative(before, id),
                    Delta(before, r, id), Sent(rounds, threshold, id), Withheld(rounds, threshold, id),
                    Cumulative(rounds, id), Allowance(|before|, threshold), threshold);
    }
  }

  /** One round: sent, withheld and total before, the growth, and the three after it. */
  lemma TelescopeOnce(s: Reading, w: Reading, c: Reading, d: Reading, s': Reading, w': Reading, c': Reading, limit: int,
                      threshold: int)
    requires Telescoped(s, w, c, limit) && threshold >= 0 && d.upload >= 0 && d.download >= 0
    requires c'.upload == c.upload + d.upload && c'.download == c.download + d.download
    requires if d.Sum() > threshold then s' == s.Plus(d) && w' == w.Plus(NOTHING)
             else s' == s.Plus(NOTHING) && w' == w.Plus(d)
    ensures Telescoped(s', w', c', limit + threshold)
  {
  }

  /** The deltas telescope: in every run, in both directions, what was sent and what was withheld add up to the
      counters, what was withheld is not negative, and each round withholds at most the threshold. */
  lemma DeltasTelescope(rounds: seq<Round>, threshold: int, id: int)
    requires Growing(rounds, id) && threshold >= 0
    ensures Sent(rounds, threshold, id).upload + Withheld(rounds, threshold, id).upload == Cumulative(rounds, id).upload
    ensures Sent(rounds, threshold, id).download + Withheld(rounds, threshold, id).download ==
            Cumulative(rounds, id).download
    ensures Withheld(rounds, threshold, id).upload >= 0 && Withheld(rounds, threshold, id).download >= 0
    ensures Withheld(rounds, threshold, id).Sum() <= |rounds| * threshold
  {
    hide Growing; hide Sent; hide Withheld; hide Cumulative; hide Reading.Sum; hide Allowance;
    RoundsTelescope(rounds, threshold, id);
    AllowanceIsProduct(|rounds|, threshold);
  }

  /** With threshold zero, sent upload and sent download are the counters. */
  lemma ZeroThresholdExact(rounds: seq<Round>, id: int)
    requires Growing(rounds, id)
    ensures Sent(rounds, 0, id) == Cumulative(rounds, id)
  {
    hide Growing; hide Sent; hide Withheld; hide Cumulative;
    DeltasTelescope(rounds, 0, id);
  }

  /** The bound is reached: a user whose counter grows by the threshold in every round is never reported. */
  lemma {:induction false} TrickleNeverSent(n: nat, threshold: nat) returns (rounds: seq<Round>)
    ensures |rounds| == n && Growing(rounds, 1)
    ensures Cumulative(rounds, 1) == Reading(n * threshold, 0) && Sent(rounds, threshold, 1) == NOTHING
  {
    if n == 0 {
      rounds := [];
    } else {
      hide Growing; hide Sent; hide Cumulative;
      var before := TrickleNeverSent(n - 1, threshold);
      TimesSucc(n - 1, threshold);
      rounds := before + [TrickleRound(n * threshold)];
      TrickleStep(before, (n - 1) * threshold, threshold, n * threshold);
    }
  }

  /** Sent is what the counters grew by, in every run. */
  ghost predicate ExactAt(threshold: nat) {
    forall rounds: seq<Round>, id: int | Growing(rounds, id) :: Sent(rounds, threshold, id) == Cumulative(rounds, id)
  }

  /** Nothing is ever withheld for good exactly with threshold zero. */
  lemma ExactOnlyWithoutThreshold(threshold: nat)
    ensures ExactAt(threshold) <==> threshold == 0
  {
    hide Growing; hide Sent; hide Cumulative;
    if threshold == 0 {
      forall rounds: seq<Round>, id: int | Growing(rounds, id) ensures Sent(rounds, 0, id) == Cumulative(rounds, id) {
        ZeroThresholdExact(rounds, id);
      }
    } else {
      var rounds := TrickleNeverSent(1, threshold);
      assert Sent(rounds, threshold, 1) != Cumulative(rounds, 1);
    }
  }

  function TrickleRound(total: int): Round {
    Round([UserInfo(1, "u", 0, 0)], map["u" := Reading(total, 0)])
  }

  lemma TrickleStep(before: seq<Round>, total: int, threshold: nat, total': int)
    requires Growing(before, 1) && Cumulative(before, 1) == Reading(total, 0) && Sent(before, threshold, 1) == NOTHING
    requires total' == total + threshold
    ensures var rounds := before + [TrickleRound(total')];
            Growing(rounds, 1) && Cumulative(rounds, 1) == Reading(total', 0) && Sent(rounds, threshold, 1) == NOTHING
  {
    var r := TrickleRound(total');
    OnlyUser(r.users[0], r.metrics);
    var delta := Reading(threshold, 0);
    assert Delta(before, r, 1) == delta && delta.Sum() <= threshold;
    hide Growing; hide Sent; hide Withheld; hide Cumulative; hide ReadingOf; hide DistinctIds; hide Snapshots;
    hide SumFor;
    hide Reading.Plus; hide Reading.Minus; hide Reading.Sum; hide AfterReport; hide Delta;
    GrowingSnoc(before, r, 1);
    RoundSnoc(before, r, threshold, 1);
    RoundSplits(before, r, threshold, 1);
    PlusNothing(NOTHING);
  }

  lemma OnlyUser(u: UserInfo, metrics: Metrics)
    requires u.uuid in metrics
    ensures ReadingOf([u], metrics, u.id) == Some(metrics[u.uuid]) && DistinctIds([u])
  {
  }

  lemma GrowingSnoc(before: seq<Round>, r: Round, id: int)
    requires Growing(before, id) && DistinctIds(r.users)
    requires var v := ReadingOf(r.users, r.metrics, id);
             v.Some? ==> AtLeast(v.value, Cumulative(before, id))
    ensures Growing(before + [r], id)
  {
    hide ReadingOf; hide Cumulative; hide DistinctIds;
    var rounds := before + [r];
    forall n | 0 <= n < |rounds|
      ensures DistinctIds(rounds[n].users)
      ensures var v := ReadingOf(rounds[n].users, rounds[n].metrics, id);
              v.Some? ==> AtLeast(v.value, Cumulative(rounds[..n], id))
    {
      if n < |before| {
        assert rounds[n] == before[n] && rounds[..n] == before[..n];
      } else {
        assert rounds[n] == r && rounds[..n] == before;
      }
    }
  }

  // ---- Several controllers ----

  /** A reload makes a controller without snapshots, and so does each Mieru protocol of a node set, while the counters
      are looked up by the user's name alone and live on. Each element is the rounds of one controller; nothing is said
      of when they fall, so the controllers may follow each other or work side by side. */
  function SentByAll(controllers: seq<seq<Round>>, threshold: int, id: int): Reading {
    if controllers == [] then NOTHING
    else
      SentByAll(controllers[..|controllers| - 1], threshold, id)
      .Plus(Sent(controllers[|controllers| - 1], threshold, id))
  }

  function WithheldByAll(controllers: seq<seq<Round>>, threshold: int, id: int): Reading {
    if controllers == [] then NOTHING
    else
      WithheldByAll(controllers[..|controllers| - 1], threshold, id)
      .Plus(Withheld(controllers[|controllers| - 1], threshold, id))
  }

  /** The counters as each controller last read them, added up. */
  function SumOfEnds(controllers: seq<seq<Round>>, id: int): Reading {
    if controllers == [] then NOTHING
    else SumOfEnds(controllers[..|controllers| - 1], id).Plus(Cumulative(controllers[|controllers| - 1], id))
  }

  lemma LastController(controllers: seq<seq<Round>>, threshold: int, id: int)
    requires controllers != []
    ensures var before, last := controllers[..|controllers| - 1], controllers[|controllers| - 1];
            && SentByAll(controllers, threshold, id) == SentByAll(before, threshold, id).Plus(Sent(last, threshold, id))
            && WithheldByAll(controllers, threshold, id) ==
                 WithheldByAll(before, threshold, id).Plus(Withheld(last, threshold, id))
            && SumOfEnds(controllers, id) == SumOfEnds(before, id).Plus(Cumulative(last, id))
  {
    hide Sent; hide Withheld; hide Cumulative; hide Reading.Plus;
  }

  lemma PlusSix(a: Reading, b: Reading, c: Reading, d: Reading, e: Reading, f: Reading)
    requires a.Plus(b) == c && d.upload + e.upload == f.upload && d.download + e.download == f.download
    ensures a.Plus(d).Plus(b.Plus(e)) == c.Plus(f)
  {
  }

  /** Each controller starts again from zero: sent and withheld together are the sum of what the controllers last read,
      not the counters. */
  lemma {:induction false} ReloadsStartAgain(controllers: seq<seq<Round>>, threshold: nat, id: int)
    requires forall k | 0 <= k < |controllers| :: Growing(controllers[k], id)
    ensures SentByAll(controllers, threshold, id).Plus(WithheldByAll(controllers, threshold, id)) ==
            SumOfEnds(controllers, id)
  {
    if controllers == [] {
      PlusNothing(NOTHING);
    } else {
      hide Growing; hide Sent; hide Withheld; hide Cumulative; hide Reading.Plus; hide Allowance; hide Reading.Sum;
      hide SentByAll; hide WithheldByAll; hide SumOfEnds;
      var before, last := controllers[..|controllers| - 1], controllers[|controllers| - 1];
      ReloadsStartAgain(before, threshold, id);
      RoundsTelescope(last, threshold, id);
      LastController(controllers, threshold, id);
      PlusSix(SentByAll(before, threshold, id), WithheldByAll(before, threshold, id), SumOfEnds(before, id),
              Sent(last, threshold, id), Withheld(last, threshold, id), Cumulative(last, id));
    }
  }

  /** A controller never read the counters of the id above zero. */
  ghost predicate ReadNothing(controllers: seq<seq<Round>>, id: int) {
    forall k | 0 <= k < |controllers| :: Cumulative(controllers[k], id) == NOTHING
  }

  ghost predicate EndsNonNegative(controllers: seq<seq<Round>>, id: int) {
    forall k | 0 <= k < |controllers| :: NonNegative(Cumulative(controllers[k], id))
  }

  predicate NonNegative(r: Reading) {
    r.upload >= 0 && r.download >= 0
  }

  lemma PlusIsNothing(a: Reading, b: Reading)
    requires NonNegative(a) && NonNegative(b)
    ensures NonNegative(a.Plus(b)) && (a.Plus(b) == NOTHING <==> a == NOTHING && b == NOTHING)
  {
  }

  lemma ReadNothingSnoc(controllers: seq<seq<Round>>, id: int)
    requires controllers != []
    ensures ReadNothing(controllers, id) <==>
            ReadNothing(controllers[..|controllers| - 1], id) &&
              Cumulative(controllers[|controllers| - 1], id) == NOTHING
    ensures EndsNonNegative(controllers, id) ==>
              EndsNonNegative(controllers[..|controllers| - 1], id) &&
                NonNegative(Cumulative(controllers[|controllers| - 1], id))
  {
    hide Cumulative; hide NonNegative;
    var before := controllers[..|controllers| - 1];
    if ReadNothing(before, id) && Cumulative(controllers[|before|], id) == NOTHING {
      forall k | 0 <= k < |controllers| ensures Cumulative(controllers[k], id) == NOTHING {
        if k < |before| {
          assert controllers[k] == before[k];
        }
      }
    }
  }

  lemma {:induction false} EndsSumToNothingExactly(controllers: seq<seq<Round>>, id: int)
    requires EndsNonNegative(controllers, id)
    ensures NonNegative(SumOfEnds(controllers, id)) &&
            (SumOfEnds(controllers, id) == NOTHING <==> ReadNothing(controllers, id))
  {
    if controllers != [] {
      hide Cumulative; hide NonNegative; hide Reading.Plus; hide ReadNothing; hide EndsNonNegative;
      ReadNothingSnoc(controllers, id);
      EndsSumToNothingExactly(controllers[..|controllers| - 1], id);
      PlusIsNothing(SumOfEnds(controllers[..|controllers| - 1], id), Cumulative(controllers[|controllers| - 1], id));
    }
  }

  lemma {:induction false} SentIsSumOfEnds(controllers: seq<seq<Round>>, id: int)
    requires forall k | 0 <= k < |controllers| :: Growing(controllers[k], id)
    ensures SentByAll(controllers, 0, id) == SumOfEnds(controllers, id)
  {
    if controllers != [] {
      hide Growing; hide Sent; hide Cumulative; hide Reading.Plus;
      SentIsSumOfEnds(controllers[..|controllers| - 1], id);
      ZeroThresholdExact(controllers[|controllers| - 1], id);
    }
  }

  /** Across controllers, with threshold zero, what all of them sent is what the last one read exactly if no other had
      read anything: whatever one reports is reported once more by each that reads it later, after a reload or beside
      it. */
  lemma ReloadsRepeatExactly(controllers: seq<seq<Round>>, id: int)
    requires controllers != [] && EndsNonNegative(controllers, id)
    requires forall k | 0 <= k < |controllers| :: Growing(controllers[k], id)
    ensures SentByAll(controllers, 0, id) == Cumulative(controllers[|controllers| - 1], id) <==>
            ReadNothing(controllers[..|controllers| - 1], id)
  {
    hide Growing; hide Sent; hide Cumulative; hide ReadNothing; hide EndsNonNegative; hide SentByAll;
    ReadNothingSnoc(controllers, id);
    EndsSumToNothingExactly(controllers[..|controllers| - 1], id);
    SentIsSumOfEnds(controllers, id);
  }
}
