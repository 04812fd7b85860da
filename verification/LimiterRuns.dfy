/** What the limiter keeps over whole runs: cached buckets agree with a fresh computation, and every accepted device is
    reported exactly once. */
module LimiterRuns {
  import opened Optional
  import opened Text
  import opened Panel
  import opened Limiter

  // ---- Invariant ----

  ghost predicate NothingExpires(s: State) {
    forall e | e in s.info :: s.info[e].expireTime == 0 && s.info[e].dynamicSpeedLimit == 0
  }

  /** The rate a computation from scratch would give a user. */
  function FreshRate(s: State, email: string): int
    requires email in s.info
  {
    BytesPerSecond(DetermineSpeedLimit(s.nodeLimit, DetermineSpeedLimit(s.info[email].speedLimit, 0)))
  }

  ghost predicate BucketsFresh(s: State) {
    forall e | e in s.buckets :: e in s.info && s.buckets[e].rate == FreshRate(s, e) && s.buckets[e].rate > 0
  }

  ghost predicate OnlineKnown(s: State) {
    forall e | e in s.online ::
      e in s.info && s.online[e] != map[] && forall ip | ip in s.online[e] :: s.online[e][ip] == s.info[e].uid
  }

  ghost predicate Valid(s: State) {
    NothingExpires(s) && BucketsFresh(s) && OnlineKnown(s)
  }

  /** An update in which every added user is unknown or also deleted. */
  ghost predicate Replaces(s: State, tag: string, added: seq<UserInfo>, deleted: seq<UserInfo>) {
    s.info.Keys * Emails(tag, added) <= Emails(tag, deleted)
  }

  lemma {:induction false} InfoOfEmails(tag: string, users: seq<UserInfo>)
    ensures InfoOf(tag, users).Keys == Emails(tag, users)
    ensures forall e | e in InfoOf(tag, users) ::
              InfoOf(tag, users)[e].expireTime == 0 && InfoOf(tag, users)[e].dynamicSpeedLimit == 0
  {
    hide UserTag;
    if users != [] {
      var most, u := users[..|users| - 1], users[|users| - 1];
      InfoOfEmails(tag, most);
      SetsSnoc(tag, most, u);
      assert users == most + [u];
    }
  }

  lemma NewStateValid(tag: string, users: seq<UserInfo>, alive: map<int, int>)
    ensures Valid(NewState(tag, users, alive))
  {
    InfoOfEmails(tag, users);
  }

  /** Without expiry a check leaves the user limits alone. */
  lemma CheckKeepsInfo(s: State, email: string, ip: string, now: int, noSSUDP: bool)
    requires NothingExpires(s)
    ensures AfterCheck(s, email, ip, now, noSSUDP).0.info == s.info
    ensures AfterCheck(s, email, ip, now, noSSUDP).0.uuidToUid == s.uuidToUid
  {
    hide BytesPerSecond; hide DetermineSpeedLimit; hide TrimPrefix; hide TurnsAway; hide OnlineAfterTracking;
    hide OldAfterTracking;
  }

  lemma CheckKeepsValid(s: State, email: string, ip: string, now: int, noSSUDP: bool)
    requires Valid(s)
    ensures Valid(AfterCheck(s, email, ip, now, noSSUDP).0)
  {
    hide AfterCheck; hide NothingExpires; hide BucketsFresh; hide OnlineKnown;
    CheckKeepsExpiry(s, email, ip, now, noSSUDP);
    CheckKeepsBuckets(s, email, ip, now, noSSUDP);
    CheckKeepsOnline(s, email, ip, now, noSSUDP);
  }

  lemma CheckKeepsExpiry(s: State, email: string, ip: string, now: int, noSSUDP: bool)
    requires NothingExpires(s)
    ensures NothingExpires(AfterCheck(s, email, ip, now, noSSUDP).0)
  {
    hide AfterCheck;
    CheckKeepsInfo(s, email, ip, now, noSSUDP);
  }

  lemma CheckKeepsBuckets(s: State, email: string, ip: string, now: int, noSSUDP: bool)
    requires NothingExpires(s) && BucketsFresh(s)
    ensures BucketsFresh(AfterCheck(s, email, ip, now, noSSUDP).0)
  {
    hide BytesPerSecond; hide DetermineSpeedLimit; hide TrimPrefix; hide TurnsAway; hide OnlineAfterTracking;
    hide OldAfterTracking; hide DeviceIp;
    CheckKeepsInfo(s, email, ip, now, noSSUDP);
  }

  lemma CheckOnlineForm(s: State, email: string, ip: string, now: int, noSSUDP: bool)
    ensures var online := AfterCheck(s, email, ip, now, noSSUDP).0.online;
            || online == s.online
            || (email in s.info && online == OnlineAfterTracking(s, email, DeviceIp(ip), s.info[email].uid))
  {
    hide BytesPerSecond; hide DetermineSpeedLimit; hide TrimPrefix; hide TurnsAway; hide OnlineAfterTracking;
    hide OldAfterTracking; hide DeviceIp; hide Rate;
    if email in s.info {
      SameTracking(s, s.(info := InfoAfterExpiry(s, email, now)), email, DeviceIp(ip), s.info[email].uid);
    }
  }

  lemma CheckKeepsOnline(s: State, email: string, ip: string, now: int, noSSUDP: bool)
    requires NothingExpires(s) && OnlineKnown(s)
    ensures OnlineKnown(AfterCheck(s, email, ip, now, noSSUDP).0)
  {
    hide AfterCheck; hide OnlineAfterTracking; hide DeviceIp;
    CheckKeepsInfo(s, email, ip, now, noSSUDP);
    CheckOnlineForm(s, email, ip, now, noSSUDP);
    if email in s.info {
      TrackingKeepsKnown(s, email, DeviceIp(ip));
    }
  }

  lemma TrackingForm(s: State, email: string, ip: string, uid: int)
    ensures var online := OnlineAfterTracking(s, email, ip, uid);
            && online.Keys == s.online.Keys + {email}
            && online[email].Keys == {ip} + (if email in s.online then s.online[email].Keys else {})
            && (forall e | e in s.online && e != email :: online[e] == s.online[e])
            && forall i | i in online[email] ::
                 || online[email][i] == uid
                 || (email in s.online && i in s.online[email] && online[email][i] == s.online[email][i])
  {
  }

  lemma TrackingKeepsKnown(s: State, email: string, ip: string)
    requires OnlineKnown(s) && email in s.info
    ensures OnlineKnown(s.(online := OnlineAfterTracking(s, email, ip, s.info[email].uid)))
  {
    TrackingForm(s, email, ip, s.info[email].uid);
    hide OnlineAfterTracking;
    var online := OnlineAfterTracking(s, email, ip, s.info[email].uid);
    assert ip in online[email];
  }

  lemma UpdateKeepsValid(s: State, tag: string, added: seq<UserInfo>, deleted: seq<UserInfo>)
    requires Valid(s) && Replaces(s, tag, added, deleted)
    ensures Valid(AfterUpdate(s, tag, added, deleted))
  {
    hide BytesPerSecond; hide DetermineSpeedLimit; hide Emails;
    InfoOfEmails(tag, added);
    var t := AfterUpdate(s, tag, added, deleted);
    assert forall e | e in s.info && e !in Emails(tag, deleted) :: e in t.info && t.info[e] == s.info[e];
    assert NothingExpires(t);
    assert BucketsFresh(t);
    assert OnlineKnown(t);
  }

  lemma ReportKeepsValid(s: State, order: seq<(string, string)>)
    requires Valid(s) && Enumerates(order, Devices(s.online))
    ensures Valid(AfterReport(s, order))
  {
    hide BytesPerSecond; hide DetermineSpeedLimit;
  }

  // ---- Verdicts ----

  /** A check of a valid state answers with the rate of a fresh computation, from the cached bucket if there is one;
      a user with a bucket keeps that bucket. */
  lemma CheckGivesFreshRate(s: State, email: string, ip: string, now: int, noSSUDP: bool)
    requires Valid(s)
    ensures var (t, v) := AfterCheck(s, email, ip, now, noSSUDP);
            v.Accepted? ==>
              && email in s.info
              && (v.bucket.Some? <==> FreshRate(s, email) > 0)
              && (v.bucket.Some? ==>
                  v.bucket.value.rate == FreshRate(s, email) && email in t.buckets &&
                    t.buckets[email] == v.bucket.value)
              && (email in s.buckets ==> v.bucket == Some(s.buckets[email]))
  {
    hide BytesPerSecond; hide DetermineSpeedLimit;
  }

  /** For limits that are not negative and fit 64 bits, the rate is 125000 bytes a second for each megabit of the
      smaller limit that is set. */
  lemma FreshRateInRange(s: State, email: string)
    requires email in s.info && 0 <= s.nodeLimit <= MAX_LIMIT && 0 <= s.info[email].speedLimit <= MAX_LIMIT
    ensures exists r | IsMinNonZero(s.nodeLimit, s.info[email].speedLimit, r) :: FreshRate(s, email) == 125000 * r
  {
    hide BytesPerSecond;
    var r := DetermineSpeedLimit(s.nodeLimit, s.info[email].speedLimit);
    assert DetermineSpeedLimit(s.info[email].speedLimit, 0) == s.info[email].speedLimit;
    MinNonZeroExactly(s.nodeLimit, s.info[email].speedLimit);
    BytesPerSecondExact(r);
  }

  /** How many devices of a user the panel counts as alive. */
  ghost function Counted(alive: map<int, int>, uid: int): (n: int)
    ensures uid in alive ==> n == alive[uid]
    ensures uid !in alive ==> n == 0
  {
    if uid in alive then alive[uid] else 0
  }

  lemma OneAddress(ip: string, a: string)
    requires ComesFrom(ip, a)
    ensures DeviceIp(ip) == a
  {
    hide DeviceIp;
    var b := DeviceIp(ip);
    if ip == "::ffff:" + a {
      assert ("::ffff:" + a)[7..] == a;
    }
    if ip == "::ffff:" + b {
      assert ("::ffff:" + b)[7..] == b;
    }
  }

  /** A check is refused exactly for an unknown user or for a device over the limit that is neither tracked already, nor
      the user's first of the period at an address reported before; a refusal changes nothing. */
  lemma RejectedExactly(s: State, email: string, ip: string, a: string, now: int, noSSUDP: bool)
    requires Valid(s) && ComesFrom(ip, a)
    ensures var (t, v) := AfterCheck(s, email, ip, now, noSSUDP);
            && (v.Rejected? <==>
                  email in s.info ==>
                    && noSSUDP
                    && (email, a) !in Devices(s.online)
                    && s.info[email].deviceLimit > 0
                    && s.info[email].deviceLimit <= Counted(s.alive, s.info[email].uid)
                    && (email in s.online || a !in s.oldOnline))
            && (v.Rejected? ==> t == s)
  {
    hide BytesPerSecond; hide DetermineSpeedLimit; hide DeviceIp; hide ComesFrom;
    OneAddress(ip, a);
  }

  /** A check that is accepted and tracks devices adds the address it comes from to the tracked devices of its user, and
      nothing else; any other check adds nothing. */
  lemma CheckTracksExactly(s: State, email: string, ip: string, a: string, now: int, noSSUDP: bool)
    requires ComesFrom(ip, a)
    ensures var (t, v) := AfterCheck(s, email, ip, now, noSSUDP);
            Devices(t.online) == Devices(s.online) + if noSSUDP && v.Accepted? then {(email, a)} else {}
  {
    hide AfterCheck; hide Devices; hide ComesFrom; hide DeviceIp;
    OneAddress(ip, a);
    CheckTracksAccepted(s, email, ip, now, noSSUDP);
  }

  /** The IPv4-mapped form of an address is the same device. */
  lemma MappedAddressIsSameDevice(s: State, email: string, ip: string, now: int, noSSUDP: bool)
    requires !("::ffff:" <= ip)
    ensures AfterCheck(s, email, "::ffff:" + ip, now, noSSUDP) == AfterCheck(s, email, ip, now, noSSUDP)
  {
    hide DeviceIp;
    OneAddress("::ffff:" + ip, ip);
    OneAddress(ip, ip);
  }

  // ---- Runs ----

  datatype Event =
    | Check(email: string, ip: string, now: int, noSSUDP: bool)
    | Update(tag: string, added: seq<UserInfo>, deleted: seq<UserInfo>)
    | SetAlive(alive: map<int, int>)
    | Report(order: seq<(string, string)>)

  ghost predicate Allowed(s: State, ev: Event) {
    match ev
    case Check(_, _, _, _) => true
    case Update(tag, added, deleted) => Replaces(s, tag, added, deleted)
    case SetAlive(_) => true
    case Report(order) => Enumerates(order, Devices(s.online))
  }

  ghost function Step(s: State, ev: Event): State
    requires Allowed(s, ev)
  {
    match ev
    case Check(email, ip, now, noSSUDP) => AfterCheck(s, email, ip, now, noSSUDP).0
    case Update(tag, added, deleted) => AfterUpdate(s, tag, added, deleted)
    case SetAlive(alive) => s.(alive := alive)
    case Report(order) => AfterReport(s, order)
  }

  ghost predicate IsRun(states: seq<State>, events: seq<Event>) {
    && |states| == |events| + 1
    && forall i | 0 <= i < |events| :: Allowed(states[i], events[i]) && states[i + 1] == Step(states[i], events[i])
  }

  /** The address a check's text comes from. */
  ghost function Address(ip: string): (a: string)
    ensures ComesFrom(ip, a)
  {
    if "::ffff:" <= ip then ip[7..] else ip
  }

  /** The devices accepted since the last report, less those of users deleted meanwhile. */
  ghost function AcceptedSinceReport(states: seq<State>, events: seq<Event>): set<(string, string)>
    requires |states| == |events| + 1
  {
    if events == [] then {}
    else
      var n := |events| - 1;
      var before := AcceptedSinceReport(states[..n + 1], events[..n]);
      match events[n]
      case Check(email, ip, now, noSSUDP) =>
        if noSSUDP && AfterCheck(states[n], email, ip, now, noSSUDP).1.Accepted?
        then before + {(email, Address(ip))} else before
      case Update(tag, added, deleted) => set d | d in before && d.0 !in Emails(tag, deleted)
      case SetAlive(_) => before
      case Report(_) => {}
  }

  lemma CheckTracksAccepted(s: State, email: string, ip: string, now: int, noSSUDP: bool)
    ensures var (t, v) := AfterCheck(s, email, ip, now, noSSUDP);
            Devices(t.online) == Devices(s.online) + if noSSUDP && v.Accepted? then {(email, DeviceIp(ip))} else {}
  {
    hide BytesPerSecond; hide DetermineSpeedLimit; hide TrimPrefix; hide TurnsAway; hide OldAfterTracking;
    hide DeviceIp;
    hide OnlineAfterTracking; hide Devices;
    if email in s.info {
      DevicesAfterTracking(s, email, DeviceIp(ip), s.info[email].uid);
      var expired := s.(info := InfoAfterExpiry(s, email, now));
      SameTracking(s, expired, email, DeviceIp(ip), s.info[email].uid);
    }
  }

  lemma SameTracking(s: State, t: State, email: string, ip: string, uid: int)
    requires s.online == t.online
    ensures OnlineAfterTracking(s, email, ip, uid) == OnlineAfterTracking(t, email, ip, uid)
  {
  }

  lemma DevicesAfterTracking(s: State, email: string, ip: string, uid: int)
    ensures Devices(OnlineAfterTracking(s, email, ip, uid)) == Devices(s.online) + {(email, ip)}
  {
  }

  lemma StepKeepsValid(s: State, ev: Event)
    requires Valid(s) && Allowed(s, ev)
    ensures Valid(Step(s, ev))
  {
    match ev {
      case Check(email, ip, now, noSSUDP) => CheckKeepsValid(s, email, ip, now, noSSUDP);
      case Update(tag, added, deleted) => UpdateKeepsValid(s, tag, added, deleted);
      case SetAlive(alive) => hide BytesPerSecond; hide DetermineSpeedLimit;
      case Report(order) => ReportKeepsValid(s, order);
    }
  }

  lemma {:induction false} RunKeepsValid(states: seq<State>, events: seq<Event>)
    requires IsRun(states, events) && Valid(states[0])
    ensures forall i | 0 <= i < |states| :: Valid(states[i])
  {
    if events != [] {
      var n := |events| - 1;
      RunKeepsValid(states[..n + 1], events[..n]);
      assert Valid(states[..n + 1][n]);
      assert Allowed(states[n], events[n]) && states[n + 1] == Step(states[n], events[n]);
      StepKeepsValid(states[n], events[n]);
      forall i | 0 <= i < |states| ensures Valid(states[i]) {
        if i <= n {
          assert states[i] == states[..n + 1][i];
        }
      }
    }
  }

  /** In every run the tracked devices are exactly those accepted since the last report, less those of deleted users. */
  lemma {:induction false} TrackedIsAccepted(states: seq<State>, events: seq<Event>)
    requires IsRun(states, events) && states[0].online == map[]
    ensures Devices(states[|events|].online) == AcceptedSinceReport(states, events)
  {
    if events != [] {
      hide AfterCheck; hide Emails; hide OldAfterReport; hide Enumerates; hide Address; hide InfoOf; hide UidsOf;
      hide Uuids; hide Ids;
      var n := |events| - 1;
      TrackedIsAccepted(states[..n + 1], events[..n]);
      var s := states[n];
      assert states[..n + 1][n] == s;
      assert Allowed(s, events[n]) && states[n + 1] == Step(s, events[n]);
      if events[n].Check? {
        var ip := events[n].ip;
        CheckTracksExactly(s, events[n].email, ip, Address(ip), events[n].now, events[n].noSSUDP);
      }
    }
  }

  /** Exactly-once reporting: a report that ends a run names each device accepted since the previous report once, under
      the user's current id, and nothing else. */
  lemma OnlineExactlyOnce(states: seq<State>, events: seq<Event>, order: seq<(string, string)>, report: seq<OnlineUser>)
    requires IsRun(states, events) && Valid(states[0]) && states[0].online == map[]
    requires Enumerates(order, Devices(states[|events|].online)) && Reports(states[|events|], order, report)
    ensures Enumerates(order, AcceptedSinceReport(states, events))
    ensures |report| == |order|
    ensures forall i | 0 <= i < |report| ::
              && order[i].0 in states[|events|].info
              && report[i] == OnlineUser(states[|events|].info[order[i].0].uid, order[i].1)
  {
    hide AcceptedSinceReport;
    TrackedIsAccepted(states, events);
    RunKeepsValid(states, events);
    assert Valid(states[|events|]);
  }

  /** When no two users share an id, no line of a report occurs twice. */
  lemma ReportLinesDistinct(s: State, order: seq<(string, string)>, report: seq<OnlineUser>)
    requires Valid(s) && Enumerates(order, Devices(s.online)) && Reports(s, order, report)
    requires forall e, f | e in s.info && f in s.info && s.info[e].uid == s.info[f].uid :: e == f
    ensures forall i, j | 0 <= i < j < |report| :: report[i] != report[j]
  {
    hide FreshRate;
    forall i, j | 0 <= i < j < |report| ensures report[i] != report[j] {
      assert order[i] in Devices(s.online) && order[j] in Devices(s.online);
    }
  }

  // ---- What is stored for a user ----

  /** The users of a new limiter, and those an update adds, have their own id and limits; nothing expires. */
  lemma LimitsStored(s: State, tag: string, added: seq<UserInfo>, deleted: seq<UserInfo>, alive: map<int, int>)
    requires forall u, v | u in added && v in added && u.uuid == v.uuid :: u == v
    ensures forall u | u in added ::
              var email := UserTag(tag, u.uuid);
              var stored := LimitInfo(u.id, u.speedLimit, u.deviceLimit, 0, 0, false);
              && email in NewState(tag, added, alive).info && NewState(tag, added, alive).info[email] == stored
              && email in AfterUpdate(s, tag, added, deleted).info
              && AfterUpdate(s, tag, added, deleted).info[email] == stored
  {
    hide UserTag;
    InfoOfListed(tag, added);
  }

  lemma {:induction false} InfoOfListed(tag: string, users: seq<UserInfo>)
    requires forall u, v | u in users && v in users && u.uuid == v.uuid :: u == v
    ensures forall u | u in users ::
              && UserTag(tag, u.uuid) in InfoOf(tag, users)
              && InfoOf(tag, users)[UserTag(tag, u.uuid)] ==
                 LimitInfo(u.id, u.speedLimit, u.deviceLimit, 0, 0, false)
  {
    if users != [] {
      var most, last := users[..|users| - 1], users[|users| - 1];
      InfoOfListed(tag, most);
      forall u | u in users && UserTag(tag, u.uuid) == UserTag(tag, last.uuid) ensures u == last {
        SameTagSameUuid(tag, u.uuid, last.uuid);
      }
      assert users == most + [last];
    }
  }

  lemma SameTagSameUuid(tag: string, u: string, v: string)
    requires UserTag(tag, u) == UserTag(tag, v)
    ensures u == v
  {
    assert UserTag(tag, u)[|tag| + 1..] == u && UserTag(tag, v)[|tag| + 1..] == v;
  }

  lemma StepKeepsNodeLimit(s: State, ev: Event)
    requires Allowed(s, ev)
    ensures Step(s, ev).nodeLimit == s.nodeLimit
  {
    hide BytesPerSecond; hide DetermineSpeedLimit; hide TurnsAway; hide OnlineAfterTracking; hide OldAfterTracking;
    hide DeviceIp; hide InfoAfterExpiry; hide OldAfterReport; hide Emails; hide Uuids; hide Ids; hide InfoOf;
    hide UidsOf;
    hide Enumerates; hide Rate; hide UserLimit;
  }

  lemma {:induction false} RunKeepsNodeLimit(states: seq<State>, events: seq<Event>, i: nat)
    requires IsRun(states, events) && i <= |events|
    ensures states[i].nodeLimit == states[0].nodeLimit
  {
    if i > 0 {
      RunKeepsNodeLimit(states, events, i - 1);
      StepKeepsNodeLimit(states[i - 1], events[i - 1]);
    }
  }

  /** Nodes have no limit of their own: in every run from a new limiter an accepted user without a speed limit gets no
      bucket, and one with a limit of so many megabits gets that many times 125000 bytes a second. */
  lemma RateIsOwnLimit(tag: string, users: seq<UserInfo>, alive: map<int, int>, states: seq<State>,
                       events: seq<Event>, i: nat)
    requires IsRun(states, events) && states[0] == NewState(tag, users, alive) && i < |events| && events[i].Check?
    ensures var ev := events[i];
            var v := AfterCheck(states[i], ev.email, ev.ip, ev.now, ev.noSSUDP).1;
            v.Accepted? ==>
              && ev.email in states[i].info
              && var own := states[i].info[ev.email].speedLimit;
                 && (own == 0 ==> v.bucket == None)
                 && (0 < own <= MAX_LIMIT ==> v.bucket.Some? && v.bucket.value.rate == 125000 * own)
  {
    NewStateValid(tag, users, alive);
    RunKeepsValid(states, events);
    RunKeepsNodeLimit(states, events, i);
    hide Valid; hide AfterCheck; hide BytesPerSecond;
    var ev := events[i];
    CheckGivesFreshRate(states[i], ev.email, ev.ip, ev.now, ev.noSSUDP);
    if ev.email in states[i].info && 0 <= states[i].info[ev.email].speedLimit <= MAX_LIMIT {
      BytesPerSecondExact(states[i].info[ev.email].speedLimit);
    }
  }

  // ---- Addresses of earlier periods ----

  /** A report moves the addresses of all tracked devices to the old ones, each under the id of one of its users. */
  lemma ReportKeepsAddresses(s: State, order: seq<(string, string)>)
    requires Enumerates(order, Devices(s.online))
    ensures var t := AfterReport(s, order);
            && t.online == map[]
            && (forall a :: a in t.oldOnline <==> a in s.oldOnline || exists e :: (e, a) in Devices(s.online))
            && (forall a | a in t.oldOnline ::
                  || (a in s.oldOnline && t.oldOnline[a] == s.oldOnline[a] && forall e :: (e, a) !in Devices(s.online))
                  || exists e :: (e, a) in Devices(s.online) && t.oldOnline[a] == s.online[e][a])
  {
    OldKeepsAddresses(s, order);
    hide OldAfterReport;
  }

  lemma {:induction false} OldKeepsAddresses(s: State, order: seq<(string, string)>)
    ensures var old' := OldAfterReport(s, order);
            && (forall a :: a in old' <==>
                  a in s.oldOnline || exists e :: (e, a) in order && (e, a) in Devices(s.online))
            && (forall a | a in old' ::
                  || (a in s.oldOnline && old'[a] == s.oldOnline[a] &&
                      forall e | (e, a) in order :: (e, a) !in Devices(s.online))
                  || exists e :: (e, a) in order && (e, a) in Devices(s.online) && old'[a] == s.online[e][a])
  {
    if order != [] {
      hide Devices;
      var most, last := order[..|order| - 1], order[|order| - 1];
      OldKeepsAddresses(s, most);
      assert order == most + [last];
      assert forall e, a :: (e, a) in order <==> (e, a) in most || (e, a) == last;
    }
  }

  /** A user's first device of a period uses up the old entry of its address if that is under the user's id; nothing
      else a check does changes the old addresses. */
  lemma CheckUsesAddressExactly(s: State, email: string, ip: string, a: string, now: int, noSSUDP: bool)
    requires ComesFrom(ip, a)
    ensures AfterCheck(s, email, ip, now, noSSUDP).0.oldOnline ==
            if noSSUDP && email in s.info && email !in s.online && a in s.oldOnline &&
               s.oldOnline[a] == s.info[email].uid
            then s.oldOnline - {a} else s.oldOnline
  {
    hide BytesPerSecond; hide DetermineSpeedLimit; hide DeviceIp; hide ComesFrom;
    OneAddress(ip, a);
  }

  /** Limits expire when their time has passed: the user's own limit stays and counts from now on, and a user without
      one is dropped but let in a last time, unless the device is turned away. Before that nothing stored changes, and
      the lower of the user's own and the temporary limit counts. */
  lemma ExpiryExactly(s: State, email: string, ip: string, now: int, noSSUDP: bool)
    requires email in s.info
    ensures var (t, v) := AfterCheck(s, email, ip, now, noSSUDP);
            var u := s.info[email];
            var passed := u.expireTime != 0 && now > u.expireTime;
            && t.info == (if !passed then s.info
                          else if u.speedLimit != 0 then s.info[email := u.(dynamicSpeedLimit := 0, expireTime := 0)]
                          else s.info - {email})
            && (v.Accepted? && email !in s.buckets && v.bucket.Some? ==>
                  v.bucket.value.rate ==
                    BytesPerSecond(DetermineSpeedLimit(s.nodeLimit,
                                     if passed then u.speedLimit
                                     else DetermineSpeedLimit(u.speedLimit, u.dynamicSpeedLimit))))
  {
    hide BytesPerSecond; hide DetermineSpeedLimit; hide TurnsAway; hide OnlineAfterTracking; hide OldAfterTracking;
    hide DeviceIp;
  }

  // ---- The panel's alive list ----

  /** The panel client answers every query for alive devices with an empty map. */
  ghost predicate NoneAlive(ev: Event) {
    ev.SetAlive? ==> ev.alive == map[]
  }

  lemma StepKeepsNoneAlive(s: State, ev: Event)
    requires s.alive == map[] && Allowed(s, ev) && NoneAlive(ev)
    ensures Step(s, ev).alive == map[]
  {
    hide BytesPerSecond; hide DetermineSpeedLimit; hide TurnsAway; hide OnlineAfterTracking; hide OldAfterTracking;
    hide DeviceIp;
  }

  lemma {:induction false} RunKeepsNoneAlive(states: seq<State>, events: seq<Event>, i: nat)
    requires IsRun(states, events) && states[0].alive == map[] && i <= |events|
    requires forall j | 0 <= j < |events| :: NoneAlive(events[j])
    ensures states[i].alive == map[]
  {
    if i > 0 {
      RunKeepsNoneAlive(states, events, i - 1);
      StepKeepsNoneAlive(states[i - 1], events[i - 1]);
    }
  }

  /** With such answers no device limit ever takes effect: in every run a check is refused only for an unknown user. */
  lemma DeviceLimitNeverApplies(states: seq<State>, events: seq<Event>, i: nat)
    requires IsRun(states, events) && Valid(states[0]) && states[0].alive == map[]
    requires forall j | 0 <= j < |events| :: NoneAlive(events[j])
    requires i < |events| && events[i].Check?
    ensures var ev := events[i];
            AfterCheck(states[i], ev.email, ev.ip, ev.now, ev.noSSUDP).1.Rejected? <==> ev.email !in states[i].info
  {
    RunKeepsValid(states, events);
    RunKeepsNoneAlive(states, events, i);
    hide Valid; hide AfterCheck; hide DeviceIp; hide Devices;
    var ev := events[i];
    RejectedExactly(states[i], ev.email, ev.ip, Address(ev.ip), ev.now, ev.noSSUDP);
  }
}
