/** The per-node limiter (limiter/limiter.go, limiter/dynamic.go): user limits, cached speed buckets and the device
    tracker. Each operation is one atomic step. */
module Limiter {
  import opened Optional
  import opened Text
  import opened Panel

  // ---- Rates ----

  /** The effective limit of two, where zero means unlimited. */
  function DetermineSpeedLimit(limit1: int, limit2: int): int {
    if limit1 == 0 || limit2 == 0 then
      if limit1 > limit2 then limit1 else if limit1 < limit2 then limit2 else 0
    else
      if limit1 > limit2 then limit2 else limit1
  }

  ghost predicate IsMinNonZero(limit1: int, limit2: int, r: int) {
    && (r == 0 <==> limit1 == 0 && limit2 == 0)
    && (r != 0 ==> r == limit1 || r == limit2)
    && (limit1 != 0 ==> r <= limit1)
    && (limit2 != 0 ==> r <= limit2)
  }

  /** The documented minimum of the non-zero limits is what is computed, unless one limit is negative and the other is
      zero: then the negative one is ignored. */
  lemma MinNonZeroExactly(limit1: int, limit2: int)
    ensures IsMinNonZero(limit1, limit2, DetermineSpeedLimit(limit1, limit2))
            <==> !(limit1 < 0 == limit2 || limit2 < 0 == limit1)
  {
    if limit1 < 0 == limit2 || limit2 < 0 == limit1 {
      assert DetermineSpeedLimit(limit1, limit2) == 0;
    }
  }

  const TWO_63: int := 0x8000_0000_0000_0000
  const TWO_60: int := 0x1000_0000_0000_0000
  const TWO_64: int := 0x1_0000_0000_0000_0000

  function Wrap64(x: int): int {
    (x + TWO_63) % TWO_64 - TWO_63
  }

  /** Bytes per second of a limit in megabits: a 64-bit product, then division by eight truncated toward zero. */
  function BytesPerSecond(limit: int): int {
    var bits := Wrap64(limit * 1000000);
    if bits >= 0 then bits / 8 else -(-bits / 8)
  }

  /** Largest limit whose product does not leave 64 bits. */
  const MAX_LIMIT: int := 9_223_372_036_854

  lemma BytesPerSecondExact(limit: int)
    requires -MAX_LIMIT <= limit <= MAX_LIMIT
    ensures BytesPerSecond(limit) == 125000 * limit
  {
    assert -TWO_63 <= limit * 1000000 < TWO_63;
    assert (limit * 1000000 + TWO_63) % TWO_64 == limit * 1000000 + TWO_63;
  }

  /** The rate is right exactly for limits whose product fits; beyond them it has nothing to do with the limit. */
  lemma BytesPerSecondExactly(limit: int)
    ensures BytesPerSecond(limit) == 125000 * limit <==> -MAX_LIMIT <= limit <= MAX_LIMIT
  {
    if -MAX_LIMIT <= limit <= MAX_LIMIT {
      BytesPerSecondExact(limit);
    } else {
      BytesPerSecondBounded(limit);
    }
  }

  lemma BytesPerSecondBounded(limit: int)
    ensures -TWO_60 <= BytesPerSecond(limit) < TWO_60
  {
    hide Wrap64;
    WrapBounded(limit * 1000000);
  }

  lemma WrapBounded(x: int)
    ensures -TWO_63 <= Wrap64(x) < TWO_63
  {
  }

  /** One past the largest limit, the product wraps around and the user is no longer limited. */
  lemma BytesPerSecondWraps()
    ensures BytesPerSecond(MAX_LIMIT + 1) < 0
  {
  }

  // ---- State ----

  datatype LimitInfo = LimitInfo(uid: int, speedLimit: int, deviceLimit: int, dynamicSpeedLimit: int, expireTime: int,
                                 overLimit: bool)

  /** A rate bucket; the serial number tells two buckets of one rate apart. */
  datatype Bucket = Bucket(serial: nat, rate: int)

  type Online = map<string, map<string, int>>

  datatype State = State(
    nodeLimit: int,
    online: Online,
    oldOnline: map<string, int>,
    uuidToUid: map<string, int>,
    info: map<string, LimitInfo>,
    buckets: map<string, Bucket>,
    alive: map<int, int>,
    nextSerial: nat
  )

  datatype Verdict = Rejected | Accepted(bucket: Option<Bucket>)

  function InfoOfUser(u: UserInfo): LimitInfo {
    LimitInfo(u.id, u.speedLimit, u.deviceLimit, 0, 0, false)
  }

  /** Limits of a list of users; of users with one uuid the last counts. */
  function InfoOf(tag: string, users: seq<UserInfo>): map<string, LimitInfo> {
    if users == [] then map[]
    else InfoOf(tag, users[..|users| - 1])[UserTag(tag, users[|users| - 1].uuid) := InfoOfUser(users[|users| - 1])]
  }

  function UidsOf(users: seq<UserInfo>): map<string, int> {
    if users == [] then map[]
    else UidsOf(users[..|users| - 1])[users[|users| - 1].uuid := users[|users| - 1].id]
  }

  function NewState(tag: string, users: seq<UserInfo>, alive: map<int, int>): State {
    State(0, map[], map[], UidsOf(users), InfoOf(tag, users), map[], alive, 0)
  }

  // ---- UpdateUser ----

  ghost function AfterDelete(s: State, tag: string, deleted: seq<UserInfo>): State {
    var emails := Emails(tag, deleted);
    s.(info := s.info - emails, online := s.online - emails, buckets := s.buckets - emails,
       uuidToUid := s.uuidToUid - Uuids(deleted),
       alive := s.alive - Ids(deleted))
  }

  function AfterAdd(s: State, tag: string, added: seq<UserInfo>): State {
    s.(info := s.info + InfoOf(tag, added), uuidToUid := s.uuidToUid + UidsOf(added))
  }

  ghost function AfterUpdate(s: State, tag: string, added: seq<UserInfo>, deleted: seq<UserInfo>): State {
    AfterAdd(AfterDelete(s, tag, deleted), tag, added)
  }

  // ---- CheckLimit ----

  const MAPPED_PREFIX := "::ffff:"

  /** The address a connection comes from: the whole text, or what follows the prefix of the IPv4-mapped form. */
  ghost predicate ComesFrom(ip: string, address: string) {
    ip == "::ffff:" + address || (ip == address && !("::ffff:" <= ip))
  }

  function DeviceIp(ip: string): (address: string)
    ensures ComesFrom(ip, address)
  {
    TrimPrefix(ip, MAPPED_PREFIX)
  }

  function AliveCount(s: State, uid: int): int {
    if uid in s.alive then s.alive[uid] else 0
  }

  predicate Expired(u: LimitInfo, now: int) {
    u.expireTime < now && u.expireTime != 0
  }

  function InfoAfterExpiry(s: State, email: string, now: int): map<string, LimitInfo>
    requires email in s.info
  {
    var u := s.info[email];
    if !Expired(u, now) then s.info
    else if u.speedLimit != 0 then s.info[email := u.(dynamicSpeedLimit := 0, expireTime := 0)]
    else s.info - {email}
  }

  function UserLimit(u: LimitInfo, now: int): int {
    if Expired(u, now) then u.speedLimit else DetermineSpeedLimit(u.speedLimit, u.dynamicSpeedLimit)
  }

  /** The device limit of the user is used up by devices the panel counts as alive. */
  predicate DevicesUsedUp(s: State, u: LimitInfo) {
    0 < u.deviceLimit <= AliveCount(s, u.uid)
  }

  /** Whether the tracker turns a device away: it is new, the limit is used up, and it is neither the user's first
      device of the period nor an address reported in an earlier period. */
  predicate TurnsAway(s: State, email: string, ip: string, u: LimitInfo) {
    && !(email in s.online && ip in s.online[email])
    && DevicesUsedUp(s, u)
    && (email in s.online || ip !in s.oldOnline)
  }

  function OnlineAfterTracking(s: State, email: string, ip: string, uid: int): Online {
    if email !in s.online then s.online[email := map[ip := uid]]
    else if ip in s.online[email] then s.online
    else s.online[email := s.online[email][ip := uid]]
  }

  function OldAfterTracking(s: State, email: string, ip: string, uid: int): map<string, int> {
    if email !in s.online && ip in s.oldOnline && s.oldOnline[ip] == uid then s.oldOnline - {ip} else s.oldOnline
  }

  function Rate(s: State, userLimit: int): int {
    BytesPerSecond(DetermineSpeedLimit(s.nodeLimit, userLimit))
  }

  function AfterCheck(s: State, email: string, ip: string, now: int, noSSUDP: bool): (State, Verdict) {
    if email !in s.info then (s, Rejected)
    else
      var u := s.info[email];
      var expired := s.(info := InfoAfterExpiry(s, email, now));
      if noSSUDP && TurnsAway(expired, email, DeviceIp(ip), u) then (expired, Rejected)
      else
        var tracked := if !noSSUDP then expired else expired.(
                         online := OnlineAfterTracking(expired, email, DeviceIp(ip), u.uid),
                         oldOnline := OldAfterTracking(expired, email, DeviceIp(ip), u.uid));
        var rate := Rate(s, UserLimit(u, now));
        if rate <= 0 then (tracked, Accepted(None))
        else if email in s.buckets then (tracked.(nextSerial := s.nextSerial + 1), Accepted(Some(s.buckets[email])))
        else
          var b := Bucket(s.nextSerial, rate);
          (tracked.(buckets := s.buckets[email := b], nextSerial := s.nextSerial + 1), Accepted(Some(b)))
  }

  // ---- GetOnlineDevice ----

  ghost function Devices(online: Online): set<(string, string)> {
    set email, ip | email in online && ip in online[email] :: (email, ip)
  }

  ghost function DevicesOf(online: Online, emails: set<string>): set<(string, string)> {
    set email, ip | email in online && ip in online[email] && email in emails :: (email, ip)
  }

  /** An order in which every tracked device is visited once. */
  ghost predicate Enumerates(order: seq<(string, string)>, devices: set<(string, string)>) {
    && (forall i, j | 0 <= i < j < |order| :: order[i] != order[j])
    && (forall d :: d in order <==> d in devices)
  }

  /** The old-online map after storing the devices of an order; of devices with one address the last user stays. */
  ghost function OldAfterReport(s: State, order: seq<(string, string)>): map<string, int> {
    if order == [] then s.oldOnline
    else
      var (email, ip) := order[|order| - 1];
      var before := OldAfterReport(s, order[..|order| - 1]);
      if (email, ip) in Devices(s.online) then before[ip := s.online[email][ip]] else before
  }

  ghost function AfterReport(s: State, order: seq<(string, string)>): State
    requires Enumerates(order, Devices(s.online))
  {
    s.(online := map[], oldOnline := OldAfterReport(s, order))
  }

  /** The report names the stored user and the address of each device of the order. */
  ghost predicate Reports(s: State, order: seq<(string, string)>, report: seq<OnlineUser>) {
    && |report| == |order|
    && forall i | 0 <= i < |order| ::
         && order[i] in Devices(s.online)
         && report[i] == OnlineUser(s.online[order[i].0][order[i].1], order[i].1)
  }

  // ---- The limiter object ----

  class Limiter {
    var speedLimit: int
    var userOnlineIP: Online
    var oldUserOnline: map<string, int>
    var uuidToUid: map<string, int>
    var userLimitInfo: map<string, LimitInfo>
    var speedLimiter: map<string, Bucket>
    var aliveList: map<int, int>
    var bucketCount: nat

    ghost function View(): State
      reads this
    {
      State(speedLimit, userOnlineIP, oldUserOnline, uuidToUid, userLimitInfo, speedLimiter, aliveList, bucketCount)
    }

    constructor (tag: string, users: seq<UserInfo>, aliveMap: map<int, int>)
      ensures View() == NewState(tag, users, aliveMap)
    {
      speedLimit, aliveList, bucketCount := 0, aliveMap, 0;
      userOnlineIP, oldUserOnline, speedLimiter := map[], map[], map[];
      uuidToUid, userLimitInfo := map[], map[];
      new;
      for i := 0 to |users|
        invariant View() == NewState(tag, users[..i], aliveMap)
      {
        assert users[..i + 1][..i] == users[..i];
        uuidToUid := uuidToUid[users[i].uuid := users[i].id];
        userLimitInfo := userLimitInfo[UserTag(tag, users[i].uuid) := InfoOfUser(users[i])];
      }
      assert users[..|users|] == users;
    }

    method UpdateUser(tag: string, added: seq<UserInfo>, deleted: seq<UserInfo>)
      modifies this
      ensures View() == AfterUpdate(old(View()), tag, added, deleted)
    {
      hide UserTag; hide AfterDelete; hide AfterAdd;
      DeleteUsers(tag, deleted);
      ghost var mid := View();
      AfterAddNone(mid, tag);
      for i := 0 to |added|
        invariant View() == AfterAdd(mid, tag, added[..i])
      {
        AfterAddSnoc(mid, tag, added[..i], added[i]);
        assert added[..i + 1] == added[..i] + [added[i]];
        userLimitInfo := userLimitInfo[UserTag(tag, added[i].uuid) := InfoOfUser(added[i])];
        uuidToUid := uuidToUid[added[i].uuid := added[i].id];
      }
      assert added[..|added|] == added;
    }

    /** The first loop of UpdateUser. */
    method DeleteUsers(tag: string, deleted: seq<UserInfo>)
      modifies this
      ensures View() == AfterDelete(old(View()), tag, deleted)
    {
      hide UserTag; hide AfterDelete;
      AfterDeleteNone(View(), tag);
      for i := 0 to |deleted|
        invariant View() == AfterDelete(old(View()), tag, deleted[..i])
      {
        var u := deleted[i];
        AfterDeleteSnoc(old(View()), tag, deleted[..i], u);
        assert deleted[..i + 1] == deleted[..i] + [u];
        userLimitInfo := userLimitInfo - {UserTag(tag, u.uuid)};
        userOnlineIP := userOnlineIP - {UserTag(tag, u.uuid)};
        speedLimiter := speedLimiter - {UserTag(tag, u.uuid)};
        uuidToUid := uuidToUid - {u.uuid};
        aliveList := aliveList - {u.id};
      }
      assert deleted[..|deleted|] == deleted;
    }

    method CheckLimit(email: string, address: string, now: int, noSSUDP: bool) returns (verdict: Verdict)
      modifies this
      ensures (View(), verdict) == AfterCheck(old(View()), email, address, now, noSSUDP)
    {
      hide BytesPerSecond; hide DetermineSpeedLimit; hide TrimPrefix; hide TurnsAway; hide OnlineAfterTracking;
      hide OldAfterTracking;
      var ip := TrimPrefix(address, MAPPED_PREFIX);
      if email !in userLimitInfo {
        return Rejected;
      }
      var u := userLimitInfo[email];
      var userLimit := 0;
      if u.expireTime < now && u.expireTime != 0 {
        if u.speedLimit != 0 {
          userLimit := u.speedLimit;
          userLimitInfo := userLimitInfo[email := u.(dynamicSpeedLimit := 0, expireTime := 0)];
        } else {
          userLimitInfo := userLimitInfo - {email};
        }
      } else {
        userLimit := DetermineSpeedLimit(u.speedLimit, u.dynamicSpeedLimit);
      }
      if noSSUDP {
        var turnedAway := TrackDevice(email, ip, u);
        if turnedAway {
          return Rejected;
        }
      }
      var limit := BytesPerSecond(DetermineSpeedLimit(speedLimit, userLimit));
      if limit > 0 {
        var bucket := Bucket(bucketCount, limit);
        bucketCount := bucketCount + 1;
        if email in speedLimiter {
          return Accepted(Some(speedLimiter[email]));
        }
        speedLimiter := speedLimiter[email := bucket];
        return Accepted(Some(bucket));
      }
      return Accepted(None);
    }

    /** The device-tracking part of CheckLimit: the address is stored first and taken back when it is turned away. */
    method TrackDevice(email: string, ip: string, u: LimitInfo) returns (turnedAway: bool)
      modifies this`userOnlineIP, this`oldUserOnline
      ensures turnedAway <==> TurnsAway(old(View()), email, ip, u)
      ensures userOnlineIP == if turnedAway then old(userOnlineIP)
              else OnlineAfterTracking(old(View()), email, ip, u.uid)
      ensures oldUserOnline == if turnedAway then old(oldUserOnline)
              else OldAfterTracking(old(View()), email, ip, u.uid)
    {
      var aliveIp := if u.uid in aliveList then aliveList[u.uid] else 0;
      if email in userOnlineIP {
        if ip !in userOnlineIP[email] {
          userOnlineIP := userOnlineIP[email := userOnlineIP[email][ip := u.uid]];
          if u.deviceLimit > 0 && u.deviceLimit <= aliveIp {
            userOnlineIP := userOnlineIP[email := userOnlineIP[email] - {ip}];
            assert userOnlineIP[email] == old(userOnlineIP)[email];
            return true;
          }
        }
      } else {
        userOnlineIP := userOnlineIP[email := map[ip := u.uid]];
        if ip in oldUserOnline {
          if oldUserOnline[ip] == u.uid {
            oldUserOnline := oldUserOnline - {ip};
          }
        } else if u.deviceLimit > 0 && u.deviceLimit <= aliveIp {
          userOnlineIP := userOnlineIP - {email};
          return true;
        }
      }
      return false;
    }

    /** Users and their addresses are visited in arbitrary order; `order` records it. */
    method GetOnlineDevice() returns (report: seq<OnlineUser>, ghost order: seq<(string, string)>)
      modifies this`userOnlineIP, this`oldUserOnline
      ensures Enumerates(order, Devices(old(View()).online))
      ensures View() == AfterReport(old(View()), order)
      ensures Reports(old(View()), order, report)
    {
      hide OldAfterReport; hide Reports; hide Devices; hide DevicesOf; hide Enumerates;
      ghost var before := View();
      DevicesOfAll(before.online);
      report, order := ReportAll(before);
    }

    method ReportAll(ghost before: State) returns (report: seq<OnlineUser>, ghost order: seq<(string, string)>)
      requires userOnlineIP == before.online && oldUserOnline == before.oldOnline
      modifies this`userOnlineIP, this`oldUserOnline
      ensures userOnlineIP == map[] && oldUserOnline == OldAfterReport(before, order)
      ensures Enumerates(order, DevicesOf(before.online, before.online.Keys)) && Reports(before, order, report)
    {
      hide OldAfterReport; hide Reports; hide Devices; hide DevicesOf; hide Enumerates;
      report, order := [], [];
      NothingReported(before);
      ghost var visited := {};
      while userOnlineIP.Keys != {}
        invariant userOnlineIP == before.online - visited && visited <= before.online.Keys
        invariant Enumerates(order, DevicesOf(before.online, visited))
        invariant Reports(before, order, report)
        invariant oldUserOnline == OldAfterReport(before, order)
        decreases |userOnlineIP.Keys|
      {
        var email :| email in userOnlineIP.Keys;
        report, order := ForgetUser(email, before, visited, order, report);
        visited := visited + {email};
      }
      assert visited == before.online.Keys && userOnlineIP == map[];
    }

    /** The visit of one user, whose addresses are then reset. */
    method ForgetUser(email: string, ghost before: State, ghost visited: set<string>,
                      ghost order0: seq<(string, string)>,
                      report0: seq<OnlineUser>)
      returns (report: seq<OnlineUser>, ghost order: seq<(string, string)>)
      requires userOnlineIP == before.online - visited && email in userOnlineIP
      requires Enumerates(order0, DevicesOf(before.online, visited)) && Reports(before, order0, report0)
      requires oldUserOnline == OldAfterReport(before, order0)
      modifies this`userOnlineIP, this`oldUserOnline
      ensures userOnlineIP == before.online - (visited + {email}) &&
              userOnlineIP.Keys == old(userOnlineIP.Keys) - {email}
      ensures Enumerates(order, DevicesOf(before.online, visited + {email})) && Reports(before, order, report)
      ensures oldUserOnline == OldAfterReport(before, order)
    {
      hide OldAfterReport; hide Reports; hide Devices; hide DevicesOf; hide Enumerates;
      MinusSnoc(before.online, visited, email);
      report, order := ReportUser(email, before, visited, order0, report0);
      userOnlineIP := userOnlineIP - {email};
    }

    /** The inner loop over the addresses of one user. */
    method ReportUser(email: string, ghost before: State, ghost visited: set<string>,
                      ghost order0: seq<(string, string)>,
                      report0: seq<OnlineUser>)
      returns (report: seq<OnlineUser>, ghost order: seq<(string, string)>)
      requires email in userOnlineIP && email in before.online && userOnlineIP[email] == before.online[email]
      requires email !in visited && Enumerates(order0, DevicesOf(before.online, visited))
      requires Reports(before, order0, report0)
      requires oldUserOnline == OldAfterReport(before, order0)
      modifies this`oldUserOnline
      ensures Enumerates(order, DevicesOf(before.online, visited + {email}))
      ensures Reports(before, order, report)
      ensures oldUserOnline == OldAfterReport(before, order)
    {
      hide OldAfterReport; hide DevicesOf; hide Reports; hide Devices; hide Enumerates;
      report, order := report0, order0;
      var ips := userOnlineIP[email];
      var left := ips.Keys;
      ghost var seen := {};
      OneUserStart(before.online, visited, email);
      while left != {}
        invariant left + seen == ips.Keys && left !! seen
        invariant Enumerates(order, DevicesOf(before.online, visited) + OneUser(email, seen))
        invariant Reports(before, order, report)
        invariant oldUserOnline == OldAfterReport(before, order)
        decreases |left|
      {
        var ip :| ip in left;
        var uid := ips[ip];
        ReportOne(before, visited, email, seen, ip, order, report);
        oldUserOnline := oldUserOnline[ip := uid];
        report, order := report + [OnlineUser(uid, ip)], order + [(email, ip)];
        left, seen := left - {ip}, seen + {ip};
      }
      assert seen == ips.Keys;
    }
  }

  ghost function OneUser(email: string, ips: set<string>): set<(string, string)> {
    set ip | ip in ips :: (email, ip)
  }

  lemma OneUserStart(online: Online, visited: set<string>, email: string)
    requires email in online
    ensures DevicesOf(online, visited) + OneUser(email, {}) == DevicesOf(online, visited)
    ensures DevicesOf(online, visited) + OneUser(email, online[email].Keys) == DevicesOf(online, visited + {email})
  {
  }

  /** One step of the inner loop: the device is new to the order, and the order, the report and the old-online map grow
      by it. */
  lemma ReportOne(s: State, visited: set<string>, email: string, ips: set<string>, ip: string,
                  order: seq<(string, string)>, report: seq<OnlineUser>)
    requires email in s.online && email !in visited && ip in s.online[email] && ip !in ips
    requires Enumerates(order, DevicesOf(s.online, visited) + OneUser(email, ips))
    requires Reports(s, order, report)
    ensures Enumerates(order + [(email, ip)], DevicesOf(s.online, visited) + OneUser(email, ips + {ip}))
    ensures Reports(s, order + [(email, ip)], report + [OnlineUser(s.online[email][ip], ip)])
    ensures OldAfterReport(s, order + [(email, ip)]) == OldAfterReport(s, order)[ip := s.online[email][ip]]
  {
    assert (email, ip) !in DevicesOf(s.online, visited) + OneUser(email, ips);
    assert (order + [(email, ip)])[..|order|] == order;
    assert (email, ip) in Devices(s.online);
    assert OneUser(email, ips + {ip}) == OneUser(email, ips) + {(email, ip)};
  }

  lemma MinusSnoc<K, V>(m: map<K, V>, keys: set<K>, k: K)
    ensures m - (keys + {k}) == m - keys - {k}
  {
  }

  lemma AfterDeleteSnoc(s: State, tag: string, deleted: seq<UserInfo>, u: UserInfo)
    ensures var d, e := AfterDelete(s, tag, deleted), UserTag(tag, u.uuid);
            AfterDelete(s, tag, deleted + [u]) ==
            d.(info := d.info - {e}, online := d.online - {e}, buckets := d.buckets - {e},
               uuidToUid := d.uuidToUid - {u.uuid}, alive := d.alive - {u.id})
  {
    hide UserTag; hide Emails; hide Uuids; hide Ids;
    SetsSnoc(tag, deleted, u);
    MinusSnoc(s.info, Emails(tag, deleted), UserTag(tag, u.uuid));
    MinusSnoc(s.online, Emails(tag, deleted), UserTag(tag, u.uuid));
    MinusSnoc(s.buckets, Emails(tag, deleted), UserTag(tag, u.uuid));
    MinusSnoc(s.uuidToUid, Uuids(deleted), u.uuid);
    MinusSnoc(s.alive, Ids(deleted), u.id);
  }

  lemma NothingReported(s: State)
    ensures OldAfterReport(s, []) == s.oldOnline && Reports(s, [], []) && Enumerates([], DevicesOf(s.online, {}))
    ensures s.online - {} == s.online
  {
  }

  lemma AfterAddSnoc(s: State, tag: string, added: seq<UserInfo>, u: UserInfo)
    ensures var a := AfterAdd(s, tag, added);
            AfterAdd(s, tag, added + [u]) ==
            a.(info := a.info[UserTag(tag, u.uuid) := InfoOfUser(u)], uuidToUid := a.uuidToUid[u.uuid := u.id])
  {
    hide UserTag;
    assert (added + [u])[..|added|] == added;
    PlusSnoc(s.info, InfoOf(tag, added), UserTag(tag, u.uuid), InfoOfUser(u));
    PlusSnoc(s.uuidToUid, UidsOf(added), u.uuid, u.id);
  }

  lemma PlusSnoc<K, V>(m: map<K, V>, n: map<K, V>, k: K, v: V)
    ensures m + n[k := v] == (m + n)[k := v]
  {
  }

  lemma AfterAddNone(s: State, tag: string)
    ensures AfterAdd(s, tag, []) == s
  {
    assert s.info + map[] == s.info && s.uuidToUid + map[] == s.uuidToUid;
  }

  lemma AfterDeleteNone(s: State, tag: string)
    ensures AfterDelete(s, tag, []) == s
  {
    assert Emails(tag, []) == {} && Uuids([]) == {} && Ids([]) == {};
  }

  lemma DevicesOfAll(online: Online)
    ensures DevicesOf(online, online.Keys) == Devices(online)
  {
  }
}
