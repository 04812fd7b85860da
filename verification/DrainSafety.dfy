/** The registry and the drains together (core/user.go, core/node.go): no traffic is discarded of a user who can
    authenticate, in a single drain and in every interleaving of counting, drains, and the single writes of adding and
    deleting users. */
module DrainSafety {
  import opened Optional
  import opened Panel
  import opened UserRegistry
  import TrafficDrain
  import TrafficLedger

  /** A drain that looks up ids in the registry removes no entry of a user who can authenticate, and its slice has every
      such entry that is over the threshold. */
  lemma DrainKeepsKnown(r: Registry, tag: string, snap: TrafficDrain.Snapshot, mintraffic: int)
    requires Known(r) && tag in r.managers
    ensures TrafficDrain.Removed(snap, r.uidMap, mintraffic) !! r.managers[tag]
    ensures forall e | e in r.managers[tag] && e in snap && TrafficDrain.Over(snap, mintraffic, e) ::
              e in TrafficDrain.Reported(snap, r.uidMap, mintraffic)
  {
    forall e | e in r.managers[tag] ensures TrafficDrain.UidOf(r.uidMap, e) != 0 {
      assert e in r.uidMap && r.uidMap[e] != 0;
    }
  }

  // ---- One core ----

  /** What is done while the registry is locked for writing. */
  datatype Batch =
    | NoBatch
    | Deleting(tag: string, users: seq<UserInfo>)
    | Adding(tag: string, users: seq<UserInfo>)

  function Ops(b: Batch): seq<Op> {
    match b
    case NoBatch => []
    case Deleting(tag, users) => DelOps(tag, users)
    case Adding(tag, users) => AddOps(tag, users)
  }

  /** The registry when the lock was taken, how many of the batch's writes are done, and the traffic counters. */
  datatype Core = Core(start: Registry, batch: Batch, written: nat, traffic: TrafficLedger.State) {
    predicate Within() {
      written <= |Ops(batch)|
    }
    function Now(): Registry
      requires Within()
    {
      ApplyAll(start, Ops(batch)[..written])
    }
  }

  /** Locking, single writes and unlocking; inbounds come and go without the lock; a reload brings a new core; and
      everything that connections and drains do. */
  datatype Event =
    | Lock(batch: Batch)
    | Write
    | Unlock
    | Inbound(tag: string)
    | NoInbound(tag: string)
    | Restart
    | Traffic(event: TrafficLedger.Event)

  /** What the counters and the drains see of a write. */
  function Seen(op: Op): Option<TrafficLedger.Event> {
    match op
    case UidDelete(email) => Some(TrafficLedger.DropUid(email))
    case CounterDelete(_, email) => Some(TrafficLedger.DropKey(email))
    case UidSet(email, id) => Some(TrafficLedger.SetUid(email, id))
    case _ => None
  }

  ghost predicate GoodBatch(b: Batch) {
    !b.NoBatch? ==> forall u | u in b.users :: GoodUser(u)
  }

  predicate MayRefuse(op: Op) {
    op.ManagerRemove? || op.ManagerAdd?
  }

  /** Drains lock the registry for reading. A batch ends when it is done or the user manager refuses. */
  ghost predicate Allowed(c: Core, ev: Event) {
    && c.Within()
    && match ev
       case Lock(b) => c.batch.NoBatch? && !b.NoBatch? && GoodBatch(b) && TrafficLedger.AllIdle(c.traffic)
       case Write => c.written < |Ops(c.batch)| && TrafficLedger.AllIdle(c.traffic)
       case Unlock => !c.batch.NoBatch? && (c.written == |Ops(c.batch)| || MayRefuse(Ops(c.batch)[c.written]))
       case Inbound(tag) => c.batch.NoBatch? || c.batch.tag != tag
       case NoInbound(tag) => true
       case Restart => c.batch.NoBatch? && TrafficLedger.AllIdle(c.traffic)
       case Traffic(e) =>
         && !e.DropUid? && !e.DropKey? && !e.SetUid? && !e.Reload? && (e.Begin? ==> c.batch.NoBatch?)
         && TrafficLedger.Allowed(c.traffic, e)
  }

  const EMPTY := Registry(map[], map[], map[], {})

  ghost function Observe(s: TrafficLedger.State, seen: Option<TrafficLedger.Event>): TrafficLedger.State
    requires seen.Some? ==> TrafficLedger.Allowed(s, seen.value)
  {
    if seen.Some? then TrafficLedger.Step(s, seen.value) else s
  }

  function WithInbound(r: Registry, tag: string): Registry {
    r.(managers := r.managers[tag := {}])
  }

  function WithoutInbound(r: Registry, tag: string): Registry {
    r.(managers := r.managers - {tag})
  }

  ghost function Step(c: Core, ev: Event): Core
    requires Allowed(c, ev)
  {
    match ev
    case Lock(b) => Core(c.Now(), b, 0, c.traffic)
    case Write => c.(written := c.written + 1, traffic := Observe(c.traffic, Seen(Ops(c.batch)[c.written])))
    case Unlock => Core(c.Now(), NoBatch, 0, c.traffic)
    case Inbound(tag) => c.(start := WithInbound(c.start, tag))
    case NoInbound(tag) => c.(start := WithoutInbound(c.start, tag))
    case Restart => Core(EMPTY, NoBatch, 0, TrafficLedger.Step(c.traffic, TrafficLedger.Reload))
    case Traffic(e) => c.(traffic := TrafficLedger.Step(c.traffic, e))
  }

  ghost predicate Initial(c: Core) {
    c.start == EMPTY && c.batch.NoBatch? && c.written == 0 && TrafficLedger.Initial(c.traffic) &&
      c.traffic.uids == map[]
  }

  ghost predicate IsRun(states: seq<Core>, events: seq<Event>) {
    && |states| == |events| + 1 && Initial(states[0])
    && forall i | 0 <= i < |events| :: Allowed(states[i], events[i]) && states[i + 1] == Step(states[i], events[i])
  }

  // ---- Whoever can authenticate is known ----

  /** No drain is under way while the registry is being written, so no write is held up; the drains read its ids. */
  ghost predicate Inv(c: Core) {
    && c.Within() && GoodBatch(c.batch) && Known(c.start) && Owned(c.start)
    && (!c.batch.NoBatch? ==> TrafficLedger.AllIdle(c.traffic))
    && c.traffic.uids == c.Now().uidMap
    && TrafficLedger.Owned(c.traffic)
  }

  lemma InvKnown(c: Core)
    requires Inv(c)
    ensures Known(c.Now()) && Owned(c.Now())
  {
    hide Known; hide Owned; hide ApplyAll; hide DelOps; hide AddOps; hide TrafficLedger.Owned;
    match c.batch {
      case NoBatch => ApplyNone(c.start, Ops(c.batch)[..c.written]);
      case Deleting(tag, users) => DelStepsKeepKnown(c.start, tag, users, c.written);
      case Adding(tag, users) => AddStepsKeepKnown(c.start, tag, users, c.written);
    }
  }

  lemma {:induction false} ApplyWithInbound(r: Registry, ops: seq<Op>, tag: string)
    requires forall op | op in ops :: op.ManagerAdd? ==> op.tag != tag
    ensures ApplyAll(WithInbound(r, tag), ops) == WithInbound(ApplyAll(r, ops), tag)
  {
    if ops != [] {
      ApplyWithInbound(r, ops[..|ops| - 1], tag);
      WriteWithInbound(ApplyAll(r, ops[..|ops| - 1]), ops[|ops| - 1], tag);
    }
  }

  lemma WriteWithInbound(r: Registry, op: Op, tag: string)
    requires op.ManagerAdd? ==> op.tag != tag
    ensures Apply(WithInbound(r, tag), op) == WithInbound(Apply(r, op), tag)
  {
    var none: set<string> := {};
    assert (op.ManagerRemove? ==> none - {op.email} == none);
    assert Apply(WithInbound(r, tag), op).managers == WithInbound(Apply(r, op), tag).managers;
  }

  lemma {:induction false} ApplyWithoutInbound(r: Registry, ops: seq<Op>, tag: string)
    ensures ApplyAll(WithoutInbound(r, tag), ops) == WithoutInbound(ApplyAll(r, ops), tag)
  {
    if ops != [] {
      ApplyWithoutInbound(r, ops[..|ops| - 1], tag);
      WriteWithoutInbound(ApplyAll(r, ops[..|ops| - 1]), ops[|ops| - 1], tag);
    }
  }

  lemma WriteWithoutInbound(r: Registry, op: Op, tag: string)
    ensures Apply(WithoutInbound(r, tag), op) == WithoutInbound(Apply(r, op), tag)
  {
    assert Apply(WithoutInbound(r, tag), op).managers == WithoutInbound(Apply(r, op), tag).managers;
  }

  lemma InboundsKeepKnown(r: Registry, tag: string)
    requires Known(r) && Owned(r)
    ensures Known(WithInbound(r, tag)) && Owned(WithInbound(r, tag))
    ensures Known(WithoutInbound(r, tag)) && Owned(WithoutInbound(r, tag))
  {
    hide OwnedBy;
  }

  lemma {:induction false} DelOpsAddNone(tag: string, users: seq<UserInfo>)
    ensures forall op | op in DelOps(tag, users) :: !op.ManagerAdd?
  {
    if users != [] {
      DelOpsAddNone(tag, users[..|users| - 1]);
    }
  }

  /** A batch adds users to no manager but its own node's. */
  lemma OpsElsewhere(b: Batch, n: nat, tag: string)
    requires n <= |Ops(b)| && (b.NoBatch? || b.tag != tag)
    ensures forall op | op in Ops(b)[..n] :: op.ManagerAdd? ==> op.tag != tag
  {
    if b.Deleting? {
      DelOpsAddNone(b.tag, b.users);
    }
  }

  lemma WriteKeepsIds(c: Core)
    requires Inv(c) && Allowed(c, Write)
    ensures var t := Step(c, Write);
            t.Within() && t.traffic.uids == t.Now().uidMap && TrafficLedger.AllIdle(t.traffic)
  {
    hide Known; hide Owned; hide ApplyAll; hide Ops; hide TrafficLedger.Owned;
    var (ops, n) := (Ops(c.batch), c.written);
    assert ops[..n + 1] == ops[..n] + [ops[n]];
    ApplySnoc(c.start, ops[..n], ops[n]);
  }

  lemma TrafficKeepsIds(s: TrafficLedger.State, ev: TrafficLedger.Event)
    requires TrafficLedger.Allowed(s, ev) && !ev.DropUid? && !ev.DropKey? && !ev.SetUid? && !ev.Reload?
    ensures TrafficLedger.Step(s, ev).uids == s.uids
    ensures TrafficLedger.AllIdle(s) && !ev.Begin? ==> TrafficLedger.AllIdle(TrafficLedger.Step(s, ev))
  {
    hide TrafficLedger.AdvanceCell; hide TrafficLedger.NextStage; hide TrafficLedger.AddTo;
  }

  lemma StepKeepsInv(c: Core, ev: Event)
    requires Inv(c) && Allowed(c, ev)
    ensures Inv(Step(c, ev))
  {
    hide Known; hide Owned; hide ApplyAll; hide Ops; hide TrafficLedger.Owned; hide TrafficLedger.Step;
    hide TrafficLedger.Allowed; hide TrafficLedger.AllIdle;
    InvKnown(c);
    TrafficOwned(c, ev);
    match ev {
      case Lock(b) => NothingWritten(c.Now(), b);
      case Write => WriteKeepsIds(c);
      case Unlock => NothingWritten(c.Now(), NoBatch);
      case Inbound(tag) =>
        InboundsKeepKnown(c.start, tag);
        OpsElsewhere(c.batch, c.written, tag);
        ApplyWithInbound(c.start, Ops(c.batch)[..c.written], tag);
      case NoInbound(tag) =>
        InboundsKeepKnown(c.start, tag);
        ApplyWithoutInbound(c.start, Ops(c.batch)[..c.written], tag);
      case Restart =>
        NothingWritten(EMPTY, NoBatch);
        EmptyKnown(c.traffic);
      case Traffic(e) => TrafficKeepsIds(c.traffic, e);
    }
  }

  lemma NothingWritten(r: Registry, b: Batch)
    ensures ApplyAll(r, Ops(b)[..0]) == r
  {
    ApplyNone(r, Ops(b)[..0]);
  }

  lemma EmptyKnown(s: TrafficLedger.State)
    requires TrafficLedger.Allowed(s, TrafficLedger.Reload)
    ensures Known(EMPTY) && Owned(EMPTY) && TrafficLedger.Step(s, TrafficLedger.Reload).uids == EMPTY.uidMap
  {
  }

  /** What an event is to the traffic counters, if anything. */
  ghost function ToTraffic(c: Core, ev: Event): Option<TrafficLedger.Event>
    requires Allowed(c, ev)
  {
    match ev
    case Write => Seen(Ops(c.batch)[c.written])
    case Restart => Some(TrafficLedger.Reload)
    case Traffic(e) => Some(e)
    case _ => None
  }

  lemma StepObserved(c: Core, ev: Event)
    requires Allowed(c, ev)
    ensures ToTraffic(c, ev).Some? ==> TrafficLedger.Allowed(c.traffic, ToTraffic(c, ev).value)
    ensures Step(c, ev).traffic == Observe(c.traffic, ToTraffic(c, ev))
  {
    hide TrafficLedger.Step; hide Ops;
  }

  lemma TrafficOwned(c: Core, ev: Event)
    requires Allowed(c, ev) && TrafficLedger.Owned(c.traffic)
    ensures TrafficLedger.Owned(Step(c, ev).traffic)
  {
    hide TrafficLedger.Owned; hide Allowed; hide Step; hide TrafficLedger.Step; hide TrafficLedger.Allowed;
    StepObserved(c, ev);
    if ToTraffic(c, ev).Some? {
      TrafficLedger.StepKeepsOwned(c.traffic, ToTraffic(c, ev).value);
    }
  }

  lemma {:induction false} RunInv(states: seq<Core>, events: seq<Event>, i: nat)
    requires IsRun(states, events) && i <= |events|
    ensures Inv(states[i])
  {
    if i == 0 {
      NothingWritten(EMPTY, NoBatch);
    } else {
      hide Step; hide Allowed; hide Inv;
      RunInv(states, events, i - 1);
      assert Allowed(states[i - 1], events[i - 1]) && states[i] == Step(states[i - 1], events[i - 1]);
      StepKeepsInv(states[i - 1], events[i - 1]);
    }
  }

  /** In every state of every run, between any two writes, whoever can authenticate has a non-zero id, and the drains
      see it. */
  lemma EveryoneKnown(states: seq<Core>, events: seq<Event>, i: nat)
    requires IsRun(states, events) && i <= |events|
    ensures states[i].Within() && Known(states[i].Now()) && states[i].traffic.uids == states[i].Now().uidMap
  {
    hide Known; hide Owned; hide ApplyAll; hide Ops;
    RunInv(states, events, i);
    InvKnown(states[i]);
  }

  // ---- Nobody's traffic is dropped ----

  ghost predicate CanAuthenticate(r: Registry, email: string) {
    exists tag :: tag in r.managers && email in r.managers[tag]
  }

  /** A drain ends a visit of the key's entry. */
  ghost predicate EndsVisit(s: TrafficLedger.State, ev: TrafficLedger.Event, email: string) {
    && ev.Advance? && ev.d < |s.drains| && s.drains[ev.d].Visiting? && s.drains[ev.d].stage.Finish?
    && s.drains[ev.d].email == email
  }

  /** Whenever a drain ends a visit of the user's entry, the user can authenticate. */
  ghost predicate InGoodStanding(states: seq<Core>, events: seq<Event>, email: string) {
    && |states| == |events| + 1
    && forall i | 0 <= i < |events| && events[i].Traffic? && EndsVisit(states[i].traffic, events[i].event, email) ::
      states[i].Within() && CanAuthenticate(states[i].Now(), email)
  }

  lemma KnownStep(c: Core, ev: Event, email: string)
    requires Inv(c) && Allowed(c, ev) && TrafficLedger.NothingDropped(c.traffic, email)
    requires ev.Traffic? && EndsVisit(c.traffic, ev.event, email) ==> CanAuthenticate(c.Now(), email)
    ensures TrafficLedger.NothingDropped(Step(c, ev).traffic, email)
  {
    hide TrafficLedger.NothingDropped; hide TrafficLedger.Step; hide TrafficLedger.Allowed; hide TrafficLedger.Owned;
    hide Owned; hide ApplyAll; hide Ops; hide Step; hide Allowed;
    StepObserved(c, ev);
    InvKnown(c);
    var seen := ToTraffic(c, ev);
    if seen.Some? {
      if TrafficLedger.DropsFor(c.traffic, seen.value, email) {
        assert false;
      }
      TrafficLedger.StepDropsNothing(c.traffic, seen.value, email);
    }
  }

  /** In every run a user who can authenticate whenever a drain ends a visit of the user's entry loses no byte to a
      missing id, in any storage the user ever had. */
  lemma {:induction false} KnownNeverDropped(states: seq<Core>, events: seq<Event>, email: string, i: nat)
    requires IsRun(states, events) && InGoodStanding(states, events, email) && i <= |events|
    ensures forall sid | 0 <= sid < |states[i].traffic.cells| && states[i].traffic.cells[sid].owner == email ::
              states[i].traffic.cells[sid].dropped == TrafficLedger.ZERO
  {
    if i > 0 {
      hide Step; hide Allowed; hide Inv; hide EndsVisit; hide CanAuthenticate;
      KnownNeverDropped(states, events, email, i - 1);
      RunInv(states, events, i - 1);
      assert Allowed(states[i - 1], events[i - 1]) && states[i] == Step(states[i - 1], events[i - 1]);
      KnownStep(states[i - 1], events[i - 1], email);
    }
  }
}
