/** Counting and draining interleaved: every atomic load, store and add is a step of its own, connections keep storages
    whose key is gone, and any number of drains may be under way (core/user.go, common/counter/traffic.go). Each storage
    carries an account of where the bytes counted in it went. */
module TrafficLedger {
  import opened Optional
  import opened Panel

  datatype Bytes = Bytes(up: int, down: int) {
    function Plus(b: Bytes): Bytes {
      Bytes(up + b.up, down + b.down)
    }
    function Minus(b: Bytes): Bytes {
      Bytes(up - b.up, down - b.down)
    }
    predicate NonNegative() {
      up >= 0 && down >= 0
    }
  }

  const ZERO := Bytes(0, 0)

  /** A storage: the key it was made for, its counters, and of the bytes counted in it those put in slices, dropped for
      want of an id, taken by a drain that has not finished with them, and lost: what a store of zero wiped out less
      what its drain had loaded. Module TrafficWindows says what the last comes from. */
  datatype Cell = Cell(owner: string, value: Bytes, counted: Bytes, reported: Bytes, dropped: Bytes, taken: Bytes,
                       lost: Bytes)

  function NewCell(email: string): Cell {
    Cell(email, ZERO, ZERO, ZERO, ZERO, ZERO, ZERO)
  }

  /** The operation a drain is about to do on an entry, with what it has loaded. */
  datatype Stage =
    | LoadUp
    | LoadDown(up: int)
    | StoreUp(up: int, down: int)
    | StoreDown(up: int, down: int)
    | Finish(up: int, down: int)

  datatype Drain =
    | Idle
    | Ranging(mintraffic: int, seen: set<string>)
    | Visiting(mintraffic: int, seen: set<string>, email: string, sid: nat, stage: Stage)

  /** Storages are numbered in the order they were made; `live` has the current one of each key, and those below `base`
      belong to cores that a reload has closed. */
  datatype State = State(cells: seq<Cell>, base: nat, live: map<string, nat>, uids: map<string, int>,
                         drains: seq<Drain>,
                         log: seq<UserTraffic>)

  datatype Event =
    | GetCounter(email: string)
    | AddUp(sid: nat, n: nat)
    | AddDown(sid: nat, n: nat)
    | DropUid(email: string)
    | DropKey(email: string)
    | SetUid(email: string, id: int)
    | Reload
    | Begin(d: nat, mintraffic: int)
    | Visit(d: nat, email: string)
    | Advance(d: nat)
    | End(d: nat)

  ghost predicate AllIdle(s: State) {
    forall d | 0 <= d < |s.drains| :: s.drains[d].Idle?
  }

  /** Users change, write by write, only while no drain holds the registry's lock; a reload falls between drains; an
      entry is visited at most once in a drain. */
  ghost predicate Allowed(s: State, ev: Event) {
    match ev
    case GetCounter(_) => true
    case AddUp(sid, _) => sid < |s.cells|
    case AddDown(sid, _) => sid < |s.cells|
    case DropUid(_) => AllIdle(s)
    case DropKey(_) => AllIdle(s)
    case SetUid(_, _) => AllIdle(s)
    case Reload => AllIdle(s)
    case Begin(d, _) => d < |s.drains| && s.drains[d].Idle?
    case Visit(d, email) => d < |s.drains| && s.drains[d].Ranging? && email in s.live && email !in s.drains[d].seen
    case Advance(d) => d < |s.drains| && s.drains[d].Visiting? && s.drains[d].sid < |s.cells|
    case End(d) => d < |s.drains| && s.drains[d].Ranging?
  }

  function UidOf(s: State, email: string): int {
    if email in s.uids then s.uids[email] else 0
  }

  // ---- One operation of a drain on a storage ----

  /** The storage after the operation; `known` says whether the entry's user has an id. */
  function AdvanceCell(c: Cell, stage: Stage, known: bool): Cell {
    match stage
    case LoadUp => c
    case LoadDown(_) => c
    case StoreUp(up, _) =>
      c.(value := Bytes(0, c.value.down), taken := c.taken.Plus(Bytes(up, 0)),
         lost := c.lost.Plus(Bytes(c.value.up - up, 0)))
    case StoreDown(_, down) =>
      c.(value := Bytes(c.value.up, 0), taken := c.taken.Plus(Bytes(0, down)),
         lost := c.lost.Plus(Bytes(0, c.value.down - down)))
    case Finish(up, down) =>
      var b := Bytes(up, down);
      if known then c.(taken := c.taken.Minus(b), reported := c.reported.Plus(b))
      else c.(taken := c.taken.Minus(b), dropped := c.dropped.Plus(b))
  }

  /** The next operation on the entry, if there is one. */
  function NextStage(c: Cell, stage: Stage, mintraffic: int): Option<Stage> {
    match stage
    case LoadUp => Some(LoadDown(c.value.up))
    case LoadDown(up) => if up + c.value.down > mintraffic then Some(StoreUp(up, c.value.down)) else None
    case StoreUp(up, down) => Some(StoreDown(up, down))
    case StoreDown(up, down) => Some(Finish(up, down))
    case Finish(_, _) => None
  }

  function AdvanceDrain(s: State, d: nat): State
    requires d < |s.drains| && s.drains[d].Visiting? && s.drains[d].sid < |s.cells|
  {
    var p := s.drains[d];
    var uid := UidOf(s, p.email);
    var next := NextStage(s.cells[p.sid], p.stage, p.mintraffic);
    State(s.cells[p.sid := AdvanceCell(s.cells[p.sid], p.stage, uid != 0)], s.base,
          if p.stage.Finish? && uid == 0 then s.live - {p.email} else s.live,
          s.uids,
          s.drains[d := if next.Some? then p.(stage := next.value) else Ranging(p.mintraffic, p.seen)],
          if p.stage.Finish? && uid != 0 then s.log + [UserTraffic(uid, p.stage.up, p.stage.down)] else s.log)
  }

  function AddTo(c: Cell, b: Bytes): Cell {
    c.(value := c.value.Plus(b), counted := c.counted.Plus(b))
  }

  ghost function Step(s: State, ev: Event): State
    requires Allowed(s, ev)
  {
    match ev
    case GetCounter(email) => if email in s.live then s else
      s.(cells := s.cells + [NewCell(email)], live := s.live[email := |s.cells|])
    case AddUp(sid, n) => s.(cells := s.cells[sid := AddTo(s.cells[sid], Bytes(n, 0))])
    case AddDown(sid, n) => s.(cells := s.cells[sid := AddTo(s.cells[sid], Bytes(0, n))])
    case DropUid(email) => s.(uids := s.uids - {email})
    case DropKey(email) => s.(live := s.live - {email})
    case SetUid(email, id) => s.(uids := s.uids[email := id])
    case Reload => s.(base := |s.cells|, live := map[], uids := map[])
    case Begin(d, m) => s.(drains := s.drains[d := Ranging(m, {})])
    case Visit(d, email) =>
      s.(drains := s.drains[d := Visiting(s.drains[d].mintraffic, s.drains[d].seen + {email}, email, s.live[email],
                                          LoadUp)])
    case Advance(d) => AdvanceDrain(s, d)
    case End(d) => s.(drains := s.drains[d := Idle])
  }

  ghost predicate Initial(s: State) {
    s.cells == [] && s.base == 0 && s.live == map[] && s.log == [] && AllIdle(s)
  }

  ghost predicate IsRun(states: seq<State>, events: seq<Event>) {
    && |states| == |events| + 1 && Initial(states[0])
    && forall i | 0 <= i < |events| :: Allowed(states[i], events[i]) && states[i + 1] == Step(states[i], events[i])
  }

  /** The storages that keys and drains refer to exist, so an operation of a drain is never held up. */
  ghost predicate References(s: State) {
    && (forall e | e in s.live :: s.live[e] < |s.cells|)
    && (forall d | 0 <= d < |s.drains| && s.drains[d].Visiting? :: s.drains[d].sid < |s.cells|)
  }

  lemma StepKeepsReferences(s: State, ev: Event)
    requires References(s) && Allowed(s, ev)
    ensures References(Step(s, ev))
  {
    hide AdvanceCell; hide AddTo;
  }

  lemma {:induction false} RunReferences(states: seq<State>, events: seq<Event>)
    requires IsRun(states, events)
    ensures References(states[|events|])
  {
    if events != [] {
      hide Step; hide References; hide Allowed;
      var n := |events| - 1;
      RunReferences(states[..n + 1], events[..n]);
      assert Allowed(states[n], events[n]) && states[n + 1] == Step(states[n], events[n]);
      StepKeepsReferences(states[n], events[n]);
    } else {
      assert states[0].live == map[];
    }
  }

  // ---- Totals ----

  datatype Account = Account(live: Bytes, detached: Bytes, abandoned: Bytes, counted: Bytes, reported: Bytes,
                             dropped: Bytes,
                             taken: Bytes, lost: Bytes)
  {
    function Plus(a: Account): Account {
      Account(live.Plus(a.live), detached.Plus(a.detached), abandoned.Plus(a.abandoned), counted.Plus(a.counted),
              reported.Plus(a.reported),
              dropped.Plus(a.dropped), taken.Plus(a.taken), lost.Plus(a.lost))
    }
    predicate Balanced() {
      counted == reported.Plus(live).Plus(detached).Plus(abandoned).Plus(dropped).Plus(taken).Plus(lost)
    }
    predicate NoDebt() {
      && live.NonNegative() && detached.NonNegative() && abandoned.NonNegative()
      && dropped.NonNegative() && taken.NonNegative() && lost.NonNegative()
    }
  }

  const EMPTY := Account(ZERO, ZERO, ZERO, ZERO, ZERO, ZERO, ZERO, ZERO)

  /** Where the bytes still in a storage's counters stand. */
  datatype Standing = Live | Detached | Abandoned

  function StandingOf(sid: nat, live: set<nat>, base: nat): Standing {
    if sid in live then Live else if sid < base then Abandoned else Detached
  }

  function CellAccount(c: Cell, w: Standing): Account {
    Account(if w.Live? then c.value else ZERO, if w.Detached? then c.value else ZERO,
            if w.Abandoned? then c.value else ZERO, c.counted, c.reported, c.dropped, c.taken, c.lost)
  }

  /** The totals over all storages, with the counters of storages that still have a key, of those that lost it and of
      those of closed cores apart. */
  function Totals(cells: seq<Cell>, live: set<nat>, base: nat): Account {
    if cells == [] then EMPTY
    else
      Totals(cells[..|cells| - 1], live, base)
      .Plus(CellAccount(cells[|cells| - 1], StandingOf(|cells| - 1, live, base)))
  }

  function TotalsOf(s: State): Account {
    Totals(s.cells, s.live.Values, s.base)
  }

  function LogTotal(log: seq<UserTraffic>): Bytes {
    if log == [] then ZERO
    else LogTotal(log[..|log| - 1]).Plus(Bytes(log[|log| - 1].upload, log[|log| - 1].download))
  }

  function AddedBy(ev: Event): Bytes {
    match ev
    case AddUp(_, n) => Bytes(n, 0)
    case AddDown(_, n) => Bytes(0, n)
    case _ => ZERO
  }

  /** The bytes of all the adds of a run. */
  function AddedTotal(events: seq<Event>): Bytes {
    if events == [] then ZERO else AddedTotal(events[..|events| - 1]).Plus(AddedBy(events[|events| - 1]))
  }

  /** The bytes of a line that the event puts in a slice. */
  ghost function ReportedBy(s: State, ev: Event): Bytes
    requires Allowed(s, ev)
  {
    if ev.Advance? && s.drains[ev.d].stage.Finish? && UidOf(s, s.drains[ev.d].email) != 0
    then Bytes(s.drains[ev.d].stage.up, s.drains[ev.d].stage.down) else ZERO
  }

  function SumCounted(cells: seq<Cell>): Bytes {
    if cells == [] then ZERO else SumCounted(cells[..|cells| - 1]).Plus(cells[|cells| - 1].counted)
  }

  function SumReported(cells: seq<Cell>): Bytes {
    if cells == [] then ZERO else SumReported(cells[..|cells| - 1]).Plus(cells[|cells| - 1].reported)
  }

  lemma {:induction false} TotalsAreSums(cells: seq<Cell>, live: set<nat>, base: nat)
    ensures Totals(cells, live, base).counted == SumCounted(cells) &&
            Totals(cells, live, base).reported == SumReported(cells)
  {
    if cells != [] {
      TotalsAreSums(cells[..|cells| - 1], live, base);
    }
  }

  lemma {:induction false} UpdateSumCounted(cells: seq<Cell>, sid: nat, c: Cell)
    requires sid < |cells|
    ensures SumCounted(cells[sid := c]) == SumCounted(cells).Plus(c.counted.Minus(cells[sid].counted))
  {
    var n := |cells| - 1;
    if sid == n {
      assert cells[sid := c][..n] == cells[..n];
    } else {
      UpdateSumCounted(cells[..n], sid, c);
      assert cells[sid := c][..n] == cells[..n][sid := c];
    }
  }

  lemma {:induction false} UpdateSumReported(cells: seq<Cell>, sid: nat, c: Cell)
    requires sid < |cells|
    ensures SumReported(cells[sid := c]) == SumReported(cells).Plus(c.reported.Minus(cells[sid].reported))
  {
    var n := |cells| - 1;
    if sid == n {
      assert cells[sid := c][..n] == cells[..n];
    } else {
      UpdateSumReported(cells[..n], sid, c);
      assert cells[sid := c][..n] == cells[..n][sid := c];
    }
  }

  lemma UpdateSums(cells: seq<Cell>, sid: nat, c: Cell, counted: Bytes, reported: Bytes)
    requires sid < |cells| && c.counted == cells[sid].counted.Plus(counted) &&
             c.reported == cells[sid].reported.Plus(reported)
    ensures SumCounted(cells[sid := c]) == SumCounted(cells).Plus(counted)
    ensures SumReported(cells[sid := c]) == SumReported(cells).Plus(reported)
  {
    hide SumCounted; hide SumReported;
    UpdateSumCounted(cells, sid, c);
    UpdateSumReported(cells, sid, c);
  }

  // ---- Conservation ----

  /** The account of a storage balances. */
  predicate Balanced(c: Cell) {
    c.counted == c.reported.Plus(c.value).Plus(c.dropped).Plus(c.taken).Plus(c.lost)
  }

  ghost predicate AllBalanced(cells: seq<Cell>) {
    forall sid | 0 <= sid < |cells| :: Balanced(cells[sid])
  }

  lemma AdvanceBalances(c: Cell, stage: Stage, known: bool)
    requires Balanced(c)
    ensures var c' := AdvanceCell(c, stage, known);
            && Balanced(c') && c'.counted == c.counted.Plus(ZERO)
            && c'.reported == c.reported.Plus(if stage.Finish? && known then Bytes(stage.up, stage.down) else ZERO)
  {
  }

  lemma AddBalances(c: Cell, b: Bytes)
    requires Balanced(c)
    ensures Balanced(AddTo(c, b)) && AddTo(c, b).counted == c.counted.Plus(b) &&
            AddTo(c, b).reported == c.reported.Plus(ZERO)
  {
  }

  lemma StepKeepsSums(s: State, ev: Event)
    requires Allowed(s, ev) && AllBalanced(s.cells)
    ensures AllBalanced(Step(s, ev).cells)
    ensures SumCounted(Step(s, ev).cells) == SumCounted(s.cells).Plus(AddedBy(ev))
    ensures SumReported(Step(s, ev).cells) == SumReported(s.cells).Plus(ReportedBy(s, ev))
  {
    hide Balanced; hide AdvanceCell; hide AddTo; hide NextStage; hide SumCounted; hide SumReported;
    match ev {
      case GetCounter(email) =>
        if email !in s.live {
          NewCellSums(s.cells, email);
        }
      case AddUp(sid, n) =>
        AddBalances(s.cells[sid], Bytes(n, 0));
        UpdateSums(s.cells, sid, AddTo(s.cells[sid], Bytes(n, 0)), Bytes(n, 0), ZERO);
      case AddDown(sid, n) =>
        AddBalances(s.cells[sid], Bytes(0, n));
        UpdateSums(s.cells, sid, AddTo(s.cells[sid], Bytes(0, n)), Bytes(0, n), ZERO);
      case Advance(d) =>
        var p := s.drains[d];
        var known := UidOf(s, p.email) != 0;
        AdvanceBalances(s.cells[p.sid], p.stage, known);
        UpdateSums(s.cells, p.sid, AdvanceCell(s.cells[p.sid], p.stage, known), ZERO, ReportedBy(s, ev));
      case _ =>
    }
  }

  lemma NewCellSums(cells: seq<Cell>, email: string)
    requires AllBalanced(cells)
    ensures AllBalanced(cells + [NewCell(email)])
    ensures SumCounted(cells + [NewCell(email)]) == SumCounted(cells).Plus(ZERO)
    ensures SumReported(cells + [NewCell(email)]) == SumReported(cells).Plus(ZERO)
  {
    NewCellBalanced(email);
    hide Balanced; hide Bytes.Plus;
    assert (cells + [NewCell(email)])[..|cells|] == cells;
  }

  lemma NewCellBalanced(email: string)
    ensures Balanced(NewCell(email))
  {
  }

  lemma StepKeepsLog(s: State, ev: Event)
    requires Allowed(s, ev)
    ensures LogTotal(Step(s, ev).log) == LogTotal(s.log).Plus(ReportedBy(s, ev))
  {
    hide AdvanceCell; hide AddTo; hide NextStage;
    var s' := Step(s, ev);
    if s'.log != s.log {
      assert s'.log[..|s.log|] == s.log;
    }
  }

  lemma {:induction false} RunBalances(states: seq<State>, events: seq<Event>)
    requires IsRun(states, events)
    ensures AllBalanced(states[|events|].cells)
    ensures SumCounted(states[|events|].cells) == AddedTotal(events)
    ensures SumReported(states[|events|].cells) == LogTotal(states[|events|].log)
  {
    if events != [] {
      hide Step; hide Balanced; hide SumCounted; hide SumReported; hide Allowed; hide LogTotal; hide AllBalanced;
      hide AddedBy;
      var n := |events| - 1;
      RunBalances(states[..n + 1], events[..n]);
      assert Allowed(states[n], events[n]) && states[n + 1] == Step(states[n], events[n]);
      assert states[..n + 1][n] == states[n];
      StepKeepsSums(states[n], events[n]);
      StepKeepsLog(states[n], events[n]);
    }
  }

  lemma PlusBalanced(a: Account, b: Account)
    ensures a.Balanced() && b.Balanced() ==> a.Plus(b).Balanced()
    ensures a.NoDebt() && b.NoDebt() ==> a.Plus(b).NoDebt()
  {
  }

  lemma {:induction false} BalancedTotals(cells: seq<Cell>, live: set<nat>, base: nat)
    requires AllBalanced(cells)
    ensures Totals(cells, live, base).Balanced()
  {
    hide Account.Balanced; hide Account.Plus; hide Balanced; hide CellAccount; hide Account.NoDebt; hide StandingOf;
    if cells == [] {
      EmptyBalanced();
    } else {
      var n := |cells| - 1;
      BalancedTotals(cells[..n], live, base);
      CellBalanced(cells[n], StandingOf(n, live, base));
      PlusBalanced(Totals(cells[..n], live, base), CellAccount(cells[n], StandingOf(n, live, base)));
    }
  }

  lemma EmptyBalanced()
    ensures EMPTY.Balanced()
  {
  }

  lemma EmptyNoDebt()
    ensures EMPTY.NoDebt()
  {
  }

  lemma CellBalanced(c: Cell, w: Standing)
    ensures Balanced(c) ==> CellAccount(c, w).Balanced()
    ensures SoundCell(c) ==> CellAccount(c, w).NoDebt()
  {
  }

  /** Conservation, in both directions and for any number of drains at once: the bytes added in a run are those in the
      slices, those still in counters with a key, without one, and of cores that a reload has closed, those dropped for
      want of an id, those a drain has taken and not yet accounted for, and those lost. */
  lemma Conservation(states: seq<State>, events: seq<Event>)
    requires IsRun(states, events)
    ensures var s := states[|events|];
            var t := TotalsOf(s);
            AddedTotal(events) ==
              LogTotal(s.log).Plus(t.live).Plus(t.detached).Plus(t.abandoned).Plus(t.dropped).Plus(t.taken).Plus(t.lost)
  {
    hide Totals; hide LogTotal; hide AddedTotal; hide Balanced; hide SumCounted; hide SumReported;
    var s := states[|events|];
    RunBalances(states, events);
    TotalsAreSums(s.cells, s.live.Values, s.base);
    BalancedTotals(s.cells, s.live.Values, s.base);
  }

  // ---- One drain at a time ----

  ghost predicate AtMostOneDrain(s: State) {
    forall d, e | 0 <= d < e < |s.drains| :: s.drains[d].Idle? || s.drains[e].Idle?
  }

  predicate SoundCell(c: Cell) {
    c.value.NonNegative() && c.dropped.NonNegative() && c.taken.NonNegative() && c.lost.NonNegative()
  }

  /** A storage no drain is visiting: nothing is taken from it. */
  predicate Quiet(c: Cell) {
    SoundCell(c) && c.taken == ZERO
  }

  /** A storage a drain is visiting: what the drain loaded and has not stored over is still there, and what it stored
      over is what it has taken. */
  predicate Covered(c: Cell, stage: Stage) {
    && SoundCell(c)
    && match stage
       case LoadUp => c.taken == ZERO
       case LoadDown(up) => c.taken == ZERO && 0 <= up <= c.value.up
       case StoreUp(up, down) => c.taken == ZERO && 0 <= up <= c.value.up && 0 <= down <= c.value.down
       case StoreDown(up, down) => c.taken == Bytes(up, 0) && 0 <= down <= c.value.down
       case Finish(up, down) => c.taken == Bytes(up, down)
  }

  predicate CellSound(c: Cell, sid: nat, p: Drain) {
    if p.Visiting? && p.sid == sid then Covered(c, p.stage) else Quiet(c)
  }

  /** Every drain other than `d` is idle, and the storages are sound for the drain `d`. */
  ghost predicate SoundFor(s: State, d: nat) {
    && d < |s.drains|
    && (forall e | 0 <= e < |s.drains| && e != d :: s.drains[e].Idle?)
    && forall sid | 0 <= sid < |s.cells| :: CellSound(s.cells[sid], sid, s.drains[d])
  }

  ghost predicate Sound(s: State) {
    (s.drains == [] ==> forall sid | 0 <= sid < |s.cells| :: Quiet(s.cells[sid])) &&
    (s.drains != [] ==> exists d: nat :: SoundFor(s, d))
  }

  lemma AdvanceCovered(c: Cell, stage: Stage, known: bool, mintraffic: int)
    requires Covered(c, stage)
    ensures var c', next := AdvanceCell(c, stage, known), NextStage(c, stage, mintraffic);
            if next.Some? then Covered(c', next.value) else Quiet(c')
  {
  }

  lemma AddCovered(c: Cell, b: Bytes, sid: nat, p: Drain)
    requires CellSound(c, sid, p) && b.NonNegative()
    ensures CellSound(AddTo(c, b), sid, p)
  {
  }

  lemma AdvanceSoundFor(s: State, d: nat)
    requires SoundFor(s, d) && Allowed(s, Advance(d))
    ensures SoundFor(AdvanceDrain(s, d), d)
  {
    hide Covered; hide Quiet; hide AdvanceCell; hide NextStage;
    var p := s.drains[d];
    assert CellSound(s.cells[p.sid], p.sid, p);
    AdvanceCovered(s.cells[p.sid], p.stage, UidOf(s, p.email) != 0, p.mintraffic);
    var s' := AdvanceDrain(s, d);
    forall sid | 0 <= sid < |s'.cells| ensures CellSound(s'.cells[sid], sid, s'.drains[d]) {
      assert CellSound(s.cells[sid], sid, p);
    }
  }

  lemma AddSoundFor(s: State, d: nat, sid: nat, b: Bytes)
    requires SoundFor(s, d) && sid < |s.cells| && b.NonNegative()
    ensures SoundFor(s.(cells := s.cells[sid := AddTo(s.cells[sid], b)]), d)
  {
    hide CellSound; hide AddTo;
    assert CellSound(s.cells[sid], sid, s.drains[d]);
    AddCovered(s.cells[sid], b, sid, s.drains[d]);
  }

  /** A drain other than the sound one takes over while that one is idle. */
  lemma HandOver(s: State, d: nat, e: nat)
    requires SoundFor(s, d) && e < |s.drains| && s.drains[d].Idle?
    ensures SoundFor(s, e)
  {
    hide Quiet; hide Covered;
    forall sid | 0 <= sid < |s.cells| ensures CellSound(s.cells[sid], sid, s.drains[e]) {
      assert CellSound(s.cells[sid], sid, s.drains[d]);
    }
  }

  lemma StepSoundFor(s: State, ev: Event, d: nat)
    requires SoundFor(s, d) && Allowed(s, ev) && References(s)
    requires ev.Begin? || ev.Visit? || ev.Advance? || ev.End? ==> ev.d == d
    ensures SoundFor(Step(s, ev), d)
  {
    hide AdvanceCell; hide AddTo; hide NextStage;
    match ev {
      case AddUp(sid, n) => AddSoundFor(s, d, sid, Bytes(n, 0));
      case AddDown(sid, n) => AddSoundFor(s, d, sid, Bytes(0, n));
      case Advance(_) => AdvanceSoundFor(s, d);
      case GetCounter(_) =>
        assert Quiet(NewCell(ev.email));
        forall sid | 0 <= sid < |s.cells| ensures CellSound(Step(s, ev).cells[sid], sid, s.drains[d]) {
          assert CellSound(s.cells[sid], sid, s.drains[d]);
        }
      case _ =>
        forall sid | 0 <= sid < |s.cells| ensures CellSound(s.cells[sid], sid, Step(s, ev).drains[d]) {
          assert CellSound(s.cells[sid], sid, s.drains[d]);
        }
    }
  }

  lemma StepKeepsSound(s: State, ev: Event)
    requires Sound(s) && s.drains != [] && References(s) && Allowed(s, ev)
    requires AtMostOneDrain(s) && AtMostOneDrain(Step(s, ev))
    ensures Sound(Step(s, ev))
  {
    hide SoundFor; hide Step; hide References;
    var d: nat :| SoundFor(s, d);
    if (ev.Begin? || ev.Visit? || ev.Advance? || ev.End?) && ev.d != d {
      MovingDrain(s, ev, d);
      StepSoundFor(s, ev, ev.d);
    } else {
      StepSoundFor(s, ev, d);
    }
    DrainsStay(s, ev);
  }

  /** When a drain moves, the one the storages were sound for is idle. */
  lemma MovingDrain(s: State, ev: Event, d: nat)
    requires SoundFor(s, d) && Allowed(s, ev) && (ev.Begin? || ev.Visit? || ev.Advance? || ev.End?) && ev.d != d
    requires AtMostOneDrain(Step(s, ev))
    ensures SoundFor(s, ev.d)
  {
    hide CellSound;
    assert s.drains[ev.d].Idle?;
    var s' := Step(s, ev);
    assert s'.drains[d] == s.drains[d] && !s'.drains[ev.d].Idle?;
    assert if d < ev.d then s'.drains[d].Idle? else s'.drains[d].Idle?;
    HandOver(s, d, ev.d);
  }

  lemma DrainsStay(s: State, ev: Event)
    requires Allowed(s, ev)
    ensures |Step(s, ev).drains| == |s.drains|
  {
  }

  lemma {:induction false} RunSound(states: seq<State>, events: seq<Event>)
    requires IsRun(states, events) && forall i | 0 <= i < |states| :: AtMostOneDrain(states[i])
    ensures Sound(states[|events|]) && |states[|events|].drains| == |states[0].drains|
  {
    hide Step; hide Allowed; hide AtMostOneDrain; hide References; hide SoundFor;
    if events == [] {
      InitialSound(states[0]);
    } else {
      var n := |events| - 1;
      var most := states[..n + 1];
      forall i | 0 <= i < |most| ensures AtMostOneDrain(most[i]) {
        assert most[i] == states[i];
      }
      RunSound(states[..n + 1], events[..n]);
      RunReferences(states[..n + 1], events[..n]);
      assert Allowed(states[n], events[n]) && states[n + 1] == Step(states[n], events[n]);
      assert states[..n + 1][n] == states[n];
      assert AtMostOneDrain(states[n]) && AtMostOneDrain(states[n + 1]);
      DrainsStay(states[n], events[n]);
      if states[0].drains == [] {
        NoDrainsSound(states[n], events[n]);
      } else {
        StepKeepsSound(states[n], events[n]);
      }
    }
  }

  lemma InitialSound(s: State)
    requires Initial(s)
    ensures Sound(s)
  {
    if s.drains != [] {
      assert SoundFor(s, 0);
    }
  }

  lemma NoDrainsSound(s: State, ev: Event)
    requires Sound(s) && s.drains == [] && Allowed(s, ev)
    ensures Sound(Step(s, ev))
  {
  }

  lemma SoundCells(s: State)
    requires Sound(s)
    ensures forall sid | 0 <= sid < |s.cells| :: SoundCell(s.cells[sid])
  {
    hide SoundCell;
    if s.drains != [] {
      var d: nat :| SoundFor(s, d);
      forall sid | 0 <= sid < |s.cells| ensures SoundCell(s.cells[sid]) {
        assert CellSound(s.cells[sid], sid, s.drains[d]);
      }
    }
  }

  lemma {:induction false} SoundTotals(cells: seq<Cell>, live: set<nat>, base: nat)
    requires forall sid | 0 <= sid < |cells| :: SoundCell(cells[sid])
    ensures Totals(cells, live, base).NoDebt()
  {
    hide Account.Balanced; hide Account.Plus; hide Balanced; hide CellAccount; hide Account.NoDebt; hide StandingOf;
    hide SoundCell;
    if cells == [] {
      EmptyNoDebt();
    } else {
      var n := |cells| - 1;
      SoundTotals(cells[..n], live, base);
      CellBalanced(cells[n], StandingOf(n, live, base));
      PlusBalanced(Totals(cells[..n], live, base), CellAccount(cells[n], StandingOf(n, live, base)));
    }
  }

  /** With one drain at a time no byte is reported twice: the slices never hold more than was counted, in either
      direction. They hold exactly what was counted when nothing is left in a counter, dropped, taken or lost. */
  lemma ReportedAtMostCounted(states: seq<State>, events: seq<Event>)
    requires IsRun(states, events) && forall i | 0 <= i < |states| :: AtMostOneDrain(states[i])
    ensures var s := states[|events|];
            var (sent, counted, t) := (LogTotal(s.log), AddedTotal(events), TotalsOf(s));
            && sent.up <= counted.up && sent.down <= counted.down
            && (sent == counted <==>
                  && t.live == ZERO && t.detached == ZERO && t.abandoned == ZERO
                  && t.dropped == ZERO && t.taken == ZERO && t.lost == ZERO)
  {
    hide Totals; hide LogTotal; hide AddedTotal; hide AtMostOneDrain; hide Sound; hide SoundCell; hide Step;
    hide Allowed;
    Conservation(states, events);
    RunSound(states, events);
    var s := states[|events|];
    SoundCells(s);
    SoundTotals(s.cells, s.live.Values, s.base);
  }

  // ---- Overlapping drains ----

  lemma Extend(states: seq<State>, events: seq<Event>, ev: Event) returns (states': seq<State>, events': seq<Event>)
    requires IsRun(states, events) && |states| == |events| + 1 && Allowed(states[|events|], ev)
    ensures IsRun(states', events') && |states'| == |events'| + 1 && states'[|events'|] == Step(states[|events|], ev)
    ensures AddedTotal(events') == AddedTotal(events).Plus(AddedBy(ev))
  {
    hide Step; hide Allowed; hide AddedBy;
    states', events' := states + [Step(states[|events|], ev)], events + [ev];
    assert events'[..|events|] == events;
  }

  /** The same for an event that adds nothing. */
  lemma Continue(states: seq<State>, events: seq<Event>, ev: Event) returns (states': seq<State>, events': seq<Event>)
    requires IsRun(states, events) && |states| == |events| + 1 && Allowed(states[|events|], ev)
    requires !ev.AddUp? && !ev.AddDown?
    ensures IsRun(states', events') && |states'| == |events'| + 1 && states'[|events'|] == Step(states[|events|], ev)
    ensures AddedTotal(events') == AddedTotal(events)
  {
    hide Step; hide Allowed; hide AddedTotal; hide IsRun;
    states', events' := Extend(states, events, ev);
  }

  /** A drain visits the only storage, which holds ten uploaded bytes, and loads both counters. */
  lemma LoadTen(states: seq<State>, events: seq<Event>, d: nat, s: State)
    returns (states': seq<State>, events': seq<Event>)
    requires IsRun(states, events) && |states| == |events| + 1 && states[|events|] == s
    requires |s.cells| == 1 && s.cells[0].value == Bytes(10, 0) && s.live == map["u" := 0]
    requires d < |s.drains| && s.drains[d] == Ranging(0, {})
    ensures IsRun(states', events') && |states'| == |events'| + 1 && AddedTotal(events') == AddedTotal(events)
    ensures states'[|events'|] == s.(drains := s.drains[d := Visiting(0, {"u"}, "u", 0, StoreUp(10, 0))])
  {
    hide IsRun; hide AddedTotal;
    states', events' := Continue(states, events, Visit(d, "u"));
    assert {} + {"u"} == {"u"};
    var s1 := states'[|events'|];
    assert s1 == s.(drains := s.drains[d := Visiting(0, {"u"}, "u", 0, LoadUp)]);
    states', events' := Continue(states', events', Advance(d));
    LoadUpStep(s1, d);
    states', events' := Continue(states', events', Advance(d));
    LoadDownStep(AdvanceDrain(s1, d), d);
    var last := Visiting(0, {"u"}, "u", 0, StoreUp(10, 0));
    assert s.drains[d := s1.drains[d]][d := AdvanceDrain(s1, d).drains[d]][d := last]
        == s.drains[d := Visiting(0, {"u"}, "u", 0, StoreUp(10, 0))];
  }

  lemma LoadUpStep(s: State, d: nat)
    requires d < |s.drains| && s.drains[d] == Visiting(0, {"u"}, "u", 0, LoadUp)
    requires |s.cells| == 1 && s.cells[0].value == Bytes(10, 0)
    ensures AdvanceDrain(s, d) == s.(drains := s.drains[d := Visiting(0, {"u"}, "u", 0, LoadDown(10))])
  {
    assert s.cells[0 := s.cells[0]] == s.cells;
  }

  lemma LoadDownStep(s: State, d: nat)
    requires d < |s.drains| && s.drains[d] == Visiting(0, {"u"}, "u", 0, LoadDown(10))
    requires |s.cells| == 1 && s.cells[0].value == Bytes(10, 0)
    ensures AdvanceDrain(s, d) == s.(drains := s.drains[d := Visiting(0, {"u"}, "u", 0, StoreUp(10, 0))])
  {
    assert s.cells[0 := s.cells[0]] == s.cells;
  }

  /** The drain stores zero and reports the ten bytes it loaded. */
  lemma ReportTen(states: seq<State>, events: seq<Event>, d: nat, s: State)
    returns (states': seq<State>, events': seq<Event>)
    requires IsRun(states, events) && |states| == |events| + 1 && states[|events|] == s
    requires |s.cells| == 1 && s.uids == map["u" := 7]
    requires d < |s.drains| && s.drains[d] == Visiting(0, {"u"}, "u", 0, StoreUp(10, 0))
    ensures IsRun(states', events') && |states'| == |events'| + 1 && AddedTotal(events') == AddedTotal(events)
    ensures var s' := states'[|events'|];
            && |s'.cells| == 1 && s'.uids == s.uids && s'.log == s.log + [UserTraffic(7, 10, 0)]
            && |s'.drains| == |s.drains| && forall e | 0 <= e < |s.drains| && e != d :: s'.drains[e] == s.drains[e]
  {
    hide IsRun; hide AddedTotal; hide AdvanceCell;
    states', events' := Continue(states, events, Advance(d));
    states', events' := Continue(states', events', Advance(d));
    states', events' := Continue(states', events', Advance(d));
  }

  lemma EmptyRun(s: State)
    requires Initial(s)
    ensures IsRun([s], []) && AddedTotal([]) == ZERO
  {
  }

  function Idles(k: nat): seq<Drain> {
    seq(k, _ => Idle)
  }

  /** Ten bytes are counted for a user with an id, with room for k drains. */
  lemma TenCounted(k: nat) returns (states: seq<State>, events: seq<Event>)
    ensures IsRun(states, events) && |states| == |events| + 1 && AddedTotal(events) == Bytes(10, 0)
    ensures states[|events|] ==
            State([AddTo(NewCell("u"), Bytes(10, 0))], 0, map["u" := 0], map["u" := 7], Idles(k), [])
  {
    hide AddedTotal; hide AdvanceCell; hide AddTo;
    var s := State([], 0, map[], map[], Idles(k), []);
    EmptyRun(s);
    states, events := Continue([s], [], SetUid("u", 7));
    assert states[|events|] == s.(uids := map["u" := 7]);
    states, events := Continue(states, events, GetCounter("u"));
    var s2 := State([NewCell("u")], 0, map["u" := 0], map["u" := 7], Idles(k), []);
    assert states[|events|] == s2;
    states, events := Extend(states, events, AddUp(0, 10));
    AddToOnly(s2, NewCell("u"), Bytes(10, 0));
  }

  lemma AddToOnly(s: State, c: Cell, b: Bytes)
    requires s.cells == [c]
    ensures s.cells[0 := AddTo(s.cells[0], b)] == [AddTo(c, b)]
  {
  }

  /** Two drains begin. */
  lemma TwoDrainsBegin(k: nat) returns (states: seq<State>, events: seq<Event>)
    requires k >= 2
    ensures IsRun(states, events) && |states| == |events| + 1 && AddedTotal(events) == Bytes(10, 0)
    ensures var s := states[|events|];
            && |s.cells| == 1 && s.cells[0].value == Bytes(10, 0) && s.live == map["u" := 0] && s.uids == map["u" := 7]
            && |s.drains| == k && s.drains[0] == Ranging(0, {}) && s.drains[1] == Ranging(0, {}) && s.log == []
  {
    hide IsRun; hide AddedTotal; hide Step; hide Allowed; hide AddTo;
    states, events := TenCounted(k);
    var s := states[|events|];
    TenHeld();
    BeginStep(s, 0);
    states, events := Continue(states, events, Begin(0, 0));
    BeginStep(states[|events|], 1);
    states, events := Continue(states, events, Begin(1, 0));
  }

  lemma TenHeld()
    ensures AddTo(NewCell("u"), Bytes(10, 0)).value == Bytes(10, 0)
  {
  }

  lemma BeginStep(s: State, d: nat)
    requires d < |s.drains| && s.drains[d].Idle?
    ensures Allowed(s, Begin(d, 0)) && Step(s, Begin(d, 0)) == s.(drains := s.drains[d := Ranging(0, {})])
  {
  }

  /** A run with room for k drains at once. */
  ghost predicate IsRunOf(k: nat, states: seq<State>, events: seq<Event>) {
    IsRun(states, events) && |states[0].drains| == k
  }

  /** The slices of a run hold more than was counted in it. */
  ghost predicate OverReported(states: seq<State>, events: seq<Event>) {
    && |states| == |events| + 1
    && var (sent, counted) := (LogTotal(states[|events|].log), AddedTotal(events));
       sent.up > counted.up || sent.down > counted.down
  }

  /** Both have loaded the ten bytes and neither has stored zero over them. */
  lemma TwoDrainsLoad(k: nat) returns (states: seq<State>, events: seq<Event>)
    requires k >= 2
    ensures IsRun(states, events) && |states| == |events| + 1 && AddedTotal(events) == Bytes(10, 0)
    ensures var s := states[|events|];
            && |s.cells| == 1 && s.uids == map["u" := 7] && |s.drains| == k && s.log == []
            && s.drains[0] == s.drains[1] == Visiting(0, {"u"}, "u", 0, StoreUp(10, 0))
  {
    hide IsRun; hide AddedTotal;
    states, events := TwoDrainsBegin(k);
    states, events := LoadTen(states, events, 0, states[|events|]);
    states, events := LoadTen(states, events, 1, states[|events|]);
  }

  lemma TwoLines(line: UserTraffic)
    ensures LogTotal([line, line]) == Bytes(line.upload + line.upload, line.download + line.download)
  {
    assert [line, line][..1] == [line] && [line][..0] == [];
    assert LogTotal([line]) == LogTotal([]).Plus(Bytes(line.upload, line.download));
  }

  /** Two overlapping drains, as after a report that timed out and runs on while the next one starts: both load the same
      ten bytes and both report them. */
  lemma OverlappingDrainsReportTwice(k: nat)
    requires k >= 2
    ensures exists states: seq<State>, events: seq<Event> | IsRunOf(k, states, events) ::
              |states| == |events| + 1 && AddedTotal(events) == Bytes(10, 0) &&
              LogTotal(states[|events|].log) == Bytes(20, 0) && OverReported(states, events)
  {
    hide IsRun; hide AddedTotal; hide LogTotal;
    var states, events := TwoDrainsLoad(k);
    states, events := ReportTen(states, events, 0, states[|events|]);
    states, events := ReportTen(states, events, 1, states[|events|]);
    var line := UserTraffic(7, 10, 0);
    TwoLines(line);
    assert states[|events|].log == [line] + [line] == [line, line];
    DrainsOfRun(states, events, |events|);
    assert IsRunOf(k, states, events);
  }

  /** With room for k drains at once, no run ever reports more than it counted exactly if k is at most one. */
  lemma NeverOverReportedExactly(k: nat)
    ensures (forall states, events | IsRunOf(k, states, events) :: !OverReported(states, events)) <==> k <= 1
  {
    hide LogTotal; hide AddedTotal; hide Step; hide Allowed;
    if k >= 2 {
      OverlappingDrainsReportTwice(k);
    } else {
      forall states, events | IsRunOf(k, states, events) ensures !OverReported(states, events) {
        SlotsStay(states, events);
        ReportedAtMostCounted(states, events);
      }
    }
  }

  lemma {:induction false} DrainsOfRun(states: seq<State>, events: seq<Event>, i: nat)
    requires IsRun(states, events) && i <= |events|
    ensures |states[i].drains| == |states[0].drains|
  {
    if i > 0 {
      hide Step; hide Allowed;
      DrainsOfRun(states, events, i - 1);
      assert Allowed(states[i - 1], events[i - 1]) && states[i] == Step(states[i - 1], events[i - 1]);
      DrainsStay(states[i - 1], events[i - 1]);
    }
  }

  lemma SlotsStay(states: seq<State>, events: seq<Event>)
    requires IsRun(states, events) && |states[0].drains| <= 1
    ensures forall i | 0 <= i < |states| :: AtMostOneDrain(states[i])
  {
    forall i | 0 <= i < |states| ensures AtMostOneDrain(states[i]) {
      DrainsOfRun(states, events, i);
    }
  }

  // ---- Whose bytes are dropped ----

  /** Storages are visited and found under the key they were made for. */
  ghost predicate Owned(s: State) {
    && References(s)
    && (forall e | e in s.live :: s.cells[s.live[e]].owner == e)
    && (forall d | 0 <= d < |s.drains| && s.drains[d].Visiting? :: s.cells[s.drains[d].sid].owner == s.drains[d].email)
  }

  lemma StepKeepsOwned(s: State, ev: Event)
    requires Owned(s) && Allowed(s, ev)
    ensures Owned(Step(s, ev))
  {
    hide NextStage; hide Bytes.Plus; hide Bytes.Minus;
  }

  /** The event ends a visit of the key's entry while the key has no id. */
  ghost predicate DropsFor(s: State, ev: Event, email: string) {
    && ev.Advance? && ev.d < |s.drains| && s.drains[ev.d].Visiting? && s.drains[ev.d].stage.Finish?
    && s.drains[ev.d].email == email && UidOf(s, email) == 0
  }

  ghost predicate NothingDropped(s: State, email: string) {
    forall sid | 0 <= sid < |s.cells| && s.cells[sid].owner == email :: s.cells[sid].dropped == ZERO
  }

  lemma StepDropsNothing(s: State, ev: Event, email: string)
    requires Owned(s) && Allowed(s, ev) && NothingDropped(s, email) && !DropsFor(s, ev, email)
    ensures NothingDropped(Step(s, ev), email)
  {
    hide NextStage;
  }

  lemma {:induction false} RunOwned(states: seq<State>, events: seq<Event>, i: nat)
    requires IsRun(states, events) && i <= |events|
    ensures Owned(states[i])
  {
    if i > 0 {
      hide Step; hide Allowed; hide Owned;
      RunOwned(states, events, i - 1);
      assert Allowed(states[i - 1], events[i - 1]) && states[i] == Step(states[i - 1], events[i - 1]);
      StepKeepsOwned(states[i - 1], events[i - 1]);
    }
  }

  /** In every interleaving none of a key's bytes are dropped if no drain ends a visit of its entry while it has no
      id. */
  lemma {:induction false} DroppedOnlyWithoutId(states: seq<State>, events: seq<Event>, email: string, i: nat)
    requires IsRun(states, events) && i <= |events|
    requires forall j | 0 <= j < |events| :: !DropsFor(states[j], events[j], email)
    ensures NothingDropped(states[i], email)
  {
    if i > 0 {
      hide Step; hide Allowed; hide Owned; hide NothingDropped; hide DropsFor;
      DroppedOnlyWithoutId(states, events, email, i - 1);
      RunOwned(states, events, i - 1);
      assert Allowed(states[i - 1], events[i - 1]) && states[i] == Step(states[i - 1], events[i - 1]);
      StepDropsNothing(states[i - 1], events[i - 1], email);
    }
  }

  // ---- Keys, reloads and the lock ----

  /** Dropping a key leaves its bytes in a storage without a key; a connection that comes later gets a new storage, with
      counters at zero. */
  lemma DroppedKeyDetaches(s: State, email: string)
    requires Owned(s) && AllIdle(s) && email in s.live && s.base <= s.live[email]
    ensures var t := Step(s, DropKey(email));
            && email !in t.live && t.cells == s.cells && t.uids == s.uids && t.log == s.log
            && StandingOf(s.live[email], t.live.Values, t.base) == Detached
            && (forall e | e in s.live && e != email :: e in t.live && t.live[e] == s.live[e])
            && var u := Step(t, GetCounter(email));
               email in u.live && u.live[email] == |s.cells| && u.cells == s.cells + [NewCell(email)]
  {
    forall e | e in s.live && s.live[e] == s.live[email] ensures e == email {
      assert s.cells[s.live[e]].owner == e;
    }
  }

  /** A reload abandons every storage of the old core, and its ids; no line is lost or made by it. */
  lemma ReloadAbandons(s: State)
    requires AllIdle(s)
    ensures var t := Step(s, Reload);
            && t.cells == s.cells && t.log == s.log && t.uids == map[] && t.live == map[]
            && forall sid | 0 <= sid < |s.cells| :: StandingOf(sid, t.live.Values, t.base) == Abandoned
  {
  }

  /** A drain that has begun and visited nothing, or has ended its visits, can end; then the lock is free if no other
      drain holds it. */
  lemma DrainEnds(s: State, d: nat)
    requires Allowed(s, End(d)) && forall e | 0 <= e < |s.drains| && e != d :: s.drains[e].Idle?
    ensures AllIdle(Step(s, End(d))) && Step(s, End(d)).cells == s.cells && Step(s, End(d)).log == s.log
  {
  }
}
