/** What the ledger's accounts call lost (core/user.go): a drain stores zero over a counter some time after it has
    loaded it, and the bytes at stake are those added in between, less those that other drains have stored zero over in
    between. Both are read off the events of the run. */
module TrafficWindows {
  import opened TrafficLedger

  /** What has happened to a storage since a drain loaded its counters: the bytes added, and those that other drains
      stored zero over. */
  datatype Window = Window(added: Bytes, zeroed: Bytes) {
    function Plus(w: Window): Window {
      Window(added.Plus(w.added), zeroed.Plus(w.zeroed))
    }
    function Net(): Bytes {
      added.Minus(zeroed)
    }
    predicate NonNegative() {
      added.NonNegative() && zeroed.NonNegative()
    }
  }

  const NOTHING := Window(ZERO, ZERO)

  /** The event is an operation of a drain on the storage. */
  predicate Operates(s: State, ev: Event, sid: nat) {
    && ev.Advance? && ev.d < |s.drains| && s.drains[ev.d].Visiting? && s.drains[ev.d].sid == sid
    && sid < |s.cells|
  }

  function StoredOver(stage: Stage, value: Bytes): Bytes {
    match stage
    case StoreUp(_, _) => Bytes(value.up, 0)
    case StoreDown(_, _) => Bytes(0, value.down)
    case _ => ZERO
  }

  /** A drain's own loads open the windows of the two counters anew. */
  function Opened(stage: Stage, w: Window): Window {
    match stage
    case LoadUp => Window(Bytes(0, w.added.down), Bytes(0, w.zeroed.down))
    case LoadDown(_) => Window(Bytes(w.added.up, 0), Bytes(w.zeroed.up, 0))
    case _ => w
  }

  /** A drain's own stores close them. */
  function Closed(stage: Stage, w: Window): Window {
    match stage
    case StoreUp(_, _) => Window(Bytes(w.added.up, 0), Bytes(w.zeroed.up, 0))
    case StoreDown(_, _) => Window(Bytes(0, w.added.down), Bytes(0, w.zeroed.down))
    case _ => NOTHING
  }

  function NextWindow(s: State, ev: Event, sid: nat, d: nat, w: Window): Window {
    if Operates(s, ev, sid) then
      var stage := s.drains[ev.d].stage;
      if ev.d == d then Opened(stage, w)
      else w.(zeroed := w.zeroed.Plus(StoredOver(stage, s.cells[sid].value)))
    else if (ev.AddUp? || ev.AddDown?) && ev.sid == sid then w.(added := w.added.Plus(AddedBy(ev)))
    else w
  }

  /** The drain's windows on the storage after the first i events. */
  function Since(states: seq<State>, events: seq<Event>, i: nat, sid: nat, d: nat): Window
    requires i <= |events| <= |states|
  {
    if i == 0 then NOTHING
    else NextWindow(states[i - 1], events[i - 1], sid, d, Since(states, events, i - 1, sid, d))
  }

  /** The sum of all windows closed on the storage in the first i events. */
  function Late(states: seq<State>, events: seq<Event>, i: nat, sid: nat): Window
    requires i <= |events| <= |states|
  {
    if i == 0 then NOTHING
    else
      var (s, ev) := (states[i - 1], events[i - 1]);
      Late(states, events, i - 1, sid).Plus(
        if Operates(s, ev, sid) then Closed(s.drains[ev.d].stage, Since(states, events, i - 1, sid, ev.d)) else NOTHING)
  }

  // ---- One storage ----

  /** What a drain has loaded and not yet stored over differs from the counter by what happened in its window. */
  predicate Tracks(c: Cell, stage: Stage, w: Window) {
    match stage
    case LoadDown(up) => c.value.up == up + w.Net().up
    case StoreUp(up, down) => c.value == Bytes(up, down).Plus(w.Net())
    case StoreDown(_, down) => c.value.down == down + w.Net().down
    case _ => true
  }

  predicate Follows(s: State, sid: nat, d: nat, w: Window) {
    d < |s.drains| && s.drains[d].Visiting? && s.drains[d].sid == sid && sid < |s.cells| ==>
      Tracks(s.cells[sid], s.drains[d].stage, w)
  }

  lemma OwnOperation(c: Cell, stage: Stage, known: bool, mintraffic: int, w: Window)
    requires Tracks(c, stage, w)
    ensures var c', next := AdvanceCell(c, stage, known), NextStage(c, stage, mintraffic);
            && (next.Some? ==> Tracks(c', next.value, Opened(stage, w)))
            && c'.lost == c.lost.Plus(Closed(stage, w).Net())
  {
  }

  lemma OtherOperation(c: Cell, stage: Stage, other: Stage, known: bool, w: Window)
    requires Tracks(c, stage, w)
    ensures Tracks(AdvanceCell(c, other, known), stage, w.(zeroed := w.zeroed.Plus(StoredOver(other, c.value))))
  {
  }

  lemma AddTracks(c: Cell, stage: Stage, b: Bytes, w: Window)
    requires Tracks(c, stage, w)
    ensures Tracks(AddTo(c, b), stage, w.(added := w.added.Plus(b)))
  {
  }

  lemma StepFollows(s: State, ev: Event, sid: nat, d: nat, w: Window)
    requires References(s) && Allowed(s, ev) && Follows(s, sid, d, w)
    ensures Follows(Step(s, ev), sid, d, NextWindow(s, ev, sid, d, w))
  {
    hide Tracks; hide AdvanceCell; hide NextStage; hide AddTo; hide Opened; hide StoredOver;
    if Operates(s, ev, sid) {
      var p := s.drains[ev.d];
      var known := UidOf(s, p.email) != 0;
      if ev.d == d {
        OwnOperation(s.cells[sid], p.stage, known, p.mintraffic, w);
      } else if d < |s.drains| && s.drains[d].Visiting? && s.drains[d].sid == sid {
        OtherOperation(s.cells[sid], s.drains[d].stage, p.stage, known, w);
      }
    } else if (ev.AddUp? || ev.AddDown?) && ev.sid == sid {
      if d < |s.drains| && s.drains[d].Visiting? && s.drains[d].sid == sid {
        AddTracks(s.cells[sid], s.drains[d].stage, AddedBy(ev), w);
      }
    } else if ev.Visit? {
      LoadUpTracks(s, sid, w);
    }
  }

  lemma LoadUpTracks(s: State, sid: nat, w: Window)
    ensures sid < |s.cells| ==> Tracks(s.cells[sid], LoadUp, w)
  {
  }

  lemma {:induction false} RunFollows(states: seq<State>, events: seq<Event>, i: nat, sid: nat, d: nat)
    requires IsRun(states, events) && i <= |events|
    ensures Follows(states[i], sid, d, Since(states, events, i, sid, d))
  {
    if i > 0 {
      hide Step; hide Allowed; hide Follows; hide NextWindow; hide Owned;
      RunFollows(states, events, i - 1, sid, d);
      RunOwned(states, events, i - 1);
      OwnedRefers(states[i - 1]);
      assert Allowed(states[i - 1], events[i - 1]) && states[i] == Step(states[i - 1], events[i - 1]);
      StepFollows(states[i - 1], events[i - 1], sid, d, Since(states, events, i - 1, sid, d));
    }
  }

  lemma OwnedRefers(s: State)
    requires Owned(s)
    ensures References(s)
  {
  }

  /** One event and what it adds to the lost bytes of a storage. */
  lemma StepLoses(s: State, ev: Event, sid: nat, w: Window)
    requires Allowed(s, ev) && sid < |s.cells|
    requires Operates(s, ev, sid) ==> Follows(s, sid, ev.d, w)
    ensures sid < |Step(s, ev).cells|
    ensures Step(s, ev).cells[sid].lost ==
            s.cells[sid].lost.Plus(if Operates(s, ev, sid) then Closed(s.drains[ev.d].stage, w).Net() else ZERO)
  {
    hide Tracks; hide AdvanceCell; hide NextStage; hide Opened; hide Closed;
    if Operates(s, ev, sid) {
      var p := s.drains[ev.d];
      OwnOperation(s.cells[sid], p.stage, UidOf(s, p.email) != 0, p.mintraffic, w);
    }
  }

  ghost predicate LostAs(s: State, sid: nat, late: Window) {
    if sid < |s.cells| then s.cells[sid].lost == late.Net() else late == NOTHING
  }

  lemma StepLostAs(s: State, ev: Event, sid: nat, late: Window, w: Window)
    requires Allowed(s, ev) && LostAs(s, sid, late)
    requires Operates(s, ev, sid) ==> Follows(s, sid, ev.d, w)
    ensures LostAs(Step(s, ev), sid,
                   late.Plus(if Operates(s, ev, sid) then Closed(s.drains[ev.d].stage, w) else NOTHING))
  {
    hide Follows; hide Closed; hide Step; hide Window.Net; hide Window.Plus; hide Bytes.Plus;
    if sid >= |s.cells| {
      NotThereYet(s, ev, sid);
      NothingMore(late, NOTHING);
    } else {
      StepLoses(s, ev, sid, w);
      if Operates(s, ev, sid) {
        NetOfSum(late, Closed(s.drains[ev.d].stage, w));
      } else {
        NetOfSum(late, NOTHING);
        NothingMore(late, NOTHING);
      }
    }
  }

  lemma NetOfSum(a: Window, b: Window)
    ensures a.Plus(b).Net() == a.Net().Plus(b.Net())
  {
  }

  lemma NothingMore(w: Window, n: Window)
    requires n == NOTHING
    ensures w.Plus(n) == w && n.Net() == ZERO
  {
  }

  lemma NotThereYet(s: State, ev: Event, sid: nat)
    requires Allowed(s, ev) && sid >= |s.cells|
    ensures !Operates(s, ev, sid)
    ensures sid < |Step(s, ev).cells| ==> Step(s, ev).cells[sid].lost == ZERO
  {
    hide AdvanceCell; hide NextStage; hide AddTo;
  }

  /** In every interleaving, with any number of drains: what a storage has lost is what was added to it in the windows
      between loads and stores, less what other drains stored zero over in them. */
  lemma {:induction false} LostExactly(states: seq<State>, events: seq<Event>, i: nat, sid: nat)
    requires IsRun(states, events) && i <= |events|
    ensures LostAs(states[i], sid, Late(states, events, i, sid))
  {
    if i > 0 {
      hide Step; hide Allowed; hide Follows; hide LostAs; hide Closed; hide Since;
      LostExactly(states, events, i - 1, sid);
      var (s, ev) := (states[i - 1], events[i - 1]);
      assert Allowed(s, ev) && states[i] == Step(s, ev);
      if Operates(s, ev, sid) {
        RunFollows(states, events, i - 1, sid, ev.d);
        StepLostAs(s, ev, sid, Late(states, events, i - 1, sid), Since(states, events, i - 1, sid, ev.d));
      } else {
        StepLostAs(s, ev, sid, Late(states, events, i - 1, sid), NOTHING);
      }
    } else {
      assert states[0].cells == [];
    }
  }

  // ---- All storages ----

  /** The windows closed on the first n storages. */
  function LateTotal(states: seq<State>, events: seq<Event>, n: nat): Window
    requires |events| <= |states|
  {
    if n == 0 then NOTHING else LateTotal(states, events, n - 1).Plus(Late(states, events, |events|, n - 1))
  }

  lemma {:induction false} LostTotal(states: seq<State>, events: seq<Event>, cells: seq<Cell>, live: set<nat>,
                                     base: nat)
    requires IsRun(states, events) && cells <= states[|events|].cells
    ensures Totals(cells, live, base).lost == LateTotal(states, events, |cells|).Net()
  {
    if cells != [] {
      hide IsRun; hide Late;
      var n := |cells| - 1;
      LostTotal(states, events, cells[..n], live, base);
      LostExactly(states, events, |events|, n);
      assert cells[n] == states[|events|].cells[n];
    }
  }

  // ---- Nothing negative ----

  /** Counters and what drains have loaded are never negative. */
  predicate StagePositive(stage: Stage) {
    match stage
    case LoadUp => true
    case LoadDown(up) => up >= 0
    case StoreUp(up, down) => up >= 0 && down >= 0
    case StoreDown(up, down) => up >= 0 && down >= 0
    case Finish(up, down) => up >= 0 && down >= 0
  }

  ghost predicate Positive(s: State) {
    && (forall sid | 0 <= sid < |s.cells| :: s.cells[sid].value.NonNegative() && s.cells[sid].dropped.NonNegative())
    && (forall d | 0 <= d < |s.drains| && s.drains[d].Visiting? :: StagePositive(s.drains[d].stage))
  }

  lemma AdvancePositive(c: Cell, stage: Stage, known: bool, mintraffic: int)
    requires c.value.NonNegative() && c.dropped.NonNegative() && StagePositive(stage)
    ensures var c', next := AdvanceCell(c, stage, known), NextStage(c, stage, mintraffic);
            && c'.value.NonNegative() && c'.dropped.NonNegative()
            && (next.Some? ==> StagePositive(next.value))
  {
  }

  lemma StepKeepsPositive(s: State, ev: Event)
    requires Positive(s) && Allowed(s, ev)
    ensures Positive(Step(s, ev))
  {
    hide StagePositive; hide AdvanceCell; hide NextStage;
    if ev.Advance? {
      var p := s.drains[ev.d];
      AdvancePositive(s.cells[p.sid], p.stage, UidOf(s, p.email) != 0, p.mintraffic);
    } else if ev.Visit? {
      FirstPositive();
    }
  }

  lemma FirstPositive()
    ensures StagePositive(LoadUp)
  {
  }

  /** What a drain has stored over in a storage and not accounted for. */
  function Held(p: Drain, sid: nat): Bytes {
    if !p.Visiting? || p.sid != sid then ZERO
    else
      match p.stage
      case StoreDown(up, _) => Bytes(up, 0)
      case Finish(up, down) => Bytes(up, down)
      case _ => ZERO
  }

  function SumHeld(drains: seq<Drain>, sid: nat): Bytes {
    if drains == [] then ZERO else SumHeld(drains[..|drains| - 1], sid).Plus(Held(drains[|drains| - 1], sid))
  }

  lemma {:induction false} UpdateHeld(drains: seq<Drain>, d: nat, p: Drain, sid: nat)
    requires d < |drains|
    ensures SumHeld(drains[d := p], sid) == SumHeld(drains, sid).Plus(Held(p, sid).Minus(Held(drains[d], sid)))
  {
    hide Held;
    var n := |drains| - 1;
    if d == n {
      assert drains[d := p][..n] == drains[..n];
    } else {
      UpdateHeld(drains[..n], d, p, sid);
      assert drains[d := p][..n] == drains[..n][d := p];
    }
  }

  predicate HoldsNone(p: Drain, sid: nat) {
    Held(p, sid) == ZERO
  }

  lemma {:induction false} NoneHeld(drains: seq<Drain>, sid: nat)
    requires forall d | 0 <= d < |drains| :: HoldsNone(drains[d], sid)
    ensures SumHeld(drains, sid) == ZERO
  {
    if drains != [] {
      NoneHeld(drains[..|drains| - 1], sid);
      LastHoldsNone(drains, sid);
    }
  }

  lemma LastHoldsNone(drains: seq<Drain>, sid: nat)
    requires drains != [] && HoldsNone(drains[|drains| - 1], sid)
    ensures SumHeld(drains, sid) == SumHeld(drains[..|drains| - 1], sid)
  {
    hide Held;
    NothingAdded(SumHeld(drains[..|drains| - 1], sid));
  }

  lemma NothingAdded(b: Bytes)
    ensures b.Plus(ZERO) == b
  {
  }

  lemma {:induction false} HeldPositive(drains: seq<Drain>, sid: nat)
    requires forall d | 0 <= d < |drains| && drains[d].Visiting? :: StagePositive(drains[d].stage)
    ensures SumHeld(drains, sid).NonNegative()
  {
    if drains != [] {
      HeldPositive(drains[..|drains| - 1], sid);
      assert drains[|drains| - 1].Visiting? ==> StagePositive(drains[|drains| - 1].stage);
    }
  }

  /** A storage's taken bytes are those that the drains hold, however many visit it. */
  ghost predicate TakenHeld(s: State, sid: nat) {
    sid < |s.cells| ==> s.cells[sid].taken == SumHeld(s.drains, sid)
  }

  lemma AdvanceHeld(c: Cell, p: Drain, known: bool, sid: nat)
    requires p.Visiting?
    ensures var c', next := AdvanceCell(c, p.stage, known), NextStage(c, p.stage, p.mintraffic);
            var p' := if next.Some? then p.(stage := next.value) else Ranging(p.mintraffic, p.seen);
            && (p.sid == sid ==> c'.taken == c.taken.Plus(Held(p', sid).Minus(Held(p, sid))))
            && (p.sid != sid ==> Held(p', sid) == Held(p, sid))
  {
  }

  lemma StepTakenHeld(s: State, ev: Event, sid: nat)
    requires References(s) && Allowed(s, ev) && TakenHeld(s, sid)
    ensures TakenHeld(Step(s, ev), sid)
  {
    hide AdvanceCell; hide NextStage; hide SumHeld;
    match ev {
      case GetCounter(_) =>
        if sid == |s.cells| {
          NoneHeld(s.drains, sid);
        }
      case Begin(d, _) => UpdateHeld(s.drains, d, Step(s, ev).drains[d], sid);
      case Visit(d, _) => UpdateHeld(s.drains, d, Step(s, ev).drains[d], sid);
      case End(d) => UpdateHeld(s.drains, d, Step(s, ev).drains[d], sid);
      case Advance(d) =>
        var p := s.drains[d];
        AdvanceHeld(s.cells[p.sid], p, UidOf(s, p.email) != 0, sid);
        UpdateHeld(s.drains, d, Step(s, ev).drains[d], sid);
      case _ =>
    }
  }

  lemma {:induction false} RunPositive(states: seq<State>, events: seq<Event>, i: nat, sid: nat)
    requires IsRun(states, events) && i <= |events|
    ensures Positive(states[i]) && TakenHeld(states[i], sid)
  {
    if i > 0 {
      hide Step; hide Allowed; hide Positive; hide TakenHeld; hide Owned;
      RunPositive(states, events, i - 1, sid);
      RunOwned(states, events, i - 1);
      OwnedRefers(states[i - 1]);
      assert Allowed(states[i - 1], events[i - 1]) && states[i] == Step(states[i - 1], events[i - 1]);
      StepKeepsPositive(states[i - 1], events[i - 1]);
      StepTakenHeld(states[i - 1], events[i - 1], sid);
    }
  }

  lemma {:induction false} TotalsPositive(states: seq<State>, events: seq<Event>, cells: seq<Cell>, live: set<nat>,
                                          base: nat)
    requires IsRun(states, events) && cells <= states[|events|].cells
    ensures var t := Totals(cells, live, base);
            && t.live.NonNegative() && t.detached.NonNegative() && t.abandoned.NonNegative()
            && t.dropped.NonNegative() && t.taken.NonNegative()
  {
    if cells != [] {
      hide IsRun; hide SumHeld; hide StagePositive; hide StandingOf;
      var n := |cells| - 1;
      TotalsPositive(states, events, cells[..n], live, base);
      RunPositive(states, events, |events|, n);
      HeldPositive(states[|events|].drains, n);
      assert cells[n] == states[|events|].cells[n];
    }
  }

  lemma {:induction false} SincePositive(states: seq<State>, events: seq<Event>, i: nat, sid: nat, d: nat)
    requires IsRun(states, events) && i <= |events|
    ensures Since(states, events, i, sid, d).NonNegative()
  {
    if i > 0 {
      hide IsRun;
      SincePositive(states, events, i - 1, sid, d);
      RunPositive(states, events, i - 1, sid);
    }
  }

  lemma {:induction false} LatePositive(states: seq<State>, events: seq<Event>, i: nat, sid: nat)
    requires IsRun(states, events) && i <= |events|
    ensures Late(states, events, i, sid).NonNegative()
  {
    if i > 0 {
      hide IsRun; hide Since;
      LatePositive(states, events, i - 1, sid);
      if Operates(states[i - 1], events[i - 1], sid) {
        SincePositive(states, events, i - 1, sid, events[i - 1].d);
      }
    }
  }

  lemma {:induction false} LateTotalPositive(states: seq<State>, events: seq<Event>, n: nat)
    requires IsRun(states, events)
    ensures LateTotal(states, events, n).NonNegative()
  {
    if n > 0 {
      hide IsRun; hide Late;
      LateTotalPositive(states, events, n - 1);
      LatePositive(states, events, |events|, n - 1);
    }
  }

  // ---- What is over-reported ----

  /** In every interleaving, with any number of drains, what is counted and what drains stored zero over in each other's
      windows together is what is reported, held in counters, dropped, taken, or was added in a window. So no more is
      reported beyond what was counted than drains have stored zero over in each other's windows. */
  lemma OverReportBounded(states: seq<State>, events: seq<Event>)
    requires IsRun(states, events)
    ensures var (s, late) := (states[|events|], LateTotal(states, events, |states[|events|].cells|));
            var (sent, counted, t) := (LogTotal(s.log), AddedTotal(events), TotalsOf(s));
            && late.NonNegative()
            && counted.Plus(late.zeroed) ==
               sent.Plus(t.live).Plus(t.detached).Plus(t.abandoned).Plus(t.dropped).Plus(t.taken).Plus(late.added)
            && sent.up <= counted.up + late.zeroed.up && sent.down <= counted.down + late.zeroed.down
  {
    assert |states| == |events| + 1;
    hide IsRun; hide Totals; hide LogTotal; hide AddedTotal; hide LateTotal;
    var s := states[|events|];
    Conservation(states, events);
    LostTotal(states, events, s.cells, s.live.Values, s.base);
    TotalsPositive(states, events, s.cells, s.live.Values, s.base);
    LateTotalPositive(states, events, |s.cells|);
  }

  // ---- One drain at a time ----

  /** While a drain visits a storage no other drain stores zero over it. */
  predicate Alone(stage: Stage, w: Window) {
    match stage
    case LoadUp => true
    case LoadDown(_) => w.zeroed.up == 0
    case _ => w.zeroed == ZERO
  }

  predicate AloneFor(s: State, sid: nat, d: nat, w: Window) {
    d < |s.drains| && s.drains[d].Visiting? && s.drains[d].sid == sid ==> Alone(s.drains[d].stage, w)
  }

  lemma StepAlone(s: State, ev: Event, sid: nat, d: nat, w: Window)
    requires AtMostOneDrain(s) && References(s) && Allowed(s, ev) && AloneFor(s, sid, d, w)
    ensures AloneFor(Step(s, ev), sid, d, NextWindow(s, ev, sid, d, w))
  {
    hide AdvanceCell; hide AddTo;
    if ev.Advance? && ev.d != d && d < |s.drains| {
      assert if d < ev.d then s.drains[d].Idle? else s.drains[d].Idle?;
    }
  }

  lemma {:induction false} RunAlone(states: seq<State>, events: seq<Event>, i: nat, sid: nat, d: nat)
    requires IsRun(states, events) && i <= |events| && forall j | 0 <= j < |states| :: AtMostOneDrain(states[j])
    ensures AloneFor(states[i], sid, d, Since(states, events, i, sid, d))
  {
    if i > 0 {
      hide Step; hide Allowed; hide AloneFor; hide NextWindow; hide AtMostOneDrain; hide Owned;
      RunAlone(states, events, i - 1, sid, d);
      RunOwned(states, events, i - 1);
      OwnedRefers(states[i - 1]);
      assert Allowed(states[i - 1], events[i - 1]) && states[i] == Step(states[i - 1], events[i - 1]);
      StepAlone(states[i - 1], events[i - 1], sid, d, Since(states, events, i - 1, sid, d));
    }
  }

  lemma {:induction false} NothingZeroed(states: seq<State>, events: seq<Event>, i: nat, sid: nat)
    requires IsRun(states, events) && i <= |events| && forall j | 0 <= j < |states| :: AtMostOneDrain(states[j])
    ensures Late(states, events, i, sid).zeroed == ZERO
  {
    if i > 0 {
      hide IsRun; hide AtMostOneDrain; hide Since; hide AloneFor; hide Closed;
      NothingZeroed(states, events, i - 1, sid);
      var (s, ev) := (states[i - 1], events[i - 1]);
      if Operates(s, ev, sid) {
        RunAlone(states, events, i - 1, sid, ev.d);
        AloneCloses(s, sid, ev.d, Since(states, events, i - 1, sid, ev.d));
      }
    }
  }

  lemma AloneCloses(s: State, sid: nat, d: nat, w: Window)
    requires d < |s.drains| && s.drains[d].Visiting? && s.drains[d].sid == sid && AloneFor(s, sid, d, w)
    ensures Closed(s.drains[d].stage, w).zeroed == ZERO
  {
  }

  lemma {:induction false} NothingZeroedAtAll(states: seq<State>, events: seq<Event>, n: nat)
    requires IsRun(states, events) && forall j | 0 <= j < |states| :: AtMostOneDrain(states[j])
    ensures LateTotal(states, events, n).zeroed == ZERO
  {
    if n > 0 {
      hide IsRun; hide AtMostOneDrain; hide Late;
      NothingZeroedAtAll(states, events, n - 1);
      NothingZeroed(states, events, |events|, n - 1);
    }
  }

  /** With one drain at a time what is lost is exactly what was added between its loads and its stores. */
  lemma OneDrainLoses(states: seq<State>, events: seq<Event>)
    requires IsRun(states, events) && forall j | 0 <= j < |states| :: AtMostOneDrain(states[j])
    ensures var (s, late) := (states[|events|], LateTotal(states, events, |states[|events|].cells|));
            var t := TotalsOf(s);
            && t.lost == late.added
            && AddedTotal(events) ==
               LogTotal(s.log).Plus(t.live).Plus(t.detached).Plus(t.abandoned).Plus(t.dropped).Plus(t.taken)
               .Plus(late.added)
  {
    assert |states| == |events| + 1;
    hide IsRun; hide AtMostOneDrain; hide Totals; hide LogTotal; hide AddedTotal; hide LateTotal;
    var s := states[|events|];
    Conservation(states, events);
    LostTotal(states, events, s.cells, s.live.Values, s.base);
    NothingZeroedAtAll(states, events, |s.cells|);
  }
}
