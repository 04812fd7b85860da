/** The periodic task (common/task/task.go) as an untimed state machine. Its goroutine is the loop; an execution that
    runs out of time is abandoned but goes on in a goroutine of its own. */
module Task {
  import opened ReloadChannel

  datatype Stop = NoChannel | Open | Closed

  /** A loop that is to execute once before it waits is in its first execution until that ends. */
  datatype Loop = NotStarted | First | Waiting | Ended

  /** How one execution ends: in time without error, cancelled, with another error, or not before its deadline. */
  datatype Outcome = Fine | Cancelled | Broken | TimedOut

  /** `hears` says whether there is a channel to ask for a reload on; the jobs of Mieru nodes have none. */
  datatype State = State(hears: bool, running: bool, stop: Stop, loop: Loop, signals: nat, abandoned: nat)

  /** Calls of Start and Close, and the loop's choices: an execution, the first one or one the timer brought, ends in
      some way, or the closed stop channel is seen; and an abandoned execution ends at last. */
  datatype Event = Start(first: bool) | Tick(outcome: Outcome) | SeesStop | LateEnd | Close

  function Execute(s: State, o: Outcome): State {
    match o
    case Fine => s.(loop := Waiting)
    case Cancelled => s.(loop := Waiting)
    case Broken => s.(loop := Ended)
    case TimedOut =>
      s.(loop := Waiting, signals := if s.hears then s.signals + 1 else s.signals, abandoned := s.abandoned + 1)
  }

  /** Start returns at once: the first execution is the loop's. */
  function Started(s: State, first: bool): State {
    if s.running then s else s.(running := true, stop := Open, loop := if first then First else Waiting)
  }

  function ClosedTask(s: State): State {
    if s.running then s.(running := false, stop := Closed) else s
  }

  predicate Executes(s: State) {
    s.loop == First || s.loop == Waiting
  }

  /** The select may pick the timer even when the stop channel is closed, and nothing but its end stops the first
      execution. */
  predicate Enabled(s: State, e: Event) {
    match e
    case Start(_) => true
    case Tick(_) => Executes(s)
    case SeesStop => s.loop == Waiting && s.stop == Closed
    case LateEnd => s.abandoned > 0
    case Close => true
  }

  function Step(s: State, e: Event): State
    requires Enabled(s, e)
  {
    match e
    case Start(first) => Started(s, first)
    case Tick(o) => Execute(s, o)
    case SeesStop => s.(loop := Ended)
    case LateEnd => s.(abandoned := s.abandoned - 1)
    case Close => ClosedTask(s)
  }

  function Fresh(hears: bool): State {
    State(hears, false, NoChannel, NotStarted, 0, 0)
  }

  /** The stop channel is open exactly while the periodic job counts as running, so closing it never closes it twice. */
  ghost predicate Good(s: State) {
    && (s.running <==> s.stop == Open)
    && (s.stop == NoChannel <==> s.loop == NotStarted)
    && (if s.hears then s.abandoned <= s.signals else s.signals == 0)
  }

  ghost predicate Possible(s: State, es: seq<Event>)
    decreases |es|
  {
    es == [] || (Possible(s, es[..|es| - 1]) && Enabled(Run(s, es[..|es| - 1]), es[|es| - 1]))
  }

  ghost function Run(s: State, es: seq<Event>): State
    decreases |es|
  {
    if es == [] then s
    else
      var before, e := Run(s, es[..|es| - 1]), es[|es| - 1];
      if Enabled(before, e) then Step(before, e) else before
  }

  /** In every run, whatever the interleaving of starts, closes and executions. */
  lemma {:induction false} RunGood(hears: bool, es: seq<Event>)
    ensures Good(Run(Fresh(hears), es))
  {
    if es != [] {
      RunGood(hears, es[..|es| - 1]);
    }
  }

  ghost predicate NeverClosed(es: seq<Event>) {
    forall i | 0 <= i < |es| :: es[i] != Close
  }

  /** An execution that fails, the first or a later one, ends the loop for good: it still counts as running, so until it
      is closed no call of Start brings a loop back, and nothing is executed any more. */
  lemma {:induction false} FailedTaskStaysDead(s: State, o: Outcome, es: seq<Event>)
    requires Good(s) && s.running && Executes(s) && o == Broken && NeverClosed(es)
    ensures var r := Run(Step(s, Tick(o)), es);
            r.running && r.loop == Ended && r.signals == s.signals
  {
    if es != [] {
      assert es[|es| - 1] != Close;
      FailedTaskStaysDead(s, o, es[..|es| - 1]);
    }
  }

  /** Every call of Start finds the task running. */
  ghost predicate Unrestarted(s: State, es: seq<Event>) {
    forall i | 0 <= i < |es| && es[i].Start? :: Run(s, es[..i]).running
  }

  /** A failed execution, or a stop that is seen. */
  ghost predicate EndsLoop(e: Event) {
    e == Tick(Broken) || e == SeesStop
  }

  ghost predicate AnyEnds(es: seq<Event>) {
    exists i | 0 <= i < |es| :: EndsLoop(es[i])
  }

  /** A loop goes on executing until an execution fails or it sees the stop: nothing else ends it, neither time-outs nor
      cancelled executions nor the close itself; and a stop is seen only after a close. */
  lemma {:induction false} LoopEndsExactly(s: State, es: seq<Event>)
    requires Good(s) && Executes(s) && Possible(s, es) && Unrestarted(s, es)
    ensures Good(Run(s, es))
    ensures Executes(Run(s, es)) <==> !AnyEnds(es)
    ensures Run(s, es).loop == Ended <==> AnyEnds(es)
    ensures s.running && (SeesStop in es || !Run(s, es).running) ==> Close in es
  {
    if es != [] {
      hide Good; hide Executes; hide EndsLoop; hide Enabled; hide AnyEnds;
      var most, last := es[..|es| - 1], es[|es| - 1];
      forall i | 0 <= i < |most| && most[i].Start? ensures Run(s, most[..i]).running {
        assert es[i].Start? && es[..i] == most[..i];
      }
      LoopEndsExactly(s, most);
      assert es == most + [last];
      assert last.Start? ==> Run(s, es[..|most|]).running;
      EndsSnoc(most, last);
      StepEnds(Run(s, most), last);
    } else {
      assert !AnyEnds(es);
    }
  }

  lemma StepEnds(s: State, e: Event)
    requires Good(s) && s.loop != NotStarted && Enabled(s, e) && (e.Start? ==> s.running)
    ensures var t := Step(s, e);
            && Good(t) && t.loop != NotStarted && (Executes(t) <==> t.loop != Ended)
            && (t.loop == Ended <==> s.loop == Ended || EndsLoop(e))
            && (s.running && !t.running ==> e == Close) && (e == SeesStop ==> !s.running)
  {
  }

  lemma EndsSnoc(most: seq<Event>, last: Event)
    ensures AnyEnds(most + [last]) <==> AnyEnds(most) || EndsLoop(last)
  {
    hide EndsLoop;
    assert (most + [last])[|most|] == last;
    if i :| 0 <= i < |most| && EndsLoop(most[i]) {
      assert (most + [last])[i] == most[i];
    }
  }

  /** Start and Close: a task that does not run gets a loop, which executes at once exactly if it is asked to, and an
      open stop channel; a task that runs is closed, and its loop can end as soon as it waits. Anything else changes
      nothing. */
  lemma StartAndClose(s: State, first: bool)
    requires Good(s)
    ensures var t := Step(s, Start(first));
            if s.running then t == s
            else
              && t.running && Executes(t) && !Enabled(t, SeesStop) && (t.loop == Waiting <==> !first)
              && t.signals == s.signals && t.abandoned == s.abandoned
    ensures var t := Step(s, Close);
            if !s.running then t == s
            else
              && !t.running && t.loop == s.loop && t.signals == s.signals && t.abandoned == s.abandoned
              && (t.loop == Waiting ==> Enabled(t, SeesStop))
  {
  }

  /** An execution that ends without failing leaves the loop waiting, so that a closed loop can see the stop; a loop can
      execute whenever it waits or has its first execution to do, and an abandoned execution can always end. */
  lemma LoopProgress(s: State, o: Outcome)
    requires Good(s)
    ensures Enabled(s, Tick(o)) <==> s.loop == First || s.loop == Waiting
    ensures Enabled(s, Tick(o)) && o != Broken ==> Step(s, Tick(o)).loop == Waiting
    ensures Enabled(s, SeesStop) <==> s.loop == Waiting && !s.running
    ensures Enabled(s, LateEnd) <==> s.abandoned >= 1
    ensures Enabled(s, Start(true)) && Enabled(s, Start(false)) && Enabled(s, Close)
  {
  }

  ghost function TimeOuts(es: seq<Event>): nat {
    if es == [] then 0
    else TimeOuts(es[..|es| - 1]) + if es[|es| - 1] == Tick(TimedOut) then 1 else 0
  }

  ghost function LateEnds(es: seq<Event>): nat {
    if es == [] then 0
    else LateEnds(es[..|es| - 1]) + if es[|es| - 1] == LateEnd then 1 else 0
  }

  /** Time-outs do not stop executions: as many are still under way beside the loop as have run out of time and not
      ended. Each time-out asks for a reload once if there is a channel, and never if there is none. */
  lemma {:induction false} TimeOutsPileUp(s: State, es: seq<Event>)
    requires Possible(s, es)
    ensures Run(s, es).abandoned == s.abandoned + TimeOuts(es) - LateEnds(es)
    ensures Run(s, es).signals == s.signals + (if s.hears then TimeOuts(es) else 0) && Run(s, es).hears == s.hears
  {
    if es != [] {
      TimeOutsPileUp(s, es[..|es| - 1]);
    }
  }

  class PeriodicTask {
    const reloadCh: Channel?
    var running: bool
    var stop: Stop
    var loop: Loop
    var signals: nat
    var abandoned: nat

    ghost function View(): State
      reads this
    {
      State(reloadCh != null, running, stop, loop, signals, abandoned)
    }

    constructor (reloadCh: Channel?)
      ensures this.reloadCh == reloadCh && View() == Fresh(reloadCh != null)
    {
      this.reloadCh := reloadCh;
      running, stop, loop, signals, abandoned := false, NoChannel, NotStarted, 0, 0;
    }

    /** One execution; an abandoned one asks for a reload without waiting, if there is a channel. */
    method ExecuteWithTimeout(outcome: Outcome)
      modifies this, reloadCh
      ensures View() == Execute(old(View()), outcome)
      ensures reloadCh != null ==> reloadCh.queued == (old(reloadCh.queued) || outcome == TimedOut)
    {
      match outcome {
        case Fine => loop := Waiting;
        case Cancelled => loop := Waiting;
        case Broken => loop := Ended;
        case TimedOut =>
          abandoned := abandoned + 1;
          if reloadCh != null {
            signals := signals + 1;
            reloadCh.TrySend();
          }
          loop := Waiting;
      }
    }

    method Start(first: bool)
      modifies this
      ensures View() == Started(old(View()), first)
    {
      if running {
        return;
      }
      running := true;
      stop := Open;
      loop := if first then First else Waiting;
    }

    /** Closing a channel that is not open would be a run-time error. */
    method CloseStop()
      requires stop == Open
      modifies this`stop
      ensures stop == Closed
    {
      stop := Closed;
    }

    method SafeStop()
      requires Good(View())
      modifies this`running, this`stop
      ensures View() == ClosedTask(old(View())) && Good(View())
    {
      if running {
        running := false;
        CloseStop();
      }
    }
  }
}
