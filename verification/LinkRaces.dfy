/** One user's connections against the removal of the user (core/app/dispatcher/default.go, core/user.go), step by step:
    a connection looks for the user's link manager, stores a new one if it found none, and attaches its link, and the
    removal finds a manager, closes its entries one by one and forgets whatever manager is stored by then. Nothing makes
    any two of these steps one. */
module LinkRaces {
  import opened Optional

  /** What a connection knows of the manager, before its link is attached. */
  datatype Stage = Missed | Holds(manager: nat)

  /** Only connections through Dispatch are tracked, that is, entered in the manager. */
  datatype Connection = Connection(tracked: bool, stage: Stage)

  datatype Link = Link(manager: nat, tracked: bool, open: bool)

  /** The entries that the removal has found and that are still to be closed. */
  datatype Removal = Idle | Closing(manager: nat, left: set<nat>) | Leaving

  /** Managers are numbered in the order they are made; connections and their links share numbers. */
  datatype State = State(stored: Option<nat>, made: nat, connections: map<nat, Connection>, links: map<nat, Link>,
                         removal: Removal)

  datatype Event =
    | Load(c: nat, tracked: bool)
    | Store(c: nat)
    | Attach(c: nat)
    | Close(c: nat)
    | Find
    | Visit(c: nat)
    | Finish
    | Forget

  const START := State(None, 0, map[], map[], Idle)

  /** An entry is there as long as a tracked link is open. */
  predicate Listed(l: Link, manager: nat) {
    l.tracked && l.open && l.manager == manager
  }

  /** Entries that come while a removal goes through them may be visited or not. */
  predicate Allowed(s: State, ev: Event) {
    match ev
    case Load(c, _) => c !in s.connections && c !in s.links
    case Store(c) => c in s.connections && s.connections[c].stage.Missed?
    case Attach(c) => c in s.connections && s.connections[c].stage.Holds?
    case Close(c) => c in s.links && s.links[c].open
    case Find => s.removal.Idle?
    case Visit(c) => s.removal.Closing? && c in s.links && Listed(s.links[c], s.removal.manager)
    case Finish => s.removal.Closing? && s.removal.left == {}
    case Forget => s.removal.Leaving?
  }

  function CloseLink(s: State, c: nat): State
    requires c in s.links
  {
    s.(links := s.links[c := s.links[c].(open := false)],
       removal := if s.removal.Closing? then s.removal.(left := s.removal.left - {c}) else s.removal)
  }

  function Entries(s: State, manager: nat): set<nat> {
    set c | c in s.links && Listed(s.links[c], manager)
  }

  function Step(s: State, ev: Event): State
    requires Allowed(s, ev)
  {
    match ev
    case Load(c, tracked) =>
      s.(connections := s.connections[c := Connection(tracked, if s.stored.Some? then Holds(s.stored.value)
                                                      else Missed)])
    case Store(c) =>
      s.(stored := Some(s.made), made := s.made + 1,
         connections := s.connections[c := s.connections[c].(stage := Holds(s.made))])
    case Attach(c) =>
      s.(links := s.links[c := Link(s.connections[c].stage.manager, s.connections[c].tracked, true)],
         connections := s.connections - {c})
    case Close(c) => CloseLink(s, c)
    case Find =>
      if s.stored.Some? then s.(removal := Closing(s.stored.value, Entries(s, s.stored.value))) else s
    case Visit(c) => CloseLink(s, c)
    case Finish => s.(removal := Leaving)
    case Forget => s.(stored := None, removal := Idle)
  }

  ghost predicate IsRun(states: seq<State>, events: seq<Event>) {
    && |states| == |events| + 1 && states[0] == START
    && forall i | 0 <= i < |events| :: Allowed(states[i], events[i]) && states[i + 1] == Step(states[i], events[i])
  }

  // ---- Which manager is stored ----

  predicate Displaces(ev: Event) {
    ev.Store? || ev.Forget?
  }

  ghost predicate NoneDisplaces(events: seq<Event>, i: nat, j: nat) {
    forall k | i <= k < j && k < |events| :: !Displaces(events[k])
  }

  lemma {:induction false} StoredWasMade(states: seq<State>, events: seq<Event>, i: nat)
    requires IsRun(states, events) && i <= |events|
    ensures states[i].stored.Some? ==> states[i].stored.value < states[i].made
  {
    if i > 0 {
      StoredWasMade(states, events, i - 1);
      assert Allowed(states[i - 1], events[i - 1]) && states[i] == Step(states[i - 1], events[i - 1]);
    }
  }

  /** A stored manager stays exactly until a connection stores another or a removal forgets it, and never comes back. */
  lemma {:induction false} StoredExactly(states: seq<State>, events: seq<Event>, i: nat, j: nat, m: nat)
    requires IsRun(states, events) && i <= j <= |events| && states[i].stored == Some(m)
    ensures states[j].stored == Some(m) <==> NoneDisplaces(events, i, j)
    ensures m < states[j].made
    decreases j
  {
    StoredWasMade(states, events, i);
    if i < j {
      StoredExactly(states, events, i, j - 1, m);
      assert Allowed(states[j - 1], events[j - 1]) && states[j] == Step(states[j - 1], events[j - 1]);
      assert NoneDisplaces(events, i, j) <==> NoneDisplaces(events, i, j - 1) && !Displaces(events[j - 1]);
    }
  }

  // ---- Whose manager a link has ----

  /** By this step the connection gets its manager: it finds one or stores one. */
  predicate Gets(s: State, ev: Event, c: nat) {
    ev == Store(c) || (ev.Load? && ev.c == c && s.stored.Some?)
  }

  ghost predicate Carries(s: State, c: nat, m: nat) {
    && (c in s.connections || c in s.links)
    && (c in s.connections ==> s.connections[c].stage == Holds(m) && c !in s.links)
    && (c in s.links ==> s.links[c].manager == m)
  }

  lemma {:induction false} Disjoint(states: seq<State>, events: seq<Event>, i: nat)
    requires IsRun(states, events) && i <= |events|
    ensures states[i].connections.Keys !! states[i].links.Keys
  {
    if i > 0 {
      Disjoint(states, events, i - 1);
      assert Allowed(states[i - 1], events[i - 1]) && states[i] == Step(states[i - 1], events[i - 1]);
    }
  }

  lemma GetsStored(s: State, ev: Event, c: nat)
    requires Allowed(s, ev) && Gets(s, ev, c) && s.connections.Keys !! s.links.Keys
    ensures Step(s, ev).stored.Some? && Carries(Step(s, ev), c, Step(s, ev).stored.value)
  {
  }

  lemma StepCarries(s: State, ev: Event, c: nat, m: nat)
    requires Allowed(s, ev) && Carries(s, c, m)
    ensures Carries(Step(s, ev), c, m)
  {
  }

  /** The manager is the one stored at that moment, and the link keeps it. */
  lemma {:induction false} LinkKeepsManager(states: seq<State>, events: seq<Event>, i: nat, j: nat, c: nat)
    requires IsRun(states, events) && i < j <= |events| && Gets(states[i], events[i], c)
    ensures states[i + 1].stored.Some? && Carries(states[j], c, states[i + 1].stored.value)
    decreases j
  {
    hide Step; hide Allowed; hide Carries; hide Gets;
    assert Allowed(states[j - 1], events[j - 1]) && states[j] == Step(states[j - 1], events[j - 1]);
    if i + 1 < j {
      LinkKeepsManager(states, events, i, j - 1, c);
      StepCarries(states[j - 1], events[j - 1], c, states[i + 1].stored.value);
    } else {
      Disjoint(states, events, i);
      GetsStored(states[i], events[i], c);
    }
  }

  // ---- A removal ----

  /** The removal goes on from the event k, by which it finds a manager, to the event j. */
  ghost predicate Removing(states: seq<State>, events: seq<Event>, k: nat, j: nat) {
    && k < j <= |events| < |states| && events[k] == Find && states[k].stored.Some?
    && forall n | k < n < j :: !events[n].Finish?
  }

  ghost predicate NotClosedItself(events: seq<Event>, c: nat, k: nat, j: nat) {
    forall n | k <= n < j && n < |events| :: events[n] != Close(c)
  }

  /** A link there from the start of the removal is among those to be closed as long as it has an entry with the
      manager found; any other stays as it is. */
  ghost predicate InHand(s: State, c: nat, was: Link, m: nat, alone: bool) {
    && s.removal.Closing? && s.removal.manager == m && c in s.links
    && s.links[c].manager == was.manager && s.links[c].tracked == was.tracked
    && (c in s.removal.left <==> Listed(s.links[c], m))
    && (alone && !(was.tracked && was.manager == m) ==> s.links[c].open == was.open)
  }

  lemma StepInHand(s: State, ev: Event, c: nat, was: Link, m: nat, alone: bool)
    requires Allowed(s, ev) && InHand(s, c, was, m, alone) && !ev.Finish? && c !in s.connections
    ensures InHand(Step(s, ev), c, was, m, alone && ev != Close(c))
  {
  }

  lemma {:induction false} DuringRemoval(states: seq<State>, events: seq<Event>, k: nat, j: nat, c: nat)
    requires IsRun(states, events) && Removing(states, events, k, j) && c in states[k].links
    ensures InHand(states[j], c, states[k].links[c], states[k].stored.value, NotClosedItself(events, c, k, j))
    decreases j
  {
    var (was, m) := (states[k].links[c], states[k].stored.value);
    if j == k + 1 {
      assert Allowed(states[k], events[k]) && states[j] == Step(states[k], events[k]);
    } else {
      DuringRemoval(states, events, k, j - 1, c);
      Disjoint(states, events, j - 1);
      assert Allowed(states[j - 1], events[j - 1]) && states[j] == Step(states[j - 1], events[j - 1]);
      StepInHand(states[j - 1], events[j - 1], c, was, m, NotClosedItself(events, c, k, j - 1));
    }
  }

  /** In every interleaving: a link that is open when the removal of its user finds a manager, and does not close of its
      own accord, is closed by the end of the removal exactly if it is tracked and since its connection got its manager
      no connection has stored another and no removal has forgotten it. */
  lemma RemovalClosesExactly(states: seq<State>, events: seq<Event>, i: nat, k: nat, e: nat, c: nat)
    requires IsRun(states, events) && i < k && e < |events| && Removing(states, events, k, e) && events[e] == Finish
    requires Gets(states[i], events[i], c) && c in states[k].links && states[k].links[c].open
    requires NotClosedItself(events, c, k, e)
    ensures c in states[e + 1].links
    ensures !states[e + 1].links[c].open <==> states[k].links[c].tracked && NoneDisplaces(events, i + 1, k)
  {
    assert Allowed(states[e], events[e]) && states[e + 1] == Step(states[e], events[e]);
    LinkKeepsManager(states, events, i, k, c);
    Disjoint(states, events, k);
    StoredExactly(states, events, i + 1, k, states[i + 1].stored.value);
    DuringRemoval(states, events, k, e, c);
  }

  /** A removal that has closed what it found can forget the manager, whichever is stored by then, and after that
      another one can begin; neither touches a link or a connection. */
  lemma RemovalLeaves(s: State)
    requires Allowed(s, Finish)
    ensures Allowed(Step(s, Finish), Forget)
    ensures var t := Step(Step(s, Finish), Forget);
            t.stored == None && t.links == s.links && t.connections == s.connections && t.made == s.made &&
            Allowed(t, Find)
  {
  }

  // ---- Two first connections ----

  ghost predicate Reaches(states: seq<State>, events: seq<Event>, s: State) {
    |states| == |events| + 1 && IsRun(states, events) && states[|events|] == s
  }

  lemma Extend(states: seq<State>, events: seq<Event>, s: State, ev: Event)
    returns (states': seq<State>, events': seq<Event>)
    requires Reaches(states, events, s) && Allowed(s, ev)
    ensures Reaches(states', events', Step(s, ev)) && events' == events + [ev]
  {
    hide Step; hide Allowed;
    states', events' := states + [Step(s, ev)], events + [ev];
  }

  /** Both look for the manager before either has stored one. */
  lemma BothMiss(s: State) returns (states: seq<State>, events: seq<Event>, s': State)
    requires s == START
    ensures Reaches(states, events, s')
    ensures s'.stored == None && s'.made == 0 && s'.removal == Idle && s'.links == map[]
    ensures s'.connections == map[0 := Connection(true, Missed), 1 := Connection(true, Missed)]
  {
    states, events := [s], [];
    assert Reaches(states, events, s);
    hide Reaches;
    states, events := Extend(states, events, s, Load(0, true));
    s' := Step(s, Load(0, true));
    states, events := Extend(states, events, s', Load(1, true));
    s' := Step(s', Load(1, true));
  }

  lemma BothStore(states: seq<State>, events: seq<Event>, s: State)
    returns (states': seq<State>, events': seq<Event>, s': State)
    requires Reaches(states, events, s) && s.stored == None && s.made == 0 && s.removal == Idle && s.links == map[]
    requires s.connections == map[0 := Connection(true, Missed), 1 := Connection(true, Missed)]
    ensures Reaches(states', events', s') && s'.stored == Some(1) && s'.removal == Idle && s'.links == map[]
    ensures s'.connections == map[0 := Connection(true, Holds(0)), 1 := Connection(true, Holds(1))]
  {
    hide Reaches;
    states', events' := Extend(states, events, s, Store(0));
    s' := Step(s, Store(0));
    states', events' := Extend(states', events', s', Store(1));
    s' := Step(s', Store(1));
  }

  lemma BothAttach(states: seq<State>, events: seq<Event>, s: State)
    returns (states': seq<State>, events': seq<Event>, s': State)
    requires Reaches(states, events, s) && s.stored == Some(1) && s.removal == Idle && s.links == map[]
    requires s.connections == map[0 := Connection(true, Holds(0)), 1 := Connection(true, Holds(1))]
    ensures Reaches(states', events', s') && s'.stored == Some(1) && s'.removal == Idle
    ensures s'.links == map[0 := Link(0, true, true), 1 := Link(1, true, true)]
  {
    hide Reaches;
    states', events' := Extend(states, events, s, Attach(0));
    s' := Step(s, Attach(0));
    states', events' := Extend(states', events', s', Attach(1));
    s' := Step(s', Attach(1));
  }

  lemma OneRemoved(states: seq<State>, events: seq<Event>, s: State)
    returns (states': seq<State>, events': seq<Event>, s': State)
    requires Reaches(states, events, s) && s.stored == Some(1) && s.removal == Idle
    requires s.links == map[0 := Link(0, true, true), 1 := Link(1, true, true)]
    ensures Reaches(states', events', s') && |events'| > 0 && events'[|events'| - 1] == Finish
    ensures s'.links == map[0 := Link(0, true, true), 1 := Link(1, true, false)]
  {
    hide Reaches;
    assert Entries(s, 1) == {1};
    states', events' := Extend(states, events, s, Find);
    s' := Step(s, Find);
    states', events' := Extend(states', events', s', Visit(1));
    s' := Step(s', Visit(1));
    states', events' := Extend(states', events', s', Finish);
    s' := Step(s', Finish);
  }

  /** Two first connections of a user race, and the removal closes only the link of the one that stored last. */
  lemma FirstConnectionsRace()
    ensures exists states: seq<State>, events: seq<Event> | IsRun(states, events) && |events| > 0 ::
              && events[|events| - 1] == Finish
              && states[|events|].links == map[0 := Link(0, true, true), 1 := Link(1, true, false)]
  {
    hide IsRun; hide Step; hide Allowed;
    var states, events, s := BothMiss(START);
    states, events, s := BothStore(states, events, s);
    states, events, s := BothAttach(states, events, s);
    states, events, s := OneRemoved(states, events, s);
    assert states[|events|].links == s.links;
  }
}
