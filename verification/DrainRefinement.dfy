/** The step-by-step drain of the ledger refines the drain in one piece (core/user.go): with nothing in between, the
    single loads and stores of a drain come to what TrafficDrain says of it. */
module DrainRefinement {
  import opened Panel
  import TrafficDrain
  import opened TrafficLedger

  /** The counters as a drain in one piece sees them. */
  ghost function SnapshotOf(s: State): TrafficDrain.Snapshot
    requires References(s)
  {
    map e | e in s.live :: (s.cells[s.live[e]].value.up, s.cells[s.live[e]].value.down)
  }

  /** The events of a drain's visit with nothing in between: two loads, and for an entry over the threshold two stores
      and the end of the visit. */
  ghost function VisitAll(s: State, d: nat, email: string): State
    requires References(s) && Allowed(s, Visit(d, email))
  {
    var loaded := AdvanceDrain(AdvanceDrain(Step(s, Visit(d, email)), d), d);
    if loaded.drains[d].Ranging? then loaded else AdvanceDrain(AdvanceDrain(AdvanceDrain(loaded, d), d), d)
  }

  /** The storage of an entry that was over the threshold. */
  function Emptied(c: Cell, known: bool): Cell {
    if known then c.(value := ZERO, reported := c.reported.Plus(c.value))
    else c.(value := ZERO, dropped := c.dropped.Plus(c.value))
  }

  lemma LoadsExactly(s: State, d: nat, email: string)
    requires References(s) && Allowed(s, Visit(d, email))
    ensures var c, p := s.cells[s.live[email]], s.drains[d];
            AdvanceDrain(AdvanceDrain(Step(s, Visit(d, email)), d), d) ==
              s.(drains := s.drains[d :=
                 if c.value.up + c.value.down > p.mintraffic
                 then Visiting(p.mintraffic, p.seen + {email}, email, s.live[email], StoreUp(c.value.up, c.value.down))
                 else Ranging(p.mintraffic, p.seen + {email})])
  {
    var s1 := Step(s, Visit(d, email));
    assert s1.cells[s.live[email] := s1.cells[s.live[email]]] == s.cells;
  }

  lemma StoresExactly(s: State, d: nat, c: Cell)
    requires d < |s.drains| && s.drains[d].Visiting? && s.drains[d].sid < |s.cells| && c == s.cells[s.drains[d].sid]
    requires s.drains[d].stage == StoreUp(c.value.up, c.value.down)
    ensures var p := s.drains[d];
            var known := p.email in s.uids && s.uids[p.email] != 0;
            AdvanceDrain(AdvanceDrain(AdvanceDrain(s, d), d), d) ==
              State(s.cells[p.sid := Emptied(c, known)], s.base, if known then s.live else s.live - {p.email}, s.uids,
                    s.drains[d := Ranging(p.mintraffic, p.seen)],
                    if known then s.log + [UserTraffic(s.uids[p.email], c.value.up, c.value.down)] else s.log)
  {
  }

  /** What a visit does when nothing comes in between. */
  lemma VisitExactly(s: State, d: nat, email: string)
    requires References(s) && Allowed(s, Visit(d, email))
    ensures var c, known := s.cells[s.live[email]], email in s.uids && s.uids[email] != 0;
            var m := s.drains[d].mintraffic;
            var over := c.value.up + c.value.down > m;
            VisitAll(s, d, email) ==
              State(if over then s.cells[s.live[email] := Emptied(c, known)] else s.cells, s.base,
                    if over && !known then s.live - {email} else s.live, s.uids,
                    s.drains[d := Ranging(m, s.drains[d].seen + {email})],
                    if over && known then s.log + [UserTraffic(s.uids[email], c.value.up, c.value.down)] else s.log)
  {
    LoadsExactly(s, d, email);
    var c := s.cells[s.live[email]];
    var loaded := AdvanceDrain(AdvanceDrain(Step(s, Visit(d, email)), d), d);
    hide AdvanceDrain; hide Step; hide Emptied;
    if loaded.drains[d].Visiting? {
      StoresExactly(loaded, d, c);
    }
  }

  // ---- A whole drain ----

  /** A drain visits the entries of the order, each without interruption. */
  ghost predicate Visits(states: seq<State>, d: nat, order: seq<string>) {
    && |states| == |order| + 1
    && forall i | 0 <= i < |order| ::
         && References(states[i]) && Allowed(states[i], Visit(d, order[i]))
         && states[i + 1] == VisitAll(states[i], d, order[i])
  }

  ghost function DoneBy(order: seq<string>, n: nat): set<string>
    requires n <= |order|
  {
    set i | 0 <= i < n :: order[i]
  }

  /** The entries of `done` are visited: those over the threshold are emptied, those of them without an id have lost
      their key, and everything else is as it was. */
  ghost predicate CountersHalfway(s: State, t: State, m: int, done: set<string>)
    requires References(s) && References(t)
  {
    && |t.cells| == |s.cells| && t.uids == s.uids
    && (forall e :: e in t.live <==> e in s.live && !(e in done && e in TrafficDrain.Removed(SnapshotOf(s), s.uids, m)))
    && (forall e | e in t.live :: t.live[e] == s.live[e])
    && (forall e | e in s.live ::
          t.cells[s.live[e]].value ==
            if e in done && TrafficDrain.Over(SnapshotOf(s), m, e) then ZERO else s.cells[s.live[e]].value)
  }

  /** The reported ones of them have a line each. */
  ghost predicate LogHalfway(s: State, log: seq<UserTraffic>, m: int, done: set<string>, who: seq<string>)
    requires References(s)
  {
    && s.log <= log
    && TrafficDrain.Lists(who, TrafficDrain.Reported(SnapshotOf(s), s.uids, m) * done)
    && TrafficDrain.IsSlice(SnapshotOf(s), s.uids, who, log[|s.log|..])
  }

  ghost predicate Halfway(s: State, t: State, m: int, done: set<string>, who: seq<string>) {
    References(s) && References(t) && CountersHalfway(s, t, m, done) && LogHalfway(s, t.log, m, done, who)
  }

  lemma SnapshotAt(s: State, m: int, e: string)
    requires References(s) && e in s.live
    ensures var snap, c := SnapshotOf(s), s.cells[s.live[e]].value;
            && e in snap && snap[e] == (c.up, c.down)
            && (TrafficDrain.Over(snap, m, e) <==> c.up + c.down > m)
            && (e in TrafficDrain.Removed(snap, s.uids, m) <==>
                  c.up + c.down > m && !(e in s.uids && s.uids[e] != 0))
            && (e in TrafficDrain.Reported(snap, s.uids, m) <==>
                  c.up + c.down > m && e in s.uids && s.uids[e] != 0)
  {
  }

  /** No two keys share a storage. */
  lemma Unshared(s: State, e: string, f: string)
    requires Owned(s) && e in s.live && f in s.live && s.live[e] == s.live[f]
    ensures e == f
  {
  }

  /** What a visit halfway through a drain meets, and what it does to the counters. */
  lemma VisitMeets(s: State, t: State, d: nat, done: set<string>, e: string)
    requires References(s) && References(t) && d < |t.drains| && t.drains[d].Ranging? && e in s.live && e !in done
    requires CountersHalfway(s, t, t.drains[d].mintraffic, done) && Allowed(t, Visit(d, e))
    ensures var c := s.cells[s.live[e]].value;
            var over, known := c.up + c.down > t.drains[d].mintraffic, e in s.uids && s.uids[e] != 0;
            var t' := VisitAll(t, d, e);
            && t'.uids == t.uids && t'.base == t.base && |t'.cells| == |t.cells|
            && t'.live == (if over && !known then t.live - {e} else t.live)
            && t'.cells[s.live[e]].value == (if over then ZERO else c)
            && (forall k | 0 <= k < |t.cells| && k != s.live[e] :: t'.cells[k] == t.cells[k])
            && t'.log == (if over && known then t.log + [UserTraffic(s.uids[e], c.up, c.down)] else t.log)
            && t'.drains == t.drains[d := Ranging(t.drains[d].mintraffic, t.drains[d].seen + {e})]
  {
    VisitExactly(t, d, e);
    assert t.live[e] == s.live[e] && t.cells[s.live[e]].value == s.cells[s.live[e]].value;
    var c := s.cells[s.live[e]].value;
    hide VisitAll; hide CountersHalfway; hide Allowed;
    VisitedCells(t, VisitAll(t, d, e), s.live[e], c.up + c.down > t.drains[d].mintraffic,
                 e in s.uids && s.uids[e] != 0);
  }

  lemma VisitCounters(s: State, t: State, t': State, m: int, done: set<string>, e: string)
    requires Owned(s) && References(t) && e in s.live && e !in done && CountersHalfway(s, t, m, done)
    requires var c := s.cells[s.live[e]].value;
             var over, known := c.up + c.down > m, e in s.uids && s.uids[e] != 0;
             && t'.uids == t.uids && |t'.cells| == |t.cells|
             && t'.live == (if over && !known then t.live - {e} else t.live)
             && t'.cells[s.live[e]].value == (if over then ZERO else c)
             && forall k | 0 <= k < |t.cells| && k != s.live[e] :: t'.cells[k] == t.cells[k]
    requires References(t')
    ensures CountersHalfway(s, t', m, done + {e})
  {
    SnapshotAt(s, m, e);
    forall f | f in s.live && s.live[f] == s.live[e] ensures f == e {
      Unshared(s, e, f);
    }
    hide SnapshotOf; hide TrafficDrain.Over; hide TrafficDrain.Removed; hide Owned;
  }

  lemma VisitedCells(t: State, t': State, sid: nat, over: bool, known: bool)
    requires sid < |t.cells| && t'.cells == if over then t.cells[sid := Emptied(t.cells[sid], known)] else t.cells
    ensures |t'.cells| == |t.cells| && t'.cells[sid].value == if over then ZERO else t.cells[sid].value
    ensures forall k | 0 <= k < |t.cells| && k != sid :: t'.cells[k] == t.cells[k]
  {
  }

  lemma VisitLog(s: State, log: seq<UserTraffic>, log': seq<UserTraffic>, m: int, done: set<string>, who: seq<string>,
                 e: string) returns (who': seq<string>)
    requires References(s) && e in s.live && e !in done && LogHalfway(s, log, m, done, who)
    requires var c := s.cells[s.live[e]].value;
             log' == if c.up + c.down > m && e in s.uids && s.uids[e] != 0
                     then log + [UserTraffic(s.uids[e], c.up, c.down)] else log
    ensures LogHalfway(s, log', m, done + {e}, who')
  {
    var snap := SnapshotOf(s);
    SnapshotAt(s, m, e);
    hide SnapshotOf; hide TrafficDrain.Reported; hide TrafficDrain.Removed; hide TrafficDrain.Over;
    hide TrafficDrain.Lists; hide TrafficDrain.IsSlice; hide References;
    var reported := TrafficDrain.Reported(snap, s.uids, m);
    if e in reported {
      who' := who + [e];
      var line := UserTraffic(s.uids[e], snap[e].0, snap[e].1);
      assert log'[|s.log|..] == log[|s.log|..] + [line];
      assert reported * (done + {e}) == reported * done + {e};
      ListOne(snap, s.uids, who, log[|s.log|..], reported * done, e);
    } else {
      who' := who;
      assert reported * (done + {e}) == reported * done;
    }
  }

  lemma VisitOne(s: State, t: State, d: nat, done: set<string>, who: seq<string>, e: string) returns (who': seq<string>)
    requires Owned(s) && d < |t.drains| && t.drains[d].Ranging? && e in s.live && e !in done
    requires Halfway(s, t, t.drains[d].mintraffic, done, who) && Allowed(t, Visit(d, e))
    ensures Halfway(s, VisitAll(t, d, e), t.drains[d].mintraffic, done + {e}, who')
    ensures VisitAll(t, d, e).drains == t.drains[d := Ranging(t.drains[d].mintraffic, t.drains[d].seen + {e})]
  {
    var m, t' := t.drains[d].mintraffic, VisitAll(t, d, e);
    VisitMeets(s, t, d, done, e);
    hide VisitAll; hide CountersHalfway; hide LogHalfway; hide Allowed; hide Owned;
    VisitCounters(s, t, t', m, done, e);
    who' := VisitLog(s, t.log, t'.log, m, done, who, e);
  }

  lemma ListOne(snap: TrafficDrain.Snapshot, uidMap: map<string, int>, who: seq<string>, slice: seq<UserTraffic>,
                told: set<string>, e: string)
    requires TrafficDrain.Lists(who, told) && e !in told && e in snap && e in uidMap
    requires TrafficDrain.IsSlice(snap, uidMap, who, slice)
    ensures TrafficDrain.Lists(who + [e], told + {e})
    ensures TrafficDrain.IsSlice(snap, uidMap, who + [e], slice + [UserTraffic(uidMap[e], snap[e].0, snap[e].1)])
  {
  }

  lemma NothingDone(s: State, m: int)
    requires References(s)
    ensures Halfway(s, s, m, {}, [])
  {
    assert s.log[|s.log|..] == [];
  }

  lemma {:induction false} DrainHalfway(states: seq<State>, d: nat, order: seq<string>,
                                        i: nat) returns (who: seq<string>)
    requires Visits(states, d, order) && Owned(states[0]) && d < |states[0].drains| && states[0].drains[d].Ranging?
    requires states[0].drains[d].seen == {} && i <= |order|
    requires forall e | e in order :: e in states[0].live
    requires forall j, k | 0 <= j < k < |order| :: order[j] != order[k]
    ensures var m := states[0].drains[d].mintraffic;
            && d < |states[i].drains| && states[i].drains[d].Ranging? && states[i].drains[d].mintraffic == m
            && Halfway(states[0], states[i], m, DoneBy(order, i), who)
  {
    if i == 0 {
      NothingDone(states[0], states[0].drains[d].mintraffic);
      who := [];
      assert DoneBy(order, 0) == {};
    } else {
      hide VisitAll; hide Halfway; hide Owned; hide Allowed;
      who := DrainHalfway(states, d, order, i - 1);
      assert DoneBy(order, i) == DoneBy(order, i - 1) + {order[i - 1]};
      assert order[i - 1] !in DoneBy(order, i - 1);
      assert states[i] == VisitAll(states[i - 1], d, order[i - 1]);
      who := VisitOne(states[0], states[i - 1], d, DoneBy(order, i - 1), who, order[i - 1]);
    }
  }

  /** A drain that visits every entry once, in any order, with nothing in between leaves the counters as a drain in one
      piece would, and what it adds to the slices is a slice that one can give. */
  lemma DrainRefines(states: seq<State>, d: nat, order: seq<string>)
    requires Visits(states, d, order) && Owned(states[0]) && d < |states[0].drains| && states[0].drains[d].Ranging?
    requires states[0].drains[d].seen == {} && TrafficDrain.Lists(order, states[0].live.Keys)
    ensures var s, t, m := states[0], states[|order|], states[0].drains[d].mintraffic;
            && References(s) && References(t) && s.log <= t.log
            && SnapshotOf(t) == TrafficDrain.Drained(SnapshotOf(s), s.uids, m)
            && exists who ::
                 && TrafficDrain.Lists(who, TrafficDrain.Reported(SnapshotOf(s), s.uids, m))
                 && TrafficDrain.IsSlice(SnapshotOf(s), s.uids, who, t.log[|s.log|..])
  {
    var who := DrainHalfway(states, d, order, |order|);
    var s, t, m := states[0], states[|order|], states[0].drains[d].mintraffic;
    AllDone(order, s.live.Keys);
    hide Visits; hide Owned; hide TrafficDrain.Lists; hide TrafficDrain.IsSlice; hide DoneBy; hide CountersHalfway;
    hide TrafficDrain.Drained; hide SnapshotOf;
    WholeCounters(s, t, m, DoneBy(order, |order|));
  }

  lemma WholeCounters(s: State, t: State, m: int, done: set<string>)
    requires References(s) && References(t) && CountersHalfway(s, t, m, done) && s.live.Keys <= done
    ensures SnapshotOf(t) == TrafficDrain.Drained(SnapshotOf(s), s.uids, m)
    ensures TrafficDrain.Reported(SnapshotOf(s), s.uids, m) * done == TrafficDrain.Reported(SnapshotOf(s), s.uids, m)
  {
    var snap := SnapshotOf(s);
    forall e | e in s.live
      ensures e in snap && snap[e] == (s.cells[s.live[e]].value.up, s.cells[s.live[e]].value.down)
    {
      SnapshotAt(s, m, e);
    }
  }

  lemma AllDone(order: seq<string>, keys: set<string>)
    requires TrafficDrain.Lists(order, keys)
    ensures keys <= DoneBy(order, |order|)
  {
    forall e | e in keys ensures e in DoneBy(order, |order|) {
      assert e in order;
    }
  }
}
