/** Instances and reloads on values: cores (core/xray.go), node sets with their controllers (node/node.go,
    node/controller.go, node/mieru.go), the swap made by a reload and the reload queue (cmd/server.go). What may fail is
    given by plans; building a core from a configuration that does not compile ends the whole process. Cores and sets
    are numbered in the order they are made. */
module Lifecycle {
  import opened Optional
  import Router

  // ---- Cores ----

  /** A broken server is one whose start failed: it exists but does not serve. */
  datatype Server = NoServer | Broken | Live

  /** Whether the core signals on the main loop's channel, has its limiter manager, its server, and its monitor task. */
  datatype CoreState = CoreState(channel: bool, managed: bool, server: Server, monitor: bool)

  function NewCore(channel: bool): CoreState {
    CoreState(channel, true, NoServer, false)
  }

  function StartCore(c: CoreState, ok: bool): CoreState {
    if ok then c.(server := Live, monitor := true) else c.(server := Broken)
  }

  function CloseCore(c: CoreState): CoreState {
    c.(managed := false, server := NoServer, monitor := false)
  }

  // ---- Controllers ----

  /** Where the start of a controller gives up, if it does. */
  datatype Fault = NoFault | BeforeLimiter | BeforeInbound | BeforeTasks

  /** The periodic jobs of a controller. */
  datatype Job = UserList | UserReport | RenewCert

  datatype XrayPlan = XrayPlan(enabled: bool, fault: Fault, renews: bool, delNodeFails: bool)

  datatype XrayState = XrayState(plan: XrayPlan, tagged: bool, limiter: bool, inbound: bool, jobs: set<Job>)

  function NewXray(p: XrayPlan): XrayState {
    XrayState(p, false, false, false, {})
  }

  /** Certificates are renewed only in the modes that fetch them. */
  function JobsOf(p: XrayPlan): set<Job> {
    if p.renews then {UserList, UserReport, RenewCert} else {UserList, UserReport}
  }

  function StartXray(x: XrayState): XrayState {
    match x.plan.fault
    case BeforeLimiter => x
    case BeforeInbound => x.(tagged := true, limiter := true)
    case BeforeTasks => x.(tagged := true, limiter := true, inbound := true)
    case NoFault => x.(tagged := true, limiter := true, inbound := true, jobs := JobsOf(x.plan))
  }

  /** The limiter can only be taken off while the core still has its manager; a failing removal of the inbound keeps the
      tag. */
  function CloseXray(x: XrayState, managed: bool): XrayState {
    var gone := x.tagged && !x.plan.delNodeFails;
    x.(limiter := x.limiter && !(managed && x.tagged), jobs := {}, inbound := x.inbound && !gone,
       tagged := x.tagged && !gone)
  }

  datatype MieruPlan = MieruPlan(enabled: bool, fails: bool)

  datatype MieruState = MieruState(plan: MieruPlan, running: bool)

  function NewMieru(p: MieruPlan): MieruState {
    MieruState(p, false)
  }

  function StartMieru(m: MieruState): MieruState {
    if m.plan.fails then m else m.(running := true)
  }

  function CloseMieru(m: MieruState): MieruState {
    m.(running := false)
  }

  // ---- Node sets ----

  datatype SetState = SetState(core: nat, xray: seq<XrayState>, mieru: seq<MieruState>)

  predicate XrayStops(x: XrayState) {
    x.plan.enabled && x.plan.fault != NoFault
  }

  predicate MieruStops(m: MieruState) {
    m.plan.enabled && m.plan.fails
  }

  /** How many controllers are passed before the first that does not start. */
  function XrayPassed(xs: seq<XrayState>): (n: nat)
    ensures n <= |xs| && (n < |xs| ==> XrayStops(xs[n])) && forall i | 0 <= i < n :: !XrayStops(xs[i])
  {
    if xs == [] || XrayStops(xs[0]) then 0 else 1 + XrayPassed(xs[1..])
  }

  function MieruPassed(ms: seq<MieruState>): (n: nat)
    ensures n <= |ms| && (n < |ms| ==> MieruStops(ms[n])) && forall i | 0 <= i < n :: !MieruStops(ms[i])
  {
    if ms == [] || MieruStops(ms[0]) then 0 else 1 + MieruPassed(ms[1..])
  }

  predicate XrayStart(s: SetState) {
    XrayPassed(s.xray) == |s.xray|
  }

  predicate SetStarts(s: SetState) {
    XrayStart(s) && MieruPassed(s.mieru) == |s.mieru|
  }

  /** Enabled controllers are started in order, the Xray ones first, up to and including the first failure. */
  function StartSet(s: SetState): SetState {
    s.(xray := seq(|s.xray|, i requires 0 <= i < |s.xray| =>
                 if s.xray[i].plan.enabled && i <= XrayPassed(s.xray) then StartXray(s.xray[i]) else s.xray[i]),
       mieru := seq(|s.mieru|, i requires 0 <= i < |s.mieru| =>
                  if s.mieru[i].plan.enabled && XrayStart(s) && i <= MieruPassed(s.mieru) then StartMieru(s.mieru[i])
                  else s.mieru[i]))
  }

  function CloseSet(s: SetState, managed: bool): SetState {
    s.(xray := seq(|s.xray|, i requires 0 <= i < |s.xray| => CloseXray(s.xray[i], managed)),
       mieru := seq(|s.mieru|, i requires 0 <= i < |s.mieru| => CloseMieru(s.mieru[i])))
  }

  // ---- The process ----

  /** The new file and server configuration, what the library says of them, and how starts go. */
  datatype Plan = Plan(loads: bool, fetches: bool, valid: bool, lib: Router.Library, config: Router.Config,
                       accepted: bool, coreStarts: bool, nodesMade: bool, xray: seq<XrayPlan>, mieru: seq<MieruPlan>)

  function NewSet(core: nat, p: Plan): SetState {
    SetState(core, seq(|p.xray|, i requires 0 <= i < |p.xray| => NewXray(p.xray[i])),
             seq(|p.mieru|, i requires 0 <= i < |p.mieru| => NewMieru(p.mieru[i])))
  }

  /** All cores and node sets ever made, and which of them the process holds. */
  datatype World = World(cores: seq<CoreState>, sets: seq<SetState>, core: Option<nat>, nodes: Option<nat>)

  ghost predicate Indexed(w: World) {
    && (w.core.Some? ==> w.core.value < |w.cores|)
    && (w.nodes.Some? ==> w.nodes.value < |w.sets| && w.sets[w.nodes.value].core < |w.cores|)
  }

  /** The current core signals on the main loop's channel. */
  predicate HoldsChannel(w: World) {
    w.core.Some? && w.core.value < |w.cores| && w.cores[w.core.value].channel
  }

  /** The old nodes are closed before the old core. */
  function TearDown(w: World): World
    requires Indexed(w)
  {
    var sets := if w.nodes.None? then w.sets
                else var s := w.sets[w.nodes.value]; w.sets[w.nodes.value := CloseSet(s, w.cores[s.core].managed)];
    var cores := if w.core.None? then w.cores else w.cores[w.core.value := CloseCore(w.cores[w.core.value])];
    World(cores, sets, None, None)
  }

  predicate ReachesCore(p: Plan) {
    p.loads && p.fetches && p.valid
  }

  /** The outbounds compile and the library takes the result; otherwise building the core panics. */
  predicate Builds(p: Plan) {
    Router.Compiled(p.lib, p.config).Built? && p.accepted
  }

  /** Nothing recovers from the panic, and the reload runs on the main goroutine. */
  predicate Crashes(p: Plan) {
    ReachesCore(p) && !Builds(p)
  }

  predicate ReachesTearDown(p: Plan) {
    ReachesCore(p) && Builds(p) && p.coreStarts && p.nodesMade
  }

  /** A process that crashed, with the instances as they were at that moment. */
  datatype Fate = Alive(world: World) | Crashed(world: World)

  function Reload(w: World, p: Plan): Fate
    requires Indexed(w)
  {
    if !ReachesCore(p) then Alive(w)
    else if !Builds(p) then Crashed(w)
    else
      var c := StartCore(NewCore(HoldsChannel(w)), p.coreStarts);
      Alive(if !p.coreStarts then w.(cores := w.cores + [c])
            else if !p.nodesMade then w.(cores := w.cores + [CloseCore(c)])
            else Swap(w, c, NewSet(|w.cores|, p)))
  }

  function Swap(w: World, c: CoreState, s: SetState): World
    requires Indexed(w)
  {
    var torn := TearDown(w);
    if SetStarts(s) then
      World(torn.cores + [c], torn.sets + [StartSet(s)], Some(|torn.cores|), Some(|torn.sets|))
    else
      World(torn.cores + [CloseCore(c)], torn.sets + [CloseSet(StartSet(s), c.managed)], None, None)
  }

  // ---- What every reload keeps ----

  ghost predicate QuietXray(x: XrayState) {
    !x.limiter && x.jobs == {} && (x.inbound || x.tagged ==> x.plan.delNodeFails)
  }

  /** Nothing of the set runs: no limiter is registered, no job and no Mieru server is left, and an inbound only if it
      could not be removed. */
  ghost predicate Quiet(s: SetState) {
    && (forall i | 0 <= i < |s.xray| :: QuietXray(s.xray[i]))
    && (forall i | 0 <= i < |s.mieru| :: !s.mieru[i].running)
  }

  ghost predicate Shaped(s: SetState) {
    forall i | 0 <= i < |s.xray| :: s.xray[i].limiter || s.xray[i].inbound ==> s.xray[i].tagged
  }

  /** An enabled controller is tagged, limits and takes connections, and pulls lists, reports, and renews certificates
      if it has to; a disabled one has nothing. */
  ghost predicate RunningXray(x: XrayState) {
    && x.tagged == x.plan.enabled && x.limiter == x.plan.enabled && x.inbound == x.plan.enabled
    && (UserList in x.jobs <==> x.plan.enabled) && (UserReport in x.jobs <==> x.plan.enabled)
    && (RenewCert in x.jobs <==> x.plan.enabled && x.plan.renews)
  }

  /** All enabled controllers of the set run, and only they. */
  ghost predicate Running(s: SetState) {
    && (forall i | 0 <= i < |s.xray| :: RunningXray(s.xray[i]))
    && (forall i | 0 <= i < |s.mieru| :: s.mieru[i].running == s.mieru[i].plan.enabled)
  }

  ghost predicate Serving(c: CoreState) {
    c.managed && c.server == Live && c.monitor
  }

  ghost predicate Stopped(c: CoreState) {
    c.server != Live && !c.monitor && (c.managed ==> c.server == Broken)
  }

  /** Core and nodes are held together and belong together. */
  ghost predicate Paired(w: World) {
    && Indexed(w)
    && (w.core.Some? <==> w.nodes.Some?)
    && (w.core.Some? ==> w.sets[w.nodes.value].core == w.core.value && Running(w.sets[w.nodes.value]))
  }

  /** A core serves exactly if it is the current one. */
  ghost predicate CoresGood(w: World) {
    forall i: nat | i < |w.cores| :: if w.core == Some(i) then Serving(w.cores[i]) else Stopped(w.cores[i])
  }

  ghost predicate SetsGood(w: World) {
    forall k: nat | k < |w.sets| && w.nodes != Some(k) :: Quiet(w.sets[k])
  }

  ghost predicate Good(w: World) {
    Paired(w) && CoresGood(w) && SetsGood(w)
  }

  lemma ClosedSetIsQuiet(s: SetState)
    requires Shaped(s)
    ensures Quiet(CloseSet(s, true))
  {
  }

  lemma StartedSetIsShaped(core: nat, p: Plan)
    ensures Shaped(StartSet(NewSet(core, p)))
  {
    hide XrayPassed; hide MieruPassed;
  }

  lemma RunningIsShaped(s: SetState)
    requires Running(s)
    ensures Shaped(s)
  {
  }

  /** Every enabled controller of the plan can start. */
  ghost predicate AllStart(p: Plan) {
    && (forall i | 0 <= i < |p.xray| && p.xray[i].enabled :: p.xray[i].fault == NoFault)
    && (forall i | 0 <= i < |p.mieru| && p.mieru[i].enabled :: !p.mieru[i].fails)
  }

  lemma StartsExactly(core: nat, p: Plan)
    ensures SetStarts(NewSet(core, p)) <==> AllStart(p)
  {
    var s := NewSet(core, p);
    assert forall i | 0 <= i < |p.xray| :: s.xray[i].plan == p.xray[i];
    assert forall i | 0 <= i < |p.mieru| :: s.mieru[i].plan == p.mieru[i];
    hide NewSet; hide XrayPassed; hide MieruPassed;
    if AllStart(p) {
      assert XrayPassed(s.xray) < |s.xray| ==> XrayStops(s.xray[XrayPassed(s.xray)]);
      assert MieruPassed(s.mieru) < |s.mieru| ==> MieruStops(s.mieru[MieruPassed(s.mieru)]);
    } else if i :| 0 <= i < |p.xray| && p.xray[i].enabled && p.xray[i].fault != NoFault {
      assert XrayStops(s.xray[i]);
    } else {
      var i :| 0 <= i < |p.mieru| && p.mieru[i].enabled && p.mieru[i].fails;
      assert MieruStops(s.mieru[i]);
    }
  }

  /** How far the start of a new controller gets, by where it gives up. */
  lemma StartReaches(p: XrayPlan)
    ensures var x := StartXray(NewXray(p));
            && x.plan == p && x.tagged == x.limiter == (p.fault != BeforeLimiter)
            && (x.inbound <==> p.fault == BeforeTasks || p.fault == NoFault)
            && (UserList in x.jobs <==> p.fault == NoFault) && (UserReport in x.jobs <==> p.fault == NoFault)
            && (RenewCert in x.jobs <==> p.fault == NoFault && p.renews)
  {
  }

  /** What closing takes from a controller: its jobs in any case; its limiter exactly if the core still has its manager,
      so not if the core is closed first; tag and inbound exactly if the inbound can be removed. */
  lemma CloseTakes(x: XrayState, managed: bool)
    requires x.limiter || x.inbound ==> x.tagged
    ensures var t := CloseXray(x, managed);
            && t.plan == x.plan && t.jobs == {} && (t.limiter <==> x.limiter && !managed)
            && (if x.plan.delNodeFails then t.tagged == x.tagged && t.inbound == x.inbound
                else !t.tagged && !t.inbound)
  {
  }

  /** No enabled controller among the first n gives up. */
  ghost predicate XrayFine(p: Plan, n: nat) {
    forall j | 0 <= j < n && j < |p.xray| && p.xray[j].enabled :: p.xray[j].fault == NoFault
  }

  ghost predicate MieruFine(p: Plan, n: nat) {
    forall j | 0 <= j < n && j < |p.mieru| && p.mieru[j].enabled :: !p.mieru[j].fails
  }

  /** A new set starts controller by controller, the Xray ones first: each enabled one as far as it gets, up to and
      including the first that gives up, and none after it. */
  lemma SetStartReaches(core: nat, p: Plan)
    ensures var s := StartSet(NewSet(core, p));
            && |s.xray| == |p.xray| && |s.mieru| == |p.mieru|
            && (forall i | 0 <= i < |p.xray| ::
                  s.xray[i] ==
                    if p.xray[i].enabled && XrayFine(p, i) then StartXray(NewXray(p.xray[i])) else NewXray(p.xray[i]))
            && (forall i | 0 <= i < |p.mieru| ::
                  && s.mieru[i].plan == p.mieru[i]
                  && (s.mieru[i].running <==>
                        p.mieru[i].enabled && !p.mieru[i].fails && XrayFine(p, |p.xray|) && MieruFine(p, i)))
  {
    var n, s := NewSet(core, p), StartSet(NewSet(core, p));
    XrayPassedExactly(core, p, |p.xray|);
    hide XrayPassed; hide MieruPassed; hide StartXray; hide XrayFine; hide MieruFine;
    forall i | 0 <= i < |p.xray|
      ensures s.xray[i] ==
              if p.xray[i].enabled && XrayFine(p, i) then StartXray(NewXray(p.xray[i])) else NewXray(p.xray[i])
    {
      XrayPassedExactly(core, p, i);
    }
    forall i | 0 <= i < |p.mieru|
      ensures s.mieru[i].plan == p.mieru[i]
      ensures s.mieru[i].running <==>
              p.mieru[i].enabled && !p.mieru[i].fails && XrayFine(p, |p.xray|) && MieruFine(p, i)
    {
      MieruPassedExactly(core, p, i);
    }
  }

  lemma XrayPassedExactly(core: nat, p: Plan, i: nat)
    requires i <= |p.xray|
    ensures i <= XrayPassed(NewSet(core, p).xray) <==> XrayFine(p, i)
  {
    var xs := NewSet(core, p).xray;
    assert forall j | 0 <= j < |xs| :: XrayStops(xs[j]) <==> p.xray[j].enabled && p.xray[j].fault != NoFault;
    hide XrayPassed;
    if i <= XrayPassed(xs) {
      assert forall j | 0 <= j < i :: !XrayStops(xs[j]);
    } else {
      assert XrayStops(xs[XrayPassed(xs)]);
    }
  }

  lemma MieruPassedExactly(core: nat, p: Plan, i: nat)
    requires i <= |p.mieru|
    ensures i <= MieruPassed(NewSet(core, p).mieru) <==> MieruFine(p, i)
  {
    var ms := NewSet(core, p).mieru;
    assert forall j | 0 <= j < |ms| :: MieruStops(ms[j]) <==> p.mieru[j].enabled && p.mieru[j].fails;
    hide MieruPassed;
    if i <= MieruPassed(ms) {
      assert forall j | 0 <= j < i :: !MieruStops(ms[j]);
    } else {
      assert MieruStops(ms[MieruPassed(ms)]);
    }
  }

  /** The set has the plan's controllers. */
  ghost predicate MadeFor(s: SetState, p: Plan) {
    && |s.xray| == |p.xray| && (forall i | 0 <= i < |p.xray| :: s.xray[i].plan == p.xray[i])
    && |s.mieru| == |p.mieru| && (forall i | 0 <= i < |p.mieru| :: s.mieru[i].plan == p.mieru[i])
  }

  lemma StartedSetRuns(core: nat, p: Plan)
    requires SetStarts(NewSet(core, p))
    ensures Running(StartSet(NewSet(core, p))) && MadeFor(StartSet(NewSet(core, p)), p)
  {
    StartsExactly(core, p);
    hide XrayPassed; hide MieruPassed;
  }

  lemma TearDownStopsAll(w: World)
    requires Good(w)
    ensures Good(TearDown(w)) && |TearDown(w).cores| == |w.cores| && |TearDown(w).sets| == |w.sets|
    ensures TearDown(w).core.None?
  {
    hide Quiet; hide Shaped; hide Running; hide CloseSet;
    if w.nodes.Some? {
      assert Serving(w.cores[w.core.value]);
      RunningIsShaped(w.sets[w.nodes.value]);
      ClosedSetIsQuiet(w.sets[w.nodes.value]);
    }
  }

  lemma AppendCore(w: World, c: CoreState)
    requires Good(w) && Stopped(c)
    ensures Good(w.(cores := w.cores + [c]))
  {
    hide Quiet; hide Shaped; hide Running; hide Serving; hide Stopped;
  }

  lemma AppendPair(w: World, c: CoreState, s: SetState)
    requires Good(w) && w.core.None? && Serving(c) && Running(s) && s.core == |w.cores|
    ensures Good(World(w.cores + [c], w.sets + [s], Some(|w.cores|), Some(|w.sets|)))
  {
    hide Quiet; hide Shaped; hide Running; hide Serving; hide Stopped;
  }

  lemma AppendStopped(w: World, c: CoreState, s: SetState)
    requires Good(w) && w.core.None? && Stopped(c) && Quiet(s)
    ensures Good(World(w.cores + [c], w.sets + [s], None, None))
  {
    hide Quiet; hide Shaped; hide Running; hide Serving; hide Stopped;
  }

  /** A reload is survived exactly when it does not get as far as the core or the configuration compiles and is
      accepted. */
  lemma SurvivesExactly(w: World, p: Plan)
    requires Good(w)
    ensures Reload(w, p).Alive? <==> !ReachesCore(p) || (Router.Compiled(p.lib, p.config).Built? && p.accepted)
  {
    hide Good; hide Swap; hide Router.Compiled;
    GoodIsIndexed(w);
  }

  /** While a panic ends the main function, the close it has deferred is still carried out: that of the core it started
      first, whichever is current. */
  function Unwound(w: World): World
    requires w.cores != []
  {
    w.(cores := w.cores[0 := CloseCore(w.cores[0])])
  }

  /** At the moment of a crash the old pair is still serving and neither replaced nor closed. The nodes are never
      closed; the core is on the way out exactly if it is the one from the start-up, and no other core is. */
  lemma CrashTakesServingPair(w: World, p: Plan)
    requires Good(w) && w.core.Some?
    ensures var f := Reload(w, p);
            f.Crashed? ==>
              && f.world == w && Serving(f.world.cores[f.world.core.value])
              && f.world.nodes.Some? && f.world.sets[f.world.nodes.value].core == f.world.core.value
              && var u := Unwound(f.world);
                 && u.sets == w.sets && u.core == w.core && u.nodes == w.nodes
                 && (Serving(u.cores[u.core.value]) <==> w.core != Some(0))
                 && forall i | 0 < i < |w.cores| :: u.cores[i] == w.cores[i]
  {
    hide Swap; hide Router.Compiled; hide Quiet; hide Shaped; hide Running;
  }

  /** One outbound whose settings are not JSON is enough. The check before the reload looks at protocols only, so such a
      configuration can be valid there. */
  lemma InvalidOutboundCrashes(w: World, p: Plan, i: nat)
    requires Good(w) && ReachesCore(p) && i < |Router.Items(p.config)|
    requires Router.SettingsFail(p.lib, Router.Items(p.config)[i])
    ensures Reload(w, p) == Crashed(w)
  {
    hide Good; hide Swap; hide Router.SettingsFail; hide Router.Handlers; hide Router.BaseRules; hide Router.ItemRules;
    GoodIsIndexed(w);
    assert Router.Fails(p.lib, Router.Items(p.config)[i]);
  }

  /** Whatever fails short of a crash, after a reload: core and nodes are both there and of one generation, or both
      missing; every core that was ever started is the current one or closed; and nothing of an earlier or failed node
      set keeps running. */
  lemma ReloadKeepsGood(w: World, p: Plan)
    requires Good(w)
    ensures Good(Reload(w, p).world)
  {
    hide TearDown; hide SetStarts; hide StartSet; hide Good; hide NewSet; hide CloseSet; hide Shaped; hide Quiet;
    hide Builds;
    GoodIsIndexed(w);
    TearDownStopsAll(w);
    var c := StartCore(NewCore(HoldsChannel(w)), p.coreStarts);
    if ReachesCore(p) && Builds(p) {
      if !p.coreStarts {
        AppendCore(w, c);
      } else if !p.nodesMade {
        AppendCore(w, CloseCore(c));
      } else {
        var s := NewSet(|w.cores|, p);
        NewSetCore(|w.cores|, p);
        StartedSetIsShaped(|w.cores|, p);
        ClosedSetIsQuiet(StartSet(s));
        if SetStarts(s) {
          StartedSetRuns(|w.cores|, p);
          AppendPair(TearDown(w), c, StartSet(s));
        } else {
          AppendStopped(TearDown(w), CloseCore(c), CloseSet(StartSet(s), true));
        }
      }
    }
  }

  lemma GoodIsIndexed(w: World)
    requires Good(w)
    ensures Indexed(w)
  {
  }

  lemma NewSetCore(core: nat, p: Plan)
    ensures NewSet(core, p).core == core && StartSet(NewSet(core, p)).core == core
  {
  }

  /** A reload that fails before the teardown, but is survived, leaves the pair alone and serving, and all older cores
      and sets untouched. */
  lemma EarlyFailureKeepsPair(w: World, p: Plan)
    requires Good(w) && !ReachesTearDown(p) && !Crashes(p)
    ensures var f := Reload(w, p);
            && f.Alive? && f.world.core == w.core && f.world.nodes == w.nodes && f.world.sets == w.sets
            && w.cores <= f.world.cores
  {
    hide TearDown; hide NewSet; hide SetStarts; hide StartSet; hide Builds;
  }

  /** A core that is not current is never touched again. */
  lemma OldCoresStay(w: World, p: Plan, i: nat)
    requires Good(w) && i < |w.cores| && w.core != Some(i)
    ensures var r := Reload(w, p).world;
            i < |r.cores| && r.cores[i] == w.cores[i] && r.core != Some(i)
  {
    hide NewSet; hide SetStarts; hide StartSet; hide CloseSet; hide Builds;
  }

  // ---- Runs of reloads ----

  /** Nothing happens after a crash. */
  function Next(f: Fate, p: Plan): (g: Fate)
    requires Good(f.world)
    ensures Good(g.world)
  {
    hide Good; hide Reload;
    if f.Crashed? then f
    else
      GoodIsIndexed(f.world);
      ReloadKeepsGood(f.world, p);
      Reload(f.world, p)
  }

  function Reloads(w: World, ps: seq<Plan>): (f: Fate)
    requires Good(w)
    ensures Good(f.world)
  {
    hide Good; hide Next;
    if ps == [] then Alive(w) else Next(Reloads(w, ps[..|ps| - 1]), ps[|ps| - 1])
  }

  /** What a reload comes to, phase by phase. If file, server configuration and check are not all fine, nothing happens.
      If the configuration cannot be built, the process crashes. If the core does not start, or nodes cannot be made,
      the pair stays and a core is left that does not serve. If an enabled controller does not start, there is no pair
      any more. Otherwise the new core serves, with the new controllers running. */
  lemma ReloadOutcome(w: World, p: Plan)
    requires Good(w)
    ensures var fine := p.loads && p.fetches && p.valid;
            var builds := Router.Compiled(p.lib, p.config).Built? && p.accepted;
            var f, r := Reload(w, p), Reload(w, p).world;
            && (!fine ==> f == Alive(w))
            && (fine && !builds ==> f == Crashed(w))
            && (fine && builds && !(p.coreStarts && p.nodesMade) ==>
                  && f.Alive? && r.core == w.core && r.nodes == w.nodes && r.sets == w.sets
                  && |r.cores| == |w.cores| + 1 && w.cores <= r.cores && Stopped(r.cores[|w.cores|])
                  && (r.cores[|w.cores|].server == Broken <==> !p.coreStarts))
            && (fine && builds && p.coreStarts && p.nodesMade && !AllStart(p) ==>
                  f.Alive? && r.core == None && r.nodes == None)
            && (fine && builds && p.coreStarts && p.nodesMade && AllStart(p) ==>
                  && f.Alive? && r.core == Some(|w.cores|) && r.nodes == Some(|w.sets|)
                  && |r.cores| == |w.cores| + 1 && |r.sets| == |w.sets| + 1 && Serving(r.cores[|w.cores|])
                  && Running(r.sets[|w.sets|]) && MadeFor(r.sets[|w.sets|], p))
  {
    hide Good; hide NewSet; hide SetStarts; hide StartSet; hide CloseSet; hide Running; hide MadeFor; hide AllStart;
    hide Router.Compiled; hide TearDown;
    GoodIsIndexed(w);
    TearDownStopsAll(w);
    StartsExactly(|w.cores|, p);
    if SetStarts(NewSet(|w.cores|, p)) {
      StartedSetRuns(|w.cores|, p);
    }
  }

  /** After a start-up that worked: one serving core, which holds the channel, and its nodes. */
  function Initial(p: Plan): World {
    World([StartCore(NewCore(true), true)], [StartSet(NewSet(0, p))], Some(0), Some(0))
  }

  lemma InitialGood(p: Plan)
    requires AllStart(p)
    ensures Good(Initial(p)) && HoldsChannel(Initial(p)) && MadeFor(Initial(p).sets[0], p)
  {
    NewSetCore(0, p);
    StartsExactly(0, p);
    StartedSetRuns(0, p);
    hide NewSet; hide StartSet; hide Running; hide MadeFor; hide Quiet;
  }

  /** The nodes do not start although the old instances are already torn down. */
  predicate FailsLate(p: Plan) {
    ReachesTearDown(p) && !SetStarts(NewSet(0, p))
  }

  lemma FailsLateAnywhere(core: nat, p: Plan)
    ensures SetStarts(NewSet(core, p)) <==> SetStarts(NewSet(0, p))
  {
    assert NewSet(core, p).xray == NewSet(0, p).xray && NewSet(core, p).mieru == NewSet(0, p).mieru;
  }

  /** One reload keeps the channel exactly if it was held and the reload does not fail after its teardown. */
  lemma ReloadAndChannel(w: World, p: Plan)
    requires Good(w)
    ensures HoldsChannel(Reload(w, p).world) <==> HoldsChannel(w) && !FailsLate(p)
  {
    FailsLateAnywhere(|w.cores|, p);
    hide SetStarts; hide StartSet; hide CloseSet; hide NewSet; hide Quiet; hide Shaped; hide Running; hide Builds;
  }

  ghost predicate NoneFailsLate(ps: seq<Plan>) {
    forall i | 0 <= i < |ps| :: !FailsLate(ps[i])
  }

  ghost predicate NoneCrashes(ps: seq<Plan>) {
    forall i | 0 <= i < |ps| :: !Crashes(ps[i])
  }

  lemma NoneSnoc(ps: seq<Plan>)
    requires ps != []
    ensures NoneFailsLate(ps) <==> NoneFailsLate(ps[..|ps| - 1]) && !FailsLate(ps[|ps| - 1])
    ensures NoneCrashes(ps) <==> NoneCrashes(ps[..|ps| - 1]) && !Crashes(ps[|ps| - 1])
  {
    hide FailsLate; hide Crashes;
  }

  lemma ReloadCrashes(w: World, p: Plan)
    requires Good(w)
    ensures Indexed(w) && (Reload(w, p).Crashed? <==> Crashes(p))
  {
    hide Good; hide Swap; hide Builds;
    GoodIsIndexed(w);
  }

  /** The process survives a run of reloads exactly when none of them meets a configuration it cannot build. */
  lemma {:induction false} RunSurvivesExactly(w: World, ps: seq<Plan>)
    requires Good(w)
    ensures Reloads(w, ps).Alive? <==> NoneCrashes(ps)
  {
    hide Good; hide Reload; hide Crashes;
    if ps != [] {
      RunSurvivesExactly(w, ps[..|ps| - 1]);
      NoneSnoc(ps);
      ReloadCrashes(Reloads(w, ps[..|ps| - 1]).world, ps[|ps| - 1]);
    }
  }

  /** After any run of reloads that is survived the current core still signals the main loop exactly if no reload failed
      after its teardown. After such a failure the old channel is forgotten, and no later core ever gets it back. */
  lemma {:induction false} ChannelHeldExactly(w: World, ps: seq<Plan>)
    requires Good(w) && HoldsChannel(w)
    ensures Reloads(w, ps).Alive? ==> (HoldsChannel(Reloads(w, ps).world) <==> NoneFailsLate(ps))
  {
    hide Good; hide HoldsChannel; hide Reload; hide FailsLate;
    if ps != [] {
      var before := Reloads(w, ps[..|ps| - 1]);
      ChannelHeldExactly(w, ps[..|ps| - 1]);
      NoneSnoc(ps);
      GoodIsIndexed(before.world);
      ReloadAndChannel(before.world, ps[|ps| - 1]);
    }
  }

  /** A core whose server does not start is not closed by the failing reload, nor by any later one. */
  lemma {:induction false} BrokenCoreStays(w: World, p: Plan, ps: seq<Plan>)
    requires Good(w) && ReachesCore(p) && Builds(p) && !p.coreStarts && Good(Reload(w, p).world)
    ensures var r := Reloads(Reload(w, p).world, ps).world;
            |w.cores| < |r.cores| && r.cores[|w.cores|].server == Broken && r.core != Some(|w.cores|)
  {
    hide Good; hide Builds;
    GoodIsIndexed(w);
    if ps != [] {
      BrokenCoreStays(w, p, ps[..|ps| - 1]);
      var before := Reloads(Reload(w, p).world, ps[..|ps| - 1]);
      GoodIsIndexed(before.world);
      OldCoresStay(before.world, ps[|ps| - 1], |w.cores|);
      hide Reload;
    }
  }

  // ---- The reload queue ----

  /** The channel holds at most one request. */
  datatype Loop = Loop(fate: Fate, queued: bool)

  /** The configuration file changes, a core or one of its Xray jobs asks for a reload, or the main loop takes its
      turn. */
  datatype Event = FileChanged | Asks(core: nat) | Turn(plan: Plan)

  predicate Signals(l: Loop, e: Event) {
    l.fate.Alive? &&
    match e
    case FileChanged => true
    case Asks(i) => i < |l.fate.world.cores| && l.fate.world.cores[i].channel
    case Turn(_) => false
  }

  predicate StartsReload(l: Loop, e: Event) {
    l.fate.Alive? && e.Turn? && l.queued
  }

  function Handle(l: Loop, e: Event): (r: Loop)
    requires Good(l.fate.world)
    ensures Good(r.fate.world)
  {
    hide Good; hide Next; hide Signals;
    if StartsReload(l, e) then Loop(Next(l.fate, e.plan), false)
    else if Signals(l, e) then l.(queued := true)
    else l
  }

  function HandleAll(l: Loop, es: seq<Event>): (r: Loop)
    requires Good(l.fate.world)
    ensures Good(r.fate.world)
  {
    hide Good; hide Handle;
    if es == [] then l else Handle(HandleAll(l, es[..|es| - 1]), es[|es| - 1])
  }

  /** The plans of the reloads that were really started. */
  function Performed(l: Loop, es: seq<Event>): seq<Plan>
    requires Good(l.fate.world)
  {
    if es == [] then []
    else
      var e := es[|es| - 1];
      Performed(l, es[..|es| - 1]) + if StartsReload(HandleAll(l, es[..|es| - 1]), e) then [e.plan] else []
  }

  lemma ReloadsSnoc(w: World, ps: seq<Plan>, p: Plan)
    requires Good(w)
    ensures Reloads(w, ps + [p]) == Next(Reloads(w, ps), p)
  {
    hide Good; hide Next;
    assert (ps + [p])[..|ps|] == ps;
  }

  lemma {:induction false} FateIsOfReloads(w: World, queued: bool, es: seq<Event>)
    requires Good(w)
    ensures HandleAll(Loop(Alive(w), queued), es).fate == Reloads(w, Performed(Loop(Alive(w), queued), es))
  {
    hide Good; hide Next; hide Signals;
    var l := Loop(Alive(w), queued);
    if es != [] {
      var most, e := es[..|es| - 1], es[|es| - 1];
      FateIsOfReloads(w, queued, most);
      if StartsReload(HandleAll(l, most), e) {
        ReloadsSnoc(w, Performed(l, most), e.plan);
      } else {
        assert Performed(l, es) == Performed(l, most);
      }
    }
  }

  /** One event: a change of the file and a core that has the channel leave a request, a turn that finds one starts a
      reload and takes it away, and after a crash nothing happens. */
  lemma HandleExactly(l: Loop, e: Event)
    requires Good(l.fate.world) && Indexed(l.fate.world)
    ensures var r := Handle(l, e);
            && (l.fate.Crashed? ==> r == l)
            && (l.fate.Alive? ==>
                  match e
                  case FileChanged => r == Loop(l.fate, true)
                  case Asks(i) =>
                    r == Loop(l.fate, l.queued || (i < |l.fate.world.cores| && l.fate.world.cores[i].channel))
                  case Turn(p) => r == if l.queued then Loop(Reload(l.fate.world, p), false) else l)
  {
    hide Reload;
    GoodIsIndexed(l.fate.world);
    hide Good;
  }

  ghost predicate NoTurn(es: seq<Event>) {
    forall i | 0 <= i < |es| :: !es[i].Turn?
  }

  /** A signal that reaches the channel leaves a request that stays, whatever else happens, until the loop takes a turn;
      that turn starts a reload. */
  lemma {:induction false} SignalIsNotLost(l: Loop, e: Event, es: seq<Event>, p: Plan)
    requires Good(l.fate.world) && Signals(l, e) && NoTurn(es)
    ensures HandleAll(Handle(l, e), es).queued && StartsReload(HandleAll(Handle(l, e), es), Turn(p))
  {
    assert !e.Turn? && l.fate.Alive?;
    hide Good; hide Next; hide Signals;
    if es == [] {
      assert HandleAll(Handle(l, e), es) == Handle(l, e);
    } else {
      assert !es[|es| - 1].Turn?;
      SignalIsNotLost(l, e, es[..|es| - 1], p);
    }
  }

  /** In every state a living process can reach, the current core's signals reach the loop exactly if no reload that was
      started has failed after its teardown; and the process lives exactly if none of them crashed it. */
  lemma CurrentCoreHeardExactly(w: World, queued: bool, es: seq<Event>)
    requires Good(w) && HoldsChannel(w)
    ensures var l := Loop(Alive(w), queued);
            var r, ps := HandleAll(l, es), Performed(l, es);
            && (r.fate.Alive? <==> NoneCrashes(ps))
            && (r.fate.Alive? ==>
                  ((r.fate.world.core.Some? && Signals(r, Asks(r.fate.world.core.value))) <==> NoneFailsLate(ps)))
  {
    hide Reloads; hide HandleAll; hide Performed; hide NoneFailsLate; hide NoneCrashes;
    var l := Loop(Alive(w), queued);
    FateIsOfReloads(w, queued, es);
    RunSurvivesExactly(w, Performed(l, es));
    ChannelHeldExactly(w, Performed(l, es));
    GoodIsIndexed(HandleAll(l, es).fate.world);
  }

  /** One reload that fails late and one that works are enough: the process then serves, but its core asks in vain. */
  lemma DeafAfterLateFailure(w: World, bad: Plan, good: Plan)
    requires Good(w) && HoldsChannel(w) && FailsLate(bad) && ReachesTearDown(good) && !FailsLate(good)
    ensures var f := Reloads(w, [bad, good]);
            && f.Alive? && f.world.core.Some? && Serving(f.world.cores[f.world.core.value])
            && forall q :: Handle(Loop(f, q), Asks(f.world.core.value)).queued == q
  {
    ReloadsTwo(w, bad, good);
    LateOrInstalled(w, bad);
    ReloadAndChannel(w, bad);
    var middle := Reload(w, bad).world;
    LateOrInstalled(middle, good);
    ReloadAndChannel(middle, good);
    hide Reload; hide HoldsChannel; hide FailsLate;
    NotHeardWithoutChannel(Reloads(w, [bad, good]));
  }

  lemma ReloadsTwo(w: World, p: Plan, q: Plan)
    requires Good(w)
    ensures Good(Reload(w, p).world)
    ensures Reload(w, p).Alive? ==> Reloads(w, [p, q]) == Reload(Reload(w, p).world, q)
  {
    hide Good; hide Reload;
    GoodIsIndexed(w);
    ReloadKeepsGood(w, p);
    assert [p][..0] == [] && [p, q][..1] == [p];
    assert Reloads(w, []) == Alive(w) && Reloads(w, [p]) == Reload(w, p);
  }

  /** A reload that gets to its teardown is survived; it installs the new core or, failing late, leaves none. */
  lemma LateOrInstalled(w: World, p: Plan)
    requires Good(w) && ReachesTearDown(p)
    ensures Reload(w, p).Alive? && Good(Reload(w, p).world)
    ensures Reload(w, p).world.core == if FailsLate(p) then None else Some(|w.cores|)
  {
    FailsLateAnywhere(|w.cores|, p);
    ReloadKeepsGood(w, p);
    hide SetStarts; hide StartSet; hide CloseSet; hide NewSet; hide Good; hide Builds;
    GoodIsIndexed(w);
    TearDownSizes(w);
  }

  lemma TearDownSizes(w: World)
    requires Indexed(w)
    ensures |TearDown(w).cores| == |w.cores| && |TearDown(w).sets| == |w.sets|
  {
    hide CloseSet;
  }

  lemma NotHeardWithoutChannel(f: Fate)
    requires Good(f.world) && f.Alive? && f.world.core.Some? && !HoldsChannel(f.world)
    ensures Serving(f.world.cores[f.world.core.value])
    ensures forall q :: Handle(Loop(f, q), Asks(f.world.core.value)).queued == q
  {
    hide Next; hide Quiet; hide Shaped; hide Running;
  }

  /** An operating-system signal ends the loop: nothing that was ever started keeps running. */
  lemma ShutdownStopsAll(w: World)
    requires Good(w)
    ensures forall i: nat | i < |TearDown(w).cores| :: Stopped(TearDown(w).cores[i])
    ensures forall k: nat | k < |TearDown(w).sets| :: Quiet(TearDown(w).sets[k])
  {
    hide TearDown; hide Quiet; hide Stopped;
    TearDownStopsAll(w);
    CoresOfNone(TearDown(w));
  }

  lemma CoresOfNone(w: World)
    requires Good(w) && w.core.None?
    ensures forall i: nat | i < |w.cores| :: Stopped(w.cores[i])
  {
    hide Quiet; hide Stopped; hide Serving;
  }
}
