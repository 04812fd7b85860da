/** The instances themselves and the process that swaps them (cmd/server.go, core/xray.go, node/node.go,
    node/controller.go, node/mieru.go). Every method moves the values of module Lifecycle. */
module Reload {
  import opened Optional
  import L = Lifecycle
  import opened Lifecycle
  import Router
  import opened ReloadChannel

  class Core {
    ghost const number: nat
    var reloadCh: Channel?
    var managed: bool
    var server: L.Server
    var monitor: bool

    ghost function View(): CoreState
      reads this
    {
      CoreState(reloadCh != null, managed, server, monitor)
    }

    constructor (ghost number: nat)
      ensures this.number == number && reloadCh == null && View() == NewCore(false)
    {
      this.number := number;
      reloadCh, managed, server, monitor := null, true, NoServer, false;
    }

    method Start(serves: bool) returns (ok: bool)
      modifies this
      ensures ok == serves && reloadCh == old(reloadCh) && View() == StartCore(old(View()), serves)
    {
      server := Broken;
      if !serves {
        return false;
      }
      server := Live;
      monitor := true;
      return true;
    }

    method Close()
      modifies this
      ensures reloadCh == old(reloadCh) && View() == CloseCore(old(View()))
    {
      if monitor {
        monitor := false;
      }
      managed := false;
      server := NoServer;
    }
  }

  /** Starting and closing of an Xray controller; module UserSync has what its user job does in between. */
  class XrayLifecycle {
    ghost const home: nat
    const server: Core
    const plan: XrayPlan
    var tagged: bool
    var limiter: bool
    var inbound: bool
    var jobs: set<Job>

    ghost function View(): XrayState
      reads this
    {
      XrayState(plan, tagged, limiter, inbound, jobs)
    }

    constructor (ghost home: nat, server: Core, plan: XrayPlan)
      ensures this.home == home && this.server == server && View() == NewXray(plan)
    {
      this.home, this.server, this.plan := home, server, plan;
      tagged, limiter, inbound, jobs := false, false, false, {};
    }

    method Start() returns (ok: bool)
      modifies this
      ensures ok <==> plan.fault == NoFault
      ensures View() == StartXray(old(View()))
    {
      if plan.fault == BeforeLimiter {
        return false;
      }
      tagged := true;
      limiter := true;
      if plan.fault == BeforeInbound {
        return false;
      }
      inbound := true;
      if plan.fault == BeforeTasks {
        return false;
      }
      jobs := {UserList, UserReport};
      if plan.renews {
        jobs := jobs + {RenewCert};
      }
      assert jobs == JobsOf(plan);
      return true;
    }

    method Close() returns (ok: bool)
      modifies this
      ensures ok <==> !(old(tagged) && plan.delNodeFails)
      ensures View() == CloseXray(old(View()), server.managed)
    {
      if server.managed && tagged {
        limiter := false;
      }
      jobs := {};
      if !tagged {
        return true;
      }
      if plan.delNodeFails {
        return false;
      }
      inbound := false;
      tagged := false;
      return true;
    }
  }

  /** Starting and closing of a Mieru controller; module Mieru has what its jobs do in between. */
  class MieruLifecycle {
    ghost const home: nat
    const plan: MieruPlan
    var running: bool

    ghost function View(): MieruState
      reads this
    {
      MieruState(plan, running)
    }

    constructor (ghost home: nat, plan: MieruPlan)
      ensures this.home == home && View() == NewMieru(plan)
    {
      this.home, this.plan, running := home, plan, false;
    }

    method Start() returns (ok: bool)
      requires !running
      modifies this
      ensures ok == !plan.fails && View() == StartMieru(old(View()))
    {
      if plan.fails {
        return false;
      }
      running := true;
      return true;
    }

    method Close()
      modifies this
      ensures View() == CloseMieru(old(View()))
    {
      if !running {
        return;
      }
      running := false;
    }
  }

  class Node {
    ghost const number: nat
    const server: Core
    ghost const xray: seq<XrayLifecycle>
    ghost const mieru: seq<MieruLifecycle>
    var xrayNodes: seq<XrayLifecycle>
    var mieruNodes: seq<MieruLifecycle>

    /** The controllers are distinct objects of this set, on one core. */
    ghost predicate Valid()
      reads this
    {
      && (forall i, j | 0 <= i < j < |xray| :: xray[i] != xray[j])
      && (forall i, j | 0 <= i < j < |mieru| :: mieru[i] != mieru[j])
      && (forall i | 0 <= i < |xray| :: xray[i].server == server && xray[i].home == number)
      && (forall i | 0 <= i < |mieru| :: mieru[i].home == number)
    }

    /** The lists hold all controllers; after closing they are empty. */
    ghost predicate Full()
      reads this
    {
      xrayNodes == xray && mieruNodes == mieru
    }

    ghost function View(): SetState
      reads xray, mieru
    {
      SetState(server.number, seq(|xray|, i requires 0 <= i < |xray| reads xray => xray[i].View()),
               seq(|mieru|, i requires 0 <= i < |mieru| reads mieru => mieru[i].View()))
    }

    constructor (ghost number: nat, server: Core, plan: Plan)
      ensures this.number == number && this.server == server
      ensures Valid() && Full() && View() == NewSet(server.number, plan)
      ensures (forall i | 0 <= i < |xray| :: fresh(xray[i])) && (forall i | 0 <= i < |mieru| :: fresh(mieru[i]))
    {
      var xs: seq<XrayLifecycle> := [];
      for i := 0 to |plan.xray|
        invariant |xs| == i
        invariant forall j | 0 <= j < i :: fresh(xs[j]) && xs[j].home == number && xs[j].server == server
        invariant forall j | 0 <= j < i :: xs[j].View() == NewXray(plan.xray[j])
        invariant forall j, k | 0 <= j < k < i :: xs[j] != xs[k]
      {
        var x := new XrayLifecycle(number, server, plan.xray[i]);
        xs := xs + [x];
      }
      var ms: seq<MieruLifecycle> := [];
      for i := 0 to |plan.mieru|
        invariant |ms| == i && |xs| == |plan.xray| && forall j | 0 <= j < |xs| :: xs[j].View() == NewXray(plan.xray[j])
        invariant forall j | 0 <= j < i ::
                    fresh(ms[j]) && ms[j].home == number && ms[j].View() == NewMieru(plan.mieru[j])
        invariant forall j, k | 0 <= j < k < i :: ms[j] != ms[k]
      {
        var m := new MieruLifecycle(number, plan.mieru[i]);
        ms := ms + [m];
      }
      this.number, this.server := number, server;
      xray, mieru, xrayNodes, mieruNodes := xs, ms, xs, ms;
      new;
      assert View().xray == NewSet(server.number, plan).xray && View().mieru == NewSet(server.number, plan).mieru;
    }

    method StartXrayNodes(ghost was: seq<XrayState>) returns (ok: bool)
      requires Valid() && Full() && was == View().xray
      modifies xray
      ensures ok <==> XrayPassed(was) == |was|
      ensures forall i | 0 <= i < |xray| ::
                xray[i].View() == if was[i].plan.enabled && i <= XrayPassed(was) then StartXray(was[i]) else was[i]
    {
      hide StartXray; hide XrayPassed;
      for i := 0 to |xrayNodes|
        invariant i <= XrayPassed(was)
        invariant forall j | 0 <= j < i :: xray[j].View() == if was[j].plan.enabled then StartXray(was[j]) else was[j]
        invariant forall j | i <= j < |xray| :: xray[j].View() == was[j]
      {
        assert xrayNodes[i].View() == was[i];
        if !xrayNodes[i].plan.enabled {
          continue;
        }
        var started := xrayNodes[i].Start();
        if !started {
          assert XrayPassed(was) == i;
          return false;
        }
      }
      return true;
    }

    method StartMieruNodes(ghost was: seq<MieruState>) returns (ok: bool)
      requires Valid() && Full() && was == View().mieru && forall i | 0 <= i < |mieru| :: !mieru[i].running
      modifies mieru
      ensures ok <==> MieruPassed(was) == |was|
      ensures forall i | 0 <= i < |mieru| ::
                mieru[i].View() == if was[i].plan.enabled && i <= MieruPassed(was) then StartMieru(was[i]) else was[i]
    {
      hide StartMieru; hide MieruPassed;
      for i := 0 to |mieruNodes|
        invariant i <= MieruPassed(was)
        invariant forall j | 0 <= j < i :: mieru[j].View() == if was[j].plan.enabled then StartMieru(was[j]) else was[j]
        invariant forall j | i <= j < |mieru| :: mieru[j].View() == was[j] && !mieru[j].running
      {
        assert mieruNodes[i].View() == was[i];
        if !mieruNodes[i].plan.enabled {
          continue;
        }
        var started := mieruNodes[i].Start();
        if !started {
          assert MieruPassed(was) == i;
          return false;
        }
      }
      return true;
    }

    method Start() returns (ok: bool)
      requires Valid() && Full() && forall i | 0 <= i < |mieru| :: !mieru[i].running
      modifies xray, mieru
      ensures ok == SetStarts(old(View())) && View() == StartSet(old(View()))
    {
      hide StartXray; hide StartMieru; hide XrayPassed; hide MieruPassed;
      ghost var was := View();
      ok := StartXrayNodes(was.xray);
      assert View().mieru == was.mieru;
      if ok {
        ok := StartMieruNodes(was.mieru);
      }
      assert View().xray == StartSet(was).xray && View().mieru == StartSet(was).mieru;
    }

    /** Closes every controller, also after a start that gave up. */
    method Close()
      requires Valid() && Full()
      modifies this, xray, mieru
      ensures View() == CloseSet(old(View()), server.managed) && xrayNodes == [] && mieruNodes == []
    {
      hide CloseXray; hide CloseMieru;
      ghost var was := View();
      for i := 0 to |xrayNodes|
        invariant Full() && server.managed == old(server.managed)
        invariant forall j | 0 <= j < i :: xray[j].View() == CloseXray(was.xray[j], server.managed)
        invariant forall j | i <= j < |xray| :: xray[j].View() == was.xray[j]
        invariant forall j | 0 <= j < |mieru| :: mieru[j].View() == was.mieru[j]
      {
        var _ := xrayNodes[i].Close();
      }
      xrayNodes := [];
      for i := 0 to |mieruNodes|
        invariant xrayNodes == [] && mieruNodes == mieru && server.managed == old(server.managed)
        invariant forall j | 0 <= j < |xray| :: xray[j].View() == CloseXray(was.xray[j], server.managed)
        invariant forall j | 0 <= j < i :: mieru[j].View() == CloseMieru(was.mieru[j])
        invariant forall j | i <= j < |mieru| :: mieru[j].View() == was.mieru[j]
      {
        mieruNodes[i].Close();
      }
      mieruNodes := [];
    }
  }

  /** The main loop's variables, and for reasoning everything ever made. */
  class Process {
    var xcore: Core?
    var nodes: Node?
    const reloadCh: Channel
    var crashed: bool
    ghost var cores: seq<Core>
    ghost var sets: seq<Node>

    constructor ()
      ensures Numbered() && CoreStates() == [] && SetStates() == [] && fresh(reloadCh) && !reloadCh.queued
      ensures xcore == null && nodes == null && !crashed
    {
      reloadCh := new Channel();
      xcore, nodes, cores, sets, crashed := null, null, [], [], false;
    }

    ghost function Xrays(): set<XrayLifecycle>
      reads this
    {
      set k, i | 0 <= k < |sets| && 0 <= i < |sets[k].xray| :: sets[k].xray[i]
    }

    ghost function Mierus(): set<MieruLifecycle>
      reads this
    {
      set k, i | 0 <= k < |sets| && 0 <= i < |sets[k].mieru| :: sets[k].mieru[i]
    }

    ghost function CoreStates(): seq<CoreState>
      reads this, cores, sets, Xrays(), Mierus()
    {
      seq(|cores|, i requires 0 <= i < |cores| reads this, cores, sets, Xrays(), Mierus() => cores[i].View())
    }

    ghost function SetStates(): seq<SetState>
      reads this, cores, sets, Xrays(), Mierus()
    {
      seq(|sets|, k requires 0 <= k < |sets| reads this, cores, sets, Xrays(), Mierus() => sets[k].View())
    }

    ghost function View(): World
      reads this, cores, sets, Xrays(), Mierus()
    {
      World(CoreStates(), SetStates(), if xcore == null then None else Some(xcore.number),
            if nodes == null then None else Some(nodes.number))
    }

    /** Cores and sets carry their numbers, so they are distinct objects, and so are the controllers of different
        sets. */
    ghost predicate Numbered()
      reads this, cores, sets, Xrays(), Mierus()
    {
      && (forall i | 0 <= i < |cores| ::
          cores[i].number == i && (cores[i].reloadCh == null || cores[i].reloadCh == reloadCh))
      && (forall k | 0 <= k < |sets| :: sets[k].number == k && sets[k].Valid() && sets[k].server in cores)
      && (xcore != null ==> xcore in cores)
      && (nodes != null ==> nodes in sets && nodes.Full())
    }

    ghost function Fate(): L.Fate
      reads this, cores, sets, Xrays(), Mierus()
    {
      if crashed then Crashed(View()) else Alive(View())
    }

    ghost predicate Valid()
      reads this, cores, sets, Xrays(), Mierus()
    {
      Numbered() && Good(View())
    }

    method CloseNodes()
      requires Numbered() && nodes != null
      modifies this`nodes, nodes, nodes.xray, nodes.mieru
      ensures Numbered() && nodes == null && CoreStates() == old(CoreStates())
      ensures var k := old(nodes.number);
              && k < |sets| && SetStates() ==
                 old(SetStates())[k := CloseSet(old(SetStates())[k], old(nodes.server.managed))]
    {
      hide CloseSet;
      ghost var k, was := nodes.number, SetStates();
      assert was[k] == nodes.View();
      nodes.Close();
      forall l | 0 <= l < |sets| && l != k ensures sets[l].View() == was[l] {
        assert sets[l].number == l;
      }
      assert SetStates() == was[k := CloseSet(was[k], nodes.server.managed)];
      nodes := null;
    }

    method CloseXcore()
      requires Numbered() && xcore != null
      modifies this`xcore, xcore
      ensures Numbered() && xcore == null && SetStates() == old(SetStates())
      ensures var i := old(xcore.number);
              && i < |cores| && CoreStates() == old(CoreStates())[i := CloseCore(old(CoreStates())[i])]
    {
      ghost var i, was := xcore.number, CoreStates();
      assert was[i] == xcore.View();
      xcore.Close();
      assert CoreStates() == was[i := CloseCore(was[i])];
      xcore := null;
    }

    /** Closes the old nodes, then the old core, and forgets both. */
    method CloseOld()
      requires Valid()
      modifies this`nodes, this`xcore, xcore, nodes
      modifies if nodes == null then [] else nodes.xray
      modifies if nodes == null then [] else nodes.mieru
      ensures Numbered() && nodes == null && xcore == null
      ensures Indexed(old(View())) && View() == TearDown(old(View()))
    {
      hide CloseSet; hide Quiet; hide Shaped; hide CoresGood; hide SetsGood;
      ghost var was := View();
      if nodes != null {
        assert was.sets[nodes.number] == nodes.View() && was.cores[nodes.server.number] == nodes.server.View();
        CloseNodes();
      }
      if xcore != null {
        CloseXcore();
      }
    }

    ghost predicate Next(c: Core)
      reads this, c
    {
      c.number == |cores| && (c.reloadCh == null || c.reloadCh == reloadCh)
    }

    ghost method NoteCore(c: Core)
      requires Numbered() && Next(c)
      modifies this`cores
      ensures Numbered() && cores == old(cores) + [c]
      ensures CoreStates() == old(CoreStates()) + [c.View()] && SetStates() == old(SetStates())
    {
      cores := cores + [c];
      forall k | 0 <= k < |sets| ensures sets[k].server in cores {
      }
      assert CoreStates() == old(CoreStates()) + [c.View()];
      assert SetStates() == old(SetStates());
    }

    ghost method NoteSet(n: Node)
      requires Numbered() && n.number == |sets| && n.Valid() && n.server in cores
      modifies this`sets
      ensures Numbered() && sets == old(sets) + [n]
      ensures CoreStates() == old(CoreStates()) && SetStates() == old(SetStates()) + [n.View()]
    {
      sets := sets + [n];
      assert SetStates() == old(SetStates()) + [n.View()];
      assert CoreStates() == old(CoreStates());
    }

    ghost predicate NextNodes(n: Node, c: Core)
      reads n
    {
      n.server == c && n.Valid() && n.Full()
    }

    method StartNew(n: Node, ghost c: Core) returns (ok: bool)
      requires Numbered() && n.number == |sets| && NextNodes(n, c)
      requires forall i | 0 <= i < |n.mieru| :: !n.mieru[i].running
      modifies n.xray, n.mieru
      ensures Numbered() && NextNodes(n, c) && n.Full() && CoreStates() == old(CoreStates()) &&
              SetStates() == old(SetStates())
      ensures ok == SetStarts(old(n.View())) && n.View() == StartSet(old(n.View()))
    {
      hide SetStarts; hide StartSet;
      ghost var was := SetStates();
      ok := n.Start();
      forall l | 0 <= l < |sets| ensures sets[l].View() == was[l] {
        assert sets[l].number == l;
      }
    }

    method CloseNewNodes(n: Node, c: Core)
      requires Numbered() && n.number == |sets| && NextNodes(n, c) && Next(c)
      modifies n, n.xray, n.mieru
      ensures Numbered() && n.Valid() && Next(c) && CoreStates() == old(CoreStates()) && SetStates() == old(SetStates())
      ensures n.View() == CloseSet(old(n.View()), old(c.managed)) && c.View() == old(c.View())
    {
      hide CloseSet;
      ghost var was := SetStates();
      n.Close();
      forall l | 0 <= l < |sets| ensures sets[l].View() == was[l] {
        assert sets[l].number == l;
      }
      assert SetStates() == was;
    }

    method CloseNewCore(c: Core)
      requires Numbered() && Next(c)
      modifies c
      ensures Numbered() && CoreStates() == old(CoreStates()) && SetStates() == old(SetStates()) &&
              View() == old(View())
      ensures Next(c) && c.View() == CloseCore(old(c.View()))
    {
      ghost var was := CoreStates();
      c.Close();
      forall i | 0 <= i < |cores| ensures cores[i].View() == was[i] {
        assert cores[i].number == i;
      }
      assert CoreStates() == was;
    }

    method CloseNew(n: Node, c: Core)
      requires Numbered() && n.number == |sets| && NextNodes(n, c) && Next(c)
      modifies n, n.xray, n.mieru, c
      ensures Numbered() && n.Valid() && Next(c) && CoreStates() == old(CoreStates()) && SetStates() == old(SetStates())
      ensures n.View() == CloseSet(old(n.View()), old(c.managed)) && c.View() == CloseCore(old(c.View()))
    {
      hide CloseSet; hide Numbered; hide CoreStates; hide SetStates; hide NextNodes; hide View;
      CloseNewNodes(n, c);
      CloseNewCore(c);
    }

    method Install(n: Node, c: Core)
      requires Numbered() && c in cores && n in sets && n.Full()
      modifies this`nodes, this`xcore
      ensures Numbered() && nodes == n && xcore == c
      ensures CoreStates() == old(CoreStates()) && SetStates() == old(SetStates())
    {
      nodes := n;
      xcore := c;
    }

    /** New instances share nothing with the current ones. */
    lemma OldIsNotNew(c: Core, n: Node)
      requires Numbered() && c.number == |cores| && n.number == |sets| && n.Valid()
      ensures xcore != c && nodes != n
      ensures nodes != null ==>
                (forall x | x in nodes.xray :: x !in n.xray) && (forall m | m in nodes.mieru :: m !in n.mieru)
      ensures nodes != null ==> nodes.server != c
    {
      if nodes != null {
        assert nodes.Valid();
      }
    }

    /** Tears the old instances down without touching the new ones. */
    method CloseOldFor(ghost newCore: Core, ghost newNodes: Node)
      requires Valid() && Next(newCore) && newNodes.number == |sets| && NextNodes(newNodes, newCore)
      modifies this`nodes, this`xcore, xcore, nodes
      modifies if nodes == null then [] else nodes.xray
      modifies if nodes == null then [] else nodes.mieru
      ensures Numbered() && nodes == null && xcore == null
      ensures Indexed(old(View())) && View() == TearDown(old(View()))
      ensures Next(newCore) && NextNodes(newNodes, newCore)
      ensures newCore.View() == old(newCore.View()) && newNodes.View() == old(newNodes.View())
    {
      OldIsNotNew(newCore, newNodes);
      hide CloseSet; hide Good; hide TearDown; hide Numbered; hide CoreStates; hide SetStates; hide L.Indexed;
      hide View;
      hide Node.View; hide Node.Valid; hide Core.View;
      CloseOld();
    }

    /** Starts the new nodes and installs them with their core, or closes both again. */
    method RaiseNew(newCore: Core, newNodes: Node) returns (ok: bool)
      requires Numbered() && nodes == null && xcore == null && Next(newCore) && newCore.managed
      requires newNodes.number == |sets| && NextNodes(newNodes, newCore)
      requires forall i | 0 <= i < |newNodes.mieru| :: !newNodes.mieru[i].running
      modifies this, newCore, newNodes, newNodes.xray, newNodes.mieru
      ensures Numbered() && ok == SetStarts(old(newNodes.View()))
      ensures CoreStates() == old(CoreStates()) + [if ok then old(newCore.View()) else CloseCore(old(newCore.View()))]
      ensures SetStates() == old(SetStates()) +
                             [if ok then StartSet(old(newNodes.View()))
                              else CloseSet(StartSet(old(newNodes.View())), true)]
      ensures crashed == old(crashed)
      ensures if ok then xcore == newCore && nodes == newNodes else xcore == null && nodes == null
    {
      hide CloseSet; hide SetStarts; hide StartSet; hide Numbered; hide CoreStates; hide SetStates;
      assert newNodes.server == newCore;
      hide NextNodes;
      ok := StartNew(newNodes, newCore);
      if !ok {
        CloseNew(newNodes, newCore);
      }
      NoteCore(newCore);
      assert newCore == cores[|cores| - 1];
      NoteSet(newNodes);
      assert newNodes == sets[|sets| - 1];
      if ok {
        Install(newNodes, newCore);
      }
    }

    method SwapStates(newCore: Core, newNodes: Node) returns (ok: bool)
      requires Valid() && Next(newCore) && newCore.managed
      requires newNodes.number == |sets| && NextNodes(newNodes, newCore)
      requires forall m | m in newNodes.View().mieru :: !m.running
      modifies this, xcore, nodes, newCore, newNodes, newNodes.xray, newNodes.mieru
      modifies if nodes == null then [] else nodes.xray
      modifies if nodes == null then [] else nodes.mieru
      ensures Numbered() && Indexed(old(View())) && ok == SetStarts(old(newNodes.View())) && crashed == old(crashed)
      ensures CoreStates() == TearDown(old(View())).cores +
                              [if ok then old(newCore.View()) else CloseCore(old(newCore.View()))]
      ensures SetStates() == TearDown(old(View())).sets +
                             [if ok then StartSet(old(newNodes.View()))
                              else CloseSet(StartSet(old(newNodes.View())), true)]
      ensures if ok then xcore == newCore && nodes == newNodes else xcore == null && nodes == null
    {
      hide CloseSet; hide Good; hide TearDown; hide SetStarts; hide StartSet; hide Numbered; hide CoreStates;
      hide SetStates;
      hide NextNodes; hide L.Indexed;
      CloseOldFor(newCore, newNodes);
      NoneRuns(newNodes);
      ok := RaiseNew(newCore, newNodes);
    }

    lemma NoneRuns(n: Node)
      requires forall m | m in n.View().mieru :: !m.running
      ensures forall i | 0 <= i < |n.mieru| :: !n.mieru[i].running
    {
      forall i | 0 <= i < |n.mieru| ensures !n.mieru[i].running {
        assert n.View().mieru[i] in n.View().mieru;
      }
    }

    /** The last phase of a reload. */
    method Swap(newCore: Core, newNodes: Node) returns (ok: bool)
      requires Valid() && Next(newCore) && newCore.managed
      requires newNodes.number == |sets| && NextNodes(newNodes, newCore)
      requires forall m | m in newNodes.View().mieru :: !m.running
      modifies this, xcore, nodes, newCore, newNodes, newNodes.xray, newNodes.mieru
      modifies if nodes == null then [] else nodes.xray
      modifies if nodes == null then [] else nodes.mieru
      ensures Numbered() && Indexed(old(View())) && ok == SetStarts(old(newNodes.View()))
      ensures View() == L.Swap(old(View()), old(newCore.View()), old(newNodes.View())) && crashed == old(crashed)
    {
      hide CloseSet; hide Good; hide TearDown; hide SetStarts; hide StartSet; hide Numbered; hide CoreStates;
      hide SetStates;
      hide NextNodes; hide L.Indexed;
      ghost var w := View();
      GoodIsIndexed(w);
      TearDownSizes(w);
      SizesAgree();
      ok := SwapStates(newCore, newNodes);
    }

    lemma SizesAgree()
      ensures |CoreStates()| == |cores| && |SetStates()| == |sets|
    {
    }

    /** The new core with the old core's channel, if there is an old core. */
    method MakeCore(serves: bool) returns (c: Core, started: bool)
      requires Numbered()
      ensures Numbered() && View() == old(View()) && fresh(c) && c !in cores && Next(c)
      ensures started == serves && c.View() == StartCore(NewCore(HoldsChannel(View())), serves)
    {
      var channel: Channel? := null;
      if xcore != null {
        channel := xcore.reloadCh;
        assert View().cores[xcore.number] == xcore.View();
      }
      c := new Core(|cores|);
      c.reloadCh := channel;
      started := c.Start(serves);
      assert View() == old(View());
    }

    method MakeNodes(c: Core, plan: Plan) returns (n: Node)
      requires Numbered() && Next(c)
      ensures Numbered() && View() == old(View()) && c.View() == old(c.View()) && Next(c)
      ensures fresh(n) && n.number == |sets| && NextNodes(n, c) && n.View() == NewSet(|cores|, plan)
      ensures (forall i | 0 <= i < |n.xray| :: fresh(n.xray[i]))
      ensures (forall i | 0 <= i < |n.mieru| :: fresh(n.mieru[i])) && forall m | m in n.View().mieru :: !m.running
    {
      n := new Node(|sets|, c, plan);
      assert View() == old(View());
      assert forall m | m in NewSet(|cores|, plan).mieru :: !m.running;
    }

    /** Builds the core's instance, which panics when the configuration does not compile or is not accepted. */
    method BuildInstance(plan: Plan) returns (ok: bool)
      requires Numbered()
      ensures Numbered() && View() == old(View()) && ok == Builds(plan)
    {
      hide Router.Compiled;
      var compiled := Router.Build(plan.lib, plan.config);
      ok := compiled.Built? && plan.accepted;
      assert View() == old(View());
    }

    method Reload(plan: Plan) returns (ok: bool)
      requires Valid() && !crashed
      modifies this, xcore, nodes
      modifies if nodes == null then [] else nodes.xray
      modifies if nodes == null then [] else nodes.mieru
      ensures Valid() && Indexed(old(View())) && Fate() == L.Reload(old(View()), plan)
      ensures ok <==> ReachesTearDown(plan) && !FailsLate(plan)
    {
      hide CloseSet; hide TearDown; hide SetStarts; hide StartSet; hide CoreStates; hide SetStates; hide Numbered;
      hide XrayPassed; hide MieruPassed; hide Good; hide L.Indexed; hide NextNodes; hide NewSet; hide Builds;
      ghost var w := View();
      GoodIsIndexed(w);
      ReloadKeepsGood(w, plan);
      FailsLateAnywhere(|cores|, plan);
      SizesAgree();
      if !plan.loads || !plan.fetches || !plan.valid {
        return false;
      }
      var built := BuildInstance(plan);
      if !built {
        SetCrashed();
        return false;
      }
      var newCore, started := MakeCore(plan.coreStarts);
      if !started {
        NoteCore(newCore);
        return false;
      }
      if !plan.nodesMade {
        CloseNewCore(newCore);
        NoteCore(newCore);
        return false;
      }
      var newNodes := MakeNodes(newCore, plan);
      ok := Swap(newCore, newNodes);
    }

    /** What the main loop's reasoning is about. */
    ghost function LoopState(): Loop
      reads this, cores, sets, Xrays(), Mierus(), reloadCh
    {
      Loop(Fate(), reloadCh.queued)
    }

    method MakeFirst(plan: Plan) returns (core: Core, n: Node, ok: bool)
      requires Numbered() && cores == [] && sets == []
      ensures Numbered() && View() == old(View()) && CoreStates() == [] && SetStates() == []
      ensures fresh(core) && core !in cores && Next(core) && core.View() == StartCore(NewCore(true), true)
      ensures n.number == 0 && NextNodes(n, core) && n.Full() && ok == SetStarts(NewSet(0, plan))
      ensures n.View() == StartSet(NewSet(0, plan)) && n.Valid() && n.server == core
    {
      hide SetStarts; hide StartSet; hide NewSet;
      core := new Core(0);
      core.reloadCh := reloadCh;
      var _ := core.Start(true);
      n := MakeNodes(core, plan);
      NoneRuns(n);
      ok := StartNew(n, core);
      assert CoreStates() == [] && SetStates() == [];
    }

    /** Start-up: the first core and nodes; without them the program ends. */
    method Boot(plan: Plan) returns (ok: bool)
      requires Numbered() && cores == [] && sets == [] && xcore == null && nodes == null && !crashed
      modifies this
      ensures Numbered() && (ok <==> ReachesTearDown(plan) && AllStart(plan))
      ensures crashed <==> Crashes(plan)
      ensures ok ==> Valid() && View() == Initial(plan)
    {
      StartsExactly(0, plan);
      if AllStart(plan) {
        InitialGood(plan);
      }
      hide SetStarts; hide StartSet; hide NewSet; hide NextNodes; hide Numbered; hide Good; hide CoreStates;
      hide SetStates; hide AllStart; hide MadeFor;
      hide Builds;
      if !plan.loads || !plan.fetches || !plan.valid {
        return false;
      }
      var built := BuildInstance(plan);
      if !built {
        SetCrashed();
        return false;
      }
      if !plan.coreStarts || !plan.nodesMade {
        return false;
      }
      ok := BootNodes(plan);
    }

    method SetCrashed()
      requires Numbered()
      modifies this`crashed
      ensures Numbered() && View() == old(View()) && crashed
    {
      crashed := true;
      assert View() == old(View());
    }

    method BootNodes(plan: Plan) returns (ok: bool)
      requires Numbered() && cores == [] && sets == [] && xcore == null && nodes == null && !crashed
      modifies this
      ensures Numbered() && ok == SetStarts(NewSet(0, plan)) && !crashed
      ensures ok ==> View() == Initial(plan)
    {
      hide SetStarts; hide StartSet; hide NewSet; hide NextNodes; hide Numbered; hide Good; hide CoreStates;
      hide SetStates;
      var core, n;
      core, n, ok := MakeFirst(plan);
      if !ok {
        CloseNewCore(core);
        return;
      }
      NoteCore(core);
      assert core == cores[0];
      NoteSet(n);
      assert n == sets[0];
      Install(n, core);
      assert View() == Initial(plan);
    }

    method Send()
      requires Valid()
      modifies reloadCh
      ensures Valid() && Fate() == old(Fate()) && View() == old(View()) && reloadCh.queued
    {
      hide Good;
      reloadCh.TrySend();
      assert View() == old(View());
    }

    method Receive()
      requires Valid() && reloadCh.queued
      modifies reloadCh
      ensures Valid() && Fate() == old(Fate()) && View() == old(View()) && !reloadCh.queued
    {
      hide Good;
      reloadCh.Receive();
      assert View() == old(View());
    }

    /** The file watcher's signal. */
    method FileChanged()
      requires Valid() && !crashed
      modifies reloadCh
      ensures Valid() && LoopState() == Handle(old(LoopState()), Event.FileChanged)
    {
      hide Good; hide Numbered; hide View;
      Send();
    }

    /** A core's monitor, or one of its Xray tasks that ran out of time, asks for a reload. */
    method Ask(core: Core)
      requires Valid() && !crashed && core in cores
      modifies reloadCh
      ensures Valid() && LoopState() == Handle(old(LoopState()), Asks(core.number))
    {
      hide Good;
      assert View().cores[core.number] == core.View() && (core.reloadCh != null ==> core.reloadCh == reloadCh);
      assert |View().cores| == |cores| && core.number < |cores|;
      hide Numbered; hide View;
      if core.reloadCh != null {
        Send();
      }
    }

    /** One turn of the main loop. */
    method Turn(plan: Plan)
      requires Valid() && !crashed
      modifies this, xcore, nodes, reloadCh
      modifies if nodes == null then [] else nodes.xray
      modifies if nodes == null then [] else nodes.mieru
      ensures Valid() && LoopState() == Handle(old(LoopState()), Event.Turn(plan))
    {
      hide Good; hide L.Reload; hide Numbered; hide L.Indexed; hide View;
      if reloadCh.queued {
        Receive();
        var _ := Reload(plan);
      }
    }

    /** An operating-system signal. */
    method Shutdown()
      requires Valid() && !crashed
      modifies this`nodes, this`xcore, xcore, nodes
      modifies if nodes == null then [] else nodes.xray
      modifies if nodes == null then [] else nodes.mieru
      ensures Numbered() && Indexed(old(View())) && View() == TearDown(old(View()))
    {
      CloseOld();
    }
  }
}
