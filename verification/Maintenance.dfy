/** The maintenance state machine of the server controller: a raised flag before a sibling scan, and
    the quorum guard for control-plane nodes. */
module Maintenance {
  import opened Base

  datatype Phase = NoPhase | Checking | Draining | Active

  datatype Role = NoRole | ControlPlane | Worker

  datatype Window = Window(start: Option<int>, end: Option<int>)

  datatype MaintenanceSpec = MaintenanceSpec(enabled: bool, window: Option<Window>)

  /** A ServerConfig as the checks see it; cluster is the value of its cluster label. */
  datatype ServerConfig = ServerConfig(name: string, cluster: Option<string>, spec: Option<MaintenanceSpec>,
    node: Option<string>, role: Role, phase: Phase, blockedReason: Option<Reason>)

  datatype Node = Node(name: string, controlPlane: bool, unschedulable: bool, ready: bool)

  datatype Reason =
    | ConcurrentMaintenance(sibling: string, phase: Phase)
    | EksaControlPlaneForbidden
    | EtcdQuorumRisk(total: nat)
    | NoSchedulableWorkers

  /** The phases that stop a sibling from entering. */
  predicate Flagged(p: Phase) {
    p == Checking || p == Draining || p == Active
  }

  predicate MaintenanceRequested(m: Option<MaintenanceSpec>) {
    m.Some? && m.value.enabled
  }

  predicate WindowBlocked(m: Option<MaintenanceSpec>, now: int) {
    m.Some? && m.value.window.Some? &&
    (var w := m.value.window.value;
     (w.start.Some? && now < w.start.value) || (w.end.Some? && now >= w.end.value))
  }

  /** Maintenance is enabled, and every bound that its window states admits the moment. */
  predicate MayStart(m: Option<MaintenanceSpec>, now: int) {
    match m
    case None => false
    case Some(spec) =>
      spec.enabled &&
      match spec.window
      case None => true
      case Some(w) =>
        && (match w.start case None => true case Some(start) => start <= now)
        && (match w.end case None => true case Some(end) => now < end)
  }

  method CheckWindow(m: Option<MaintenanceSpec>, now: int) returns (blocked: bool)
    ensures blocked == WindowBlocked(m, now)
    ensures MaintenanceRequested(m) ==> (blocked <==> !MayStart(m, now))
  {
    if m.None? || m.value.window.None? {
      return false;
    }
    var w := m.value.window.value;
    if w.start.Some? && now < w.start.value {
      return true;
    }
    if w.end.Some? && now >= w.end.value {
      return true;
    }
    return false;
  }

  /** Removing one of total control-plane nodes leaves an etcd quorum. */
  predicate QuorumSafe(total: nat) {
    total - 1 >= total / 2 + 1
  }

  predicate OtherWorkerReady(n: Node, nodeName: string) {
    n.name != nodeName && !n.controlPlane && !n.unschedulable && n.ready
  }

  method CheckNoConcurrentMaintenance(list: seq<ServerConfig>, name: string) returns (reason: Option<Reason>)
    ensures reason.None? <==> forall x | x in list && x.name != name :: !Flagged(x.phase)
    ensures reason.Some? ==> exists x | x in list :: x.name != name && Flagged(x.phase) && reason.value == ConcurrentMaintenance(x.name, x.phase)
  {
    for i := 0 to |list|
      invariant forall x | x in list[..i] && x.name != name :: !Flagged(x.phase)
    {
      var sibling := list[i];
      assert list[..i + 1] == list[..i] + [sibling];
      if sibling.name != name {
        match sibling.phase {
          case Checking | Draining | Active =>
            assert sibling in list;
            return Some(ConcurrentMaintenance(sibling.name, sibling.phase));
          case NoPhase =>
        }
      }
    }
    assert list[..|list|] == list;
    return None;
  }

  method CheckControlPlaneGuard(nodes: seq<Node>, eksa: bool) returns (reason: Option<Reason>)
    ensures reason == if eksa then Some(EksaControlPlaneForbidden)
                      else if QuorumSafe(CountControlPlane(nodes)) then None
                      else Some(EtcdQuorumRisk(CountControlPlane(nodes)))
  {
    if eksa {
      return Some(EksaControlPlaneForbidden);
    }
    var total: int := CountControlPlane(nodes);
    if total - 1 < total / 2 + 1 {
      return Some(EtcdQuorumRisk(total));
    }
    return None;
  }

  function CountControlPlane(nodes: seq<Node>): nat {
    if nodes == [] then 0 else (if nodes[0].controlPlane then 1 else 0) + CountControlPlane(nodes[1..])
  }

  function ControlPlaneIndices(nodes: seq<Node>): set<nat> {
    set i: nat | i < |nodes| && nodes[i].controlPlane
  }

  /** The count is the number of control-plane nodes in the list. */
  lemma {:induction false} CountIs(nodes: seq<Node>)
    ensures CountControlPlane(nodes) == |ControlPlaneIndices(nodes)|
    decreases |nodes|
  {
    if nodes == [] {
      assert ControlPlaneIndices(nodes) == {};
    } else {
      var n := |nodes| - 1;
      var init := nodes[..n];
      CountIs(init);
      assert nodes == init + [nodes[n]];
      CountOneMore(init, nodes[n]);
      IndicesOneMore(nodes, n);
    }
  }

  lemma IndicesOneMore(nodes: seq<Node>, n: nat)
    requires |nodes| == n + 1
    ensures ControlPlaneIndices(nodes) == ControlPlaneIndices(nodes[..n]) + if nodes[n].controlPlane then {n} else {}
    ensures n !in ControlPlaneIndices(nodes[..n])
  {
    forall i: nat ensures i in ControlPlaneIndices(nodes) <==> i in ControlPlaneIndices(nodes[..n]) || (i == n && nodes[n].controlPlane) {
      if i < n {
        assert nodes[..n][i] == nodes[i];
      }
    }
  }

  lemma {:induction false} CountOneMore(nodes: seq<Node>, n: Node)
    ensures CountControlPlane(nodes + [n]) == CountControlPlane(nodes) + if n.controlPlane then 1 else 0
    decreases |nodes|
  {
    if nodes == [] {
      assert (nodes + [n])[1..] == [];
    } else {
      assert (nodes + [n])[1..] == nodes[1..] + [n];
      CountOneMore(nodes[1..], n);
    }
  }

  method CheckSchedulableWorkers(nodes: seq<Node>, nodeName: string) returns (reason: Option<Reason>)
    ensures reason == if exists n | n in nodes :: OtherWorkerReady(n, nodeName) then None else Some(NoSchedulableWorkers)
  {
    var schedulable := 0;
    for i := 0 to |nodes|
      invariant schedulable >= 0
      invariant schedulable == 0 <==> forall n | n in nodes[..i] :: !OtherWorkerReady(n, nodeName)
    {
      var n := nodes[i];
      assert nodes[..i + 1] == nodes[..i] + [n] && n in nodes[..i + 1];
      if n.name == nodeName || n.controlPlane || n.unschedulable {
        continue;
      }
      if n.ready {
        schedulable := schedulable + 1;
      }
    }
    assert nodes[..|nodes|] == nodes;
    reason := if schedulable == 0 then Some(NoSchedulableWorkers) else None;
  }

  // ----- the protocol of interleaved reconciles

  /** Where a server's reconcile stands between its API calls. */
  datatype Pc = Idle | Scanning(seen: set<string>) | Passed | Blocked | Clearing

  datatype Server = Server(phase: Phase, requested: bool, pc: Pc)

  type System = map<string, Server>

  /** The fixed part of the cluster: labelled servers are the ones a sibling scan lists, present
      servers the ones whose node exists. */
  datatype Config = Config(role: map<string, Role>, node: map<string, string>, cpNodes: set<string>, eksa: bool,
    labelled: set<string>, present: set<string>)

  /** Siblings see the server, and it looks at its siblings. */
  predicate Checked(cfg: Config, i: string) {
    i in cfg.labelled && i in cfg.present
  }

  predicate IsControlPlane(cfg: Config, i: string) {
    i in cfg.role && cfg.role[i] == ControlPlane
  }

  /** The guard a control-plane server has to pass; a worker's guard depends on the moment. */
  predicate GuardMayPass(cfg: Config, i: string) {
    IsControlPlane(cfg, i) ==> !cfg.eksa && QuorumSafe(|cfg.cpNodes|)
  }

  datatype Action =
    | Raise(i: string)
    | Bypass(i: string)
    | BeginScan(i: string)
    | ReadSibling(i: string, j: string)
    | FinishScan(i: string, pass: bool)
    | WriteActive(i: string)
    | WriteBlocked(i: string)
    | BeginClear(i: string)
    | WriteClear(i: string)
    | Abort(i: string)
    | Request(i: string, enabled: bool)

  /** The servers a scan by i lists. */
  function Siblings(s: System, cfg: Config, i: string): set<string> {
    s.Keys * cfg.labelled - {i}
  }

  predicate Enabled(s: System, cfg: Config, a: Action) {
    a.i in s && (var x := s[a.i];
      match a
      case Raise(_) => x.pc == Idle && x.phase == NoPhase && x.requested
      case Bypass(i) => x.pc == Idle && x.phase == Checking && x.requested && i !in cfg.present
      case BeginScan(i) => x.pc == Idle && x.phase == Checking && x.requested && i in cfg.present
      case ReadSibling(i, j) => x.pc.Scanning? && j in Siblings(s, cfg, i) && j !in x.pc.seen
      case FinishScan(i, pass) => x.pc.Scanning? && Siblings(s, cfg, i) <= x.pc.seen && (pass ==> GuardMayPass(cfg, i))
      case WriteActive(_) => x.pc == Passed
      case WriteBlocked(_) => x.pc == Blocked
      case BeginClear(_) => x.pc == Idle && (x.phase == Checking || x.phase == Active) && !x.requested
      case WriteClear(_) => x.pc == Clearing
      case Abort(_) => true
      case Request(_, _) => true)
  }

  function Do(s: System, a: Action): System {
    if a.i !in s then s
    else
      var x := s[a.i];
      s[a.i :=
        match a
        case Raise(_) => x.(phase := Checking)
        case Bypass(_) => x.(pc := Passed)
        case BeginScan(_) => x.(pc := Scanning({}))
        case ReadSibling(_, j) =>
          if x.pc.Scanning? && j in s && !Flagged(s[j].phase) then x.(pc := Scanning(x.pc.seen + {j})) else x.(pc := Blocked)
        case FinishScan(_, pass) => x.(pc := if pass then Passed else Blocked)
        case WriteActive(_) => x.(phase := Active, pc := Idle)
        case WriteBlocked(_) => x.(phase := Checking, pc := Idle)
        case BeginClear(_) => x.(pc := Clearing)
        case WriteClear(_) => x.(phase := NoPhase, pc := Idle)
        case Abort(_) => x.(pc := Idle)
        case Request(_, enabled) => x.(requested := enabled)]
  }

  /** actions is a run from s: each action is enabled where it happens. */
  predicate IsRun(s: System, cfg: Config, actions: seq<Action>)
    decreases |actions|
  {
    actions == [] || (Enabled(s, cfg, actions[0]) && IsRun(Do(s, actions[0]), cfg, actions[1..]))
  }

  function After(s: System, actions: seq<Action>): System
    decreases |actions|
  {
    if actions == [] then s else After(Do(s, actions[0]), actions[1..])
  }

  function Initial(names: set<string>): System {
    map i | i in names :: Server(NoPhase, false, Idle)
  }

  /** Active, or past a passed check and about to become active. */
  predicate Critical(x: Server) {
    x.phase == Active || x.pc == Passed
  }

  /** i has looked at j since i raised its flag, and found j's flag down. */
  predicate HasSeen(s: System, i: string, j: string)
    requires i in s
  {
    Critical(s[i]) || (s[i].pc.Scanning? && j in s[i].pc.seen)
  }

  ghost predicate Inv(s: System, cfg: Config) {
    && (forall i | i in s ::
          && (s[i].pc.Scanning? || s[i].pc == Passed || s[i].pc == Blocked ==> s[i].phase == Checking)
          && (Critical(s[i]) && i in cfg.present ==> GuardMayPass(cfg, i)))
    && (forall i, j | i in s && j in s && i != j && Checked(cfg, i) && Checked(cfg, j) :: !(HasSeen(s, i, j) && HasSeen(s, j, i)))
  }

  lemma StepKeepsInv(s: System, cfg: Config, a: Action)
    requires Inv(s, cfg) && Enabled(s, cfg, a)
    ensures Inv(Do(s, a), cfg)
  {
    var t := Do(s, a);
    forall i, j | i in t && j in t && i != j && Checked(cfg, i) && Checked(cfg, j) ensures !(HasSeen(t, i, j) && HasSeen(t, j, i)) {
      SeenAfter(s, cfg, a, i, j);
      SeenAfter(s, cfg, a, j, i);
    }
  }

  /** A step adds a sighting only by reading a lowered flag. */
  lemma SeenAfter(s: System, cfg: Config, a: Action, i: string, j: string)
    requires Inv(s, cfg) && Enabled(s, cfg, a) && i in s && j in s && i != j && Checked(cfg, i) && Checked(cfg, j)
    ensures i in Do(s, a) && j in Do(s, a)
    ensures HasSeen(Do(s, a), i, j) ==> HasSeen(s, i, j) || (!Flagged(s[j].phase) && Do(s, a)[j] == s[j])
  {
  }

  lemma {:induction false} RunKeepsInv(s: System, cfg: Config, actions: seq<Action>)
    requires Inv(s, cfg) && IsRun(s, cfg, actions)
    ensures Inv(After(s, actions), cfg) && After(s, actions).Keys == s.Keys
    decreases |actions|
  {
    if actions != [] {
      StepKeepsInv(s, cfg, actions[0]);
      RunKeepsInv(Do(s, actions[0]), cfg, actions[1..]);
    }
  }

  /** Mutual exclusion: in no interleaving are two checked servers active or past a passed check, even
      when the siblings' phases are read one by one at different times. */
  lemma MutualExclusion(names: set<string>, cfg: Config, actions: seq<Action>, i: string, j: string)
    requires IsRun(Initial(names), cfg, actions)
    requires i in names && j in names && i != j && Checked(cfg, i) && Checked(cfg, j)
    ensures var t := After(Initial(names), actions);
            i in t && j in t && !(Critical(t[i]) && Critical(t[j]))
  {
    RunKeepsInv(Initial(names), cfg, actions);
    OneCritical(After(Initial(names), actions), cfg, i, j);
  }

  lemma OneCritical(s: System, cfg: Config, i: string, j: string)
    requires Inv(s, cfg) && i in s && j in s && i != j && Checked(cfg, i) && Checked(cfg, j)
    ensures !(Critical(s[i]) && Critical(s[j]))
  {
    assert !(HasSeen(s, i, j) && HasSeen(s, j, i));
  }

  // ----- quorum

  function DownNodes(s: System, cfg: Config): set<string> {
    set i | i in s && s[i].phase == Active && i in cfg.node :: cfg.node[i]
  }

  /** Servers on control-plane nodes carry the control-plane role and the cluster label, and their
      nodes exist. */
  predicate RolesMatch(cfg: Config) {
    forall i | i in cfg.node && cfg.node[i] in cfg.cpNodes :: IsControlPlane(cfg, i) && Checked(cfg, i)
  }

  /** At every reachable state a quorum of control-plane nodes is out of maintenance. */
  lemma QuorumHolds(names: set<string>, cfg: Config, actions: seq<Action>)
    requires IsRun(Initial(names), cfg, actions)
    requires cfg.cpNodes != {} && RolesMatch(cfg)
    ensures |cfg.cpNodes - DownNodes(After(Initial(names), actions), cfg)| >= |cfg.cpNodes| / 2 + 1
  {
    RunKeepsInv(Initial(names), cfg, actions);
    var t := After(Initial(names), actions);
    var down := DownNodes(t, cfg) * cfg.cpNodes;
    assert cfg.cpNodes - DownNodes(t, cfg) == cfg.cpNodes - down;
    AtMostOneDown(t, cfg);
    OneMissing(cfg.cpNodes, down);
  }

  lemma OneMissing(all: set<string>, down: set<string>)
    requires all != {} && down <= all && forall u, v | u in down && v in down :: u == v
    requires down != {} ==> QuorumSafe(|all|)
    ensures |all - down| >= |all| / 2 + 1
  {
    if down == {} {
      assert all - down == all;
    } else {
      var v :| v in down;
      assert down == {v} && all - down == all - {v};
    }
  }

  /** At most one control-plane node is down, and only when the cluster can spare one. */
  lemma AtMostOneDown(t: System, cfg: Config)
    requires Inv(t, cfg) && RolesMatch(cfg)
    ensures forall u, v | u in DownNodes(t, cfg) * cfg.cpNodes && v in DownNodes(t, cfg) * cfg.cpNodes :: u == v
    ensures DownNodes(t, cfg) * cfg.cpNodes != {} ==> QuorumSafe(|cfg.cpNodes|)
  {
    forall u | u in DownNodes(t, cfg) * cfg.cpNodes ensures QuorumSafe(|cfg.cpNodes|) {
      var i := DownServer(t, cfg, u);
      assert Critical(t[i]) && GuardMayPass(cfg, i);
    }
    forall u, v | u in DownNodes(t, cfg) * cfg.cpNodes && v in DownNodes(t, cfg) * cfg.cpNodes ensures u == v {
      var i := DownServer(t, cfg, u);
      var j := DownServer(t, cfg, v);
      if i != j {
        OneCritical(t, cfg, i, j);
      }
    }
  }

  lemma DownServer(t: System, cfg: Config, u: string) returns (i: string)
    requires RolesMatch(cfg) && u in DownNodes(t, cfg) * cfg.cpNodes
    ensures i in t && t[i].phase == Active && i in cfg.node && cfg.node[i] == u && IsControlPlane(cfg, i) && Checked(cfg, i)
  {
    i :| i in t && t[i].phase == Active && i in cfg.node && cfg.node[i] == u;
  }

  // ----- one reconcile without interleaving

  /** The cluster a controller runs in. */
  datatype Cluster = Cluster(name: string, nodes: seq<Node>, eksa: bool)

  predicate NodePresent(nodes: seq<Node>, node: Option<string>) {
    node.Some? && exists n | n in nodes :: n.name == node.value
  }

  /** A server with the cluster's label, other than the named one, has its flag up. */
  predicate SiblingFlagged(configs: map<string, ServerConfig>, cluster: Cluster, name: string) {
    exists j | j in configs :: j != name && configs[j].cluster == Some(cluster.name) && Flagged(configs[j].phase)
  }

  /** What the guard for a node's role objects to. */
  function RoleObjection(cluster: Cluster, role: Role, nodeName: string): Option<Reason> {
    match role
    case ControlPlane =>
      if cluster.eksa then Some(EksaControlPlaneForbidden)
      else if QuorumSafe(CountControlPlane(cluster.nodes)) then None
      else Some(EtcdQuorumRisk(CountControlPlane(cluster.nodes)))
    case Worker => if exists n | n in cluster.nodes :: OtherWorkerReady(n, nodeName) then None else Some(NoSchedulableWorkers)
    case NoRole => None
  }

  /** Whether the checks let a server in; a server without a node in the cluster is not checked. */
  predicate Eligible(configs: map<string, ServerConfig>, cluster: Cluster, name: string)
    requires name in configs
  {
    var x := configs[name];
    NodePresent(cluster.nodes, x.node) ==>
      !SiblingFlagged(configs, cluster, name) && RoleObjection(cluster, x.role, x.node.value).None?
  }

  /** A blocked reason names the first check that failed: a flagged sibling, then the role's guard. */
  predicate Explains(r: Reason, configs: map<string, ServerConfig>, cluster: Cluster, name: string)
    requires name in configs
  {
    var x := configs[name];
    && NodePresent(cluster.nodes, x.node)
    && if SiblingFlagged(configs, cluster, name)
       then r.ConcurrentMaintenance? && r.sibling != name && r.sibling in configs
            && configs[r.sibling].cluster == Some(cluster.name) && configs[r.sibling].phase == r.phase && Flagged(r.phase)
       else RoleObjection(cluster, x.role, x.node.value) == Some(r)
  }

  /** The phase a whole reconcile leaves. */
  function NextPhase(configs: map<string, ServerConfig>, cluster: Cluster, name: string, now: int): Phase
    requires name in configs
  {
    var x := configs[name];
    match x.phase
    case NoPhase => if MaintenanceRequested(x.spec) && !WindowBlocked(x.spec, now) then Checking else NoPhase
    case Checking =>
      if !MaintenanceRequested(x.spec) then NoPhase
      else if Eligible(configs, cluster, name) then Active else Checking
    case Active => if MaintenanceRequested(x.spec) then Active else NoPhase
    case Draining => Draining
  }

  /** The server's status after a whole reconcile: only the phase and the blocked reason move. */
  ghost predicate Moved(before: ServerConfig, after: ServerConfig, configs: map<string, ServerConfig>, cluster: Cluster, now: int)
    requires before.name in configs
  {
    && after == before.(phase := NextPhase(configs, cluster, before.name, now), blockedReason := after.blockedReason)
    && if before.phase == after.phase == Checking then
         after.blockedReason.Some? && Explains(after.blockedReason.value, configs, cluster, before.name)
       else if before.phase != after.phase && after.phase != Checking then after.blockedReason == None
       else after.blockedReason == before.blockedReason
  }

  class ServerConfigReconciler {
    var configs: map<string, ServerConfig>
    const cluster: Cluster

    constructor (configs: map<string, ServerConfig>, cluster: Cluster)
      ensures this.configs == configs && this.cluster == cluster
    {
      this.configs, this.cluster := configs, cluster;
    }

    ghost predicate Valid()
      reads this
    {
      forall n | n in configs :: configs[n].name == n
    }

    method SetMaintenancePhase(name: string, phase: Phase, reason: Option<Reason>)
      requires name in configs
      modifies this`configs
      ensures configs == old(configs)[name := old(configs)[name].(phase := phase, blockedReason := reason)]
    {
      configs := configs[name := configs[name].(phase := phase, blockedReason := reason)];
    }

    method ClearMaintenance(name: string)
      requires name in configs
      modifies this`configs
      ensures configs == old(configs)[name := old(configs)[name].(phase := NoPhase, blockedReason := None)]
    {
      configs := configs[name := configs[name].(phase := NoPhase, blockedReason := None)];
    }

    /** The ServerConfigs that carry the cluster's label, in any order. */
    method ListConfigs() returns (list: seq<ServerConfig>)
      ensures forall x :: x in list <==> x.cluster == Some(cluster.name) && exists n | n in configs :: configs[n] == x
    {
      list := [];
      var todo := configs.Keys;
      while todo != {}
        invariant todo <= configs.Keys
        invariant forall x :: x in list <==> x.cluster == Some(cluster.name) && exists n | n in configs :: n !in todo && configs[n] == x
        decreases |todo|
      {
        var n :| n in todo;
        ghost var before := list;
        todo := todo - {n};
        if configs[n].cluster == Some(cluster.name) {
          list := list + [configs[n]];
          assert forall x :: x in list <==> x in before || x == configs[n];
        }
      }
    }

    method CheckNodeExists(node: Option<string>) returns (skip: bool)
      ensures skip == !NodePresent(cluster.nodes, node)
    {
      skip := node.None? || !exists n | n in cluster.nodes :: n.name == node.value;
    }

    method RunEligibilityChecks(name: string) returns (reason: Option<Reason>)
      requires Valid() && name in configs
      ensures reason.None? <==> Eligible(configs, cluster, name)
      ensures reason.Some? ==> Explains(reason.value, configs, cluster, name)
    {
      var x := configs[name];
      var skip := CheckNodeExists(x.node);
      if skip {
        return None;
      }
      var list := ListConfigs();
      reason := CheckNoConcurrentMaintenance(list, name);
      ListedSiblings(list, name);
      if reason.Some? {
        return;
      }
      match x.role {
        case ControlPlane => reason := CheckControlPlaneGuard(cluster.nodes, cluster.eksa);
        case Worker => reason := CheckSchedulableWorkers(cluster.nodes, x.node.value);
        case NoRole =>
      }
    }

    lemma ListedSiblings(list: seq<ServerConfig>, name: string)
      requires Valid()
      requires forall x :: x in list <==> x.cluster == Some(cluster.name) && exists n | n in configs :: configs[n] == x
      ensures SiblingFlagged(configs, cluster, name) <==> exists x | x in list :: x.name != name && Flagged(x.phase)
      ensures forall x | x in list :: x.name in configs && configs[x.name] == x && x.cluster == Some(cluster.name)
    {
      if SiblingFlagged(configs, cluster, name) {
        var j :| j in configs && j != name && configs[j].cluster == Some(cluster.name) && Flagged(configs[j].phase);
        assert configs[j] in list && configs[j].name == j;
      }
    }

    method HandleChecking(name: string)
      requires Valid() && name in configs && configs[name].phase == Checking
      modifies this`configs
      ensures Valid() && configs.Keys == old(configs).Keys
      ensures forall j | j in configs && j != name :: configs[j] == old(configs)[j]
      ensures forall now :: Moved(old(configs)[name], configs[name], old(configs), cluster, now)
    {
      if !MaintenanceRequested(configs[name].spec) {
        ClearMaintenance(name);
        return;
      }
      var reason := RunEligibilityChecks(name);
      if reason.Some? {
        SetMaintenancePhase(name, Checking, reason);
      } else {
        SetMaintenancePhase(name, Active, None);
      }
    }

    method HandleActive(name: string)
      requires Valid() && name in configs && configs[name].phase == Active
      modifies this`configs
      ensures configs == if MaintenanceRequested(old(configs)[name].spec) then old(configs)
                         else old(configs)[name := old(configs)[name].(phase := NoPhase, blockedReason := None)]
    {
      if !MaintenanceRequested(configs[name].spec) {
        ClearMaintenance(name);
      }
    }

    method ReconcileMaintenance(name: string, now: int)
      requires Valid() && name in configs
      modifies this`configs
      ensures Valid() && configs.Keys == old(configs).Keys
      ensures forall j | j in configs && j != name :: configs[j] == old(configs)[j]
      ensures Moved(old(configs)[name], configs[name], old(configs), cluster, now)
      ensures old(configs)[name].phase == NoPhase ==>
                (configs[name].phase != NoPhase <==> MayStart(old(configs)[name].spec, now))
    {
      var x := configs[name];
      match x.phase {
        case NoPhase =>
          if MaintenanceRequested(x.spec) {
            var blocked := CheckWindow(x.spec, now);
            if !blocked {
              SetMaintenancePhase(name, Checking, x.blockedReason);
            }
          }
        case Checking => HandleChecking(name);
        case Active => HandleActive(name);
        case Draining =>
      }
    }
  }

  // ----- histories of one cluster

  /** A server is reconciled at some moment, or its spec is edited. */
  datatype Happening =
    | Reconciled(name: string, now: int)
    | Edited(name: string, spec: Option<MaintenanceSpec>)

  type Configs = map<string, ServerConfig>

  function Happened(configs: Configs, cluster: Cluster, e: Happening): Configs {
    if e.name !in configs then configs
    else
      match e
      case Reconciled(name, now) => configs[name := configs[name].(phase := NextPhase(configs, cluster, name, now))]
      case Edited(name, spec) => configs[name := configs[name].(spec := spec)]
  }

  function History(configs: Configs, cluster: Cluster, events: seq<Happening>): Configs {
    if events == [] then configs else Happened(History(configs, cluster, events[..|events| - 1]), cluster, events[|events| - 1])
  }

  /** At position i of the history the idle server was reconciled while maintenance was enabled and its window
      admitted the moment. */
  ghost predicate StartedAt(configs: Configs, cluster: Cluster, events: seq<Happening>, name: string, i: nat)
    requires i < |events|
  {
    var before := History(configs, cluster, events[..i]);
    && events[i].Reconciled? && events[i].name == name && name in before
    && before[name].phase == NoPhase && MayStart(before[name].spec, events[i].now)
  }

  /** No server is ever out of NoPhase without having been reconciled, idle and enabled, inside its window. */
  lemma {:induction false} StartsOnlyInWindow(configs: Configs, cluster: Cluster, events: seq<Happening>, name: string)
    requires name in configs && configs[name].phase == NoPhase
    ensures name in History(configs, cluster, events)
    ensures History(configs, cluster, events)[name].phase != NoPhase ==>
              exists i :: 0 <= i < |events| && StartedAt(configs, cluster, events, name, i)
    decreases |events|
  {
    if events != [] {
      var init, last := events[..|events| - 1], events[|events| - 1];
      var before := History(configs, cluster, init);
      StartsOnlyInWindow(configs, cluster, init, name);
      if History(configs, cluster, events)[name].phase != NoPhase {
        if before[name].phase != NoPhase {
          var i :| 0 <= i < |init| && StartedAt(configs, cluster, init, name, i);
          assert init[..i] == events[..i];
          assert StartedAt(configs, cluster, events, name, i);
        } else {
          assert StartedAt(configs, cluster, events, name, |events| - 1);
        }
      }
    }
  }

  /** And one that is reconciled, idle and enabled, inside its window leaves NoPhase at once. */
  lemma StartsInWindow(configs: Configs, cluster: Cluster, events: seq<Happening>, name: string, now: int)
    requires name in History(configs, cluster, events)
    requires var x := History(configs, cluster, events)[name]; x.phase == NoPhase && MayStart(x.spec, now)
    ensures name in History(configs, cluster, events + [Reconciled(name, now)])
    ensures History(configs, cluster, events + [Reconciled(name, now)])[name].phase == Checking
  {
    var all := events + [Reconciled(name, now)];
    assert all[..|all| - 1] == events;
  }

  /** The protocol's view of the servers between reconciles. */
  function View(configs: map<string, ServerConfig>): System {
    map i | i in configs :: Server(configs[i].phase, MaintenanceRequested(configs[i].spec), Idle)
  }

  /** cfg describes the servers and the cluster the checks see. */
  ghost predicate Describes(cfg: Config, configs: map<string, ServerConfig>, cluster: Cluster) {
    && cfg.eksa == cluster.eksa && |cfg.cpNodes| == CountControlPlane(cluster.nodes)
    && (forall i | i in configs :: i in cfg.role && cfg.role[i] == configs[i].role)
    && (forall i | i in configs :: i in cfg.labelled <==> configs[i].cluster == Some(cluster.name))
    && (forall i | i in configs :: i in cfg.present <==> NodePresent(cluster.nodes, configs[i].node))
  }

  lemma Overwritten(s: System, i: string, x: Server, y: Server)
    ensures s[i := x][i := y] == s[i := y]
  {
  }

  lemma ReadAdds(s: System, cfg: Config, i: string, j: string)
    requires i in s && s[i].pc.Scanning? && j in Siblings(s, cfg, i) - s[i].pc.seen && !Flagged(s[j].phase)
    ensures Enabled(s, cfg, ReadSibling(i, j))
    ensures var t := Do(s, ReadSibling(i, j));
            t == s[i := s[i].(pc := Scanning(s[i].pc.seen + {j}))] && Siblings(t, cfg, i) == Siblings(s, cfg, i)
  {
  }

  /** Reading all unflagged siblings one by one completes a scan. */
  lemma {:induction false} ScanAll(s: System, cfg: Config, i: string, left: set<string>) returns (actions: seq<Action>)
    requires i in s && s[i].pc.Scanning? && left == Siblings(s, cfg, i) - s[i].pc.seen
    requires forall j | j in left :: !Flagged(s[j].phase)
    ensures IsRun(s, cfg, actions)
    ensures exists seen :: Siblings(s, cfg, i) <= seen && After(s, actions) == s[i := s[i].(pc := Scanning(seen))]
    decreases |left|
  {
    if left == {} {
      actions := [];
      assert s == s[i := s[i].(pc := Scanning(s[i].pc.seen))];
    } else {
      var j :| j in left;
      var t := Do(s, ReadSibling(i, j));
      ReadAdds(s, cfg, i, j);
      var rest := ScanAll(t, cfg, i, left - {j});
      actions := [ReadSibling(i, j)] + rest;
      assert actions[0] == ReadSibling(i, j) && actions[1..] == rest;
      var seen :| Siblings(t, cfg, i) <= seen && After(t, rest) == t[i := t[i].(pc := Scanning(seen))];
      Overwritten(s, i, s[i].(pc := Scanning(s[i].pc.seen + {j})), s[i].(pc := Scanning(seen)));
      assert After(s, actions) == s[i := s[i].(pc := Scanning(seen))];
    }
  }

  lemma {:induction false} RunAppends(s: System, cfg: Config, a: seq<Action>, b: seq<Action>)
    requires IsRun(s, cfg, a) && IsRun(After(s, a), cfg, b)
    ensures IsRun(s, cfg, a + b) && After(s, a + b) == After(After(s, a), b)
    decreases |a|
  {
    if a == [] {
      assert a + b == b;
    } else {
      assert (a + b)[1..] == a[1..] + b;
      RunAppends(Do(s, a[0]), cfg, a[1..], b);
    }
  }

  /** A whole reconcile of a server is one of the protocol's runs. */
  lemma ReconcileIsARun(configs: map<string, ServerConfig>, cluster: Cluster, cfg: Config, name: string, now: int)
    returns (actions: seq<Action>)
    requires name in configs && Describes(cfg, configs, cluster)
    ensures var s := View(configs);
            && IsRun(s, cfg, actions)
            && After(s, actions) == s[name := s[name].(phase := NextPhase(configs, cluster, name, now))]
  {
    var s := View(configs);
    var next := NextPhase(configs, cluster, name, now);
    if next == configs[name].phase {
      actions := [];
      assert s == s[name := s[name].(phase := next)];
    } else if next == Checking {
      actions := [Raise(name)];
      assert actions[1..] == [] && After(Do(s, Raise(name)), []) == Do(s, Raise(name));
    } else if next == NoPhase {
      actions := [BeginClear(name), WriteClear(name)];
      TwoSteps(s, cfg, actions);
      assert Do(Do(s, BeginClear(name)), WriteClear(name)) == s[name := s[name].(phase := NoPhase)];
    } else {
      actions := EnterActive(s, cfg, name);
    }
  }

  lemma TwoSteps(s: System, cfg: Config, actions: seq<Action>)
    requires |actions| == 2 && Enabled(s, cfg, actions[0]) && Enabled(Do(s, actions[0]), cfg, actions[1])
    ensures IsRun(s, cfg, actions) && After(s, actions) == Do(Do(s, actions[0]), actions[1])
  {
    var t := Do(s, actions[0]);
    assert actions[1..] == [actions[1]] && actions[1..][1..] == [];
    assert IsRun(t, cfg, actions[1..]) && After(t, actions[1..]) == Do(t, actions[1]);
  }

  /** Nothing stands between a server and the Active phase. */
  predicate MayEnter(s: System, cfg: Config, i: string) {
    i !in cfg.present || (GuardMayPass(cfg, i) && forall j | j in Siblings(s, cfg, i) :: !Flagged(s[j].phase))
  }

  lemma EnterActive(s: System, cfg: Config, name: string) returns (actions: seq<Action>)
    requires name in s && s[name] == Server(Checking, true, Idle) && MayEnter(s, cfg, name)
    ensures IsRun(s, cfg, actions) && After(s, actions) == s[name := s[name].(phase := Active)]
  {
    if name !in cfg.present {
      actions := [Bypass(name), WriteActive(name)];
      TwoSteps(s, cfg, actions);
      assert Do(Do(s, actions[0]), actions[1]) == s[name := s[name].(phase := Active)];
    } else {
      var begun := Do(s, BeginScan(name));
      assert begun.Keys == s.Keys;
      var scans := ScanAll(begun, cfg, name, Siblings(begun, cfg, name));
      var seen :| Siblings(begun, cfg, name) <= seen && After(begun, scans) == begun[name := begun[name].(pc := Scanning(seen))];
      var ends := [FinishScan(name, true), WriteActive(name)];
      var t := After(begun, scans);
      TwoSteps(t, cfg, ends);
      RunAppends(begun, cfg, scans, ends);
      actions := [BeginScan(name)] + (scans + ends);
      assert actions[1..] == scans + ends;
      assert Do(Do(t, ends[0]), ends[1]) == s[name := s[name].(phase := Active)];
    }
  }

  // ----- which pairs of servers exclude each other

  /** An idle server that nothing stops goes all the way from a request to Active. */
  lemma Walkthrough(s: System, cfg: Config, i: string) returns (actions: seq<Action>)
    requires i in s && s[i] == Server(NoPhase, false, Idle) && MayEnter(s, cfg, i)
    ensures IsRun(s, cfg, actions) && After(s, actions) == s[i := Server(Active, true, Idle)]
  {
    var start := [Request(i, true), Raise(i)];
    TwoSteps(s, cfg, start);
    var t := Do(Do(s, start[0]), start[1]);
    assert t == s[i := Server(Checking, true, Idle)] && t.Keys == s.Keys;
    assert Siblings(t, cfg, i) == Siblings(s, cfg, i);
    var rest := EnterActive(t, cfg, i);
    RunAppends(s, cfg, start, rest);
    actions := start + rest;
    assert t[i := t[i].(phase := Active)] == s[i := Server(Active, true, Idle)];
  }

  /** The server is checked, and the guard for its role never lets it pass. */
  predicate Barred(cfg: Config, i: string) {
    i in cfg.present && !GuardMayPass(cfg, i)
  }

  /** A pair with an unchecked member has a run that makes both active. */
  lemma BothActive(names: set<string>, cfg: Config, i: string, j: string) returns (actions: seq<Action>)
    requires i in names && j in names && i != j && !Barred(cfg, i) && !Barred(cfg, j)
    requires j !in cfg.present || (i in cfg.present && i !in cfg.labelled)
    ensures IsRun(Initial(names), cfg, actions)
    ensures var t := After(Initial(names), actions); i in t && j in t && t[i].phase == Active && t[j].phase == Active
  {
    var s := Initial(names);
    var first := Walkthrough(s, cfg, i);
    var t := After(s, first);
    assert t == s[i := Server(Active, true, Idle)] && t.Keys == s.Keys;
    var second := Walkthrough(t, cfg, j);
    RunAppends(s, cfg, first, second);
    actions := first + second;
  }

  ghost predicate NeverBothCritical(names: set<string>, cfg: Config, i: string, j: string) {
    forall actions | IsRun(Initial(names), cfg, actions) ::
      var t := After(Initial(names), actions);
      i in t && j in t && !(Critical(t[i]) && Critical(t[j]))
  }

  /** Two servers exclude each other in every run exactly when both carry the cluster label and both nodes
      exist, or one of them can never enter because its node exists and its role guard never passes. A
      server without a node skips the scan and the guard, and a server without the label is invisible to
      its siblings' scans. */
  lemma MutualExclusionIff(names: set<string>, cfg: Config, i: string, j: string)
    requires i in names && j in names && i != j
    ensures NeverBothCritical(names, cfg, i, j) <==>
            (Checked(cfg, i) && Checked(cfg, j)) || Barred(cfg, i) || Barred(cfg, j)
  {
    if (Checked(cfg, i) && Checked(cfg, j)) || Barred(cfg, i) || Barred(cfg, j) {
      forall actions | IsRun(Initial(names), cfg, actions)
        ensures var t := After(Initial(names), actions); i in t && j in t && !(Critical(t[i]) && Critical(t[j]))
      {
        RunKeepsInv(Initial(names), cfg, actions);
        if Checked(cfg, i) && Checked(cfg, j) {
          MutualExclusion(names, cfg, actions, i, j);
        }
      }
    } else {
      var last := if j !in cfg.present then j else if i !in cfg.present then i else if i !in cfg.labelled then j else i;
      var first := if last == i then j else i;
      var actions := BothActive(names, cfg, first, last);
      var t := After(Initial(names), actions);
      assert Critical(t[i]) && Critical(t[j]);
    }
  }

  /** A step in front of a run. */
  lemma OneStep(s: System, cfg: Config, a: Action, rest: seq<Action>)
    requires Enabled(s, cfg, a) && IsRun(Do(s, a), cfg, rest)
    ensures IsRun(s, cfg, [a] + rest) && After(s, [a] + rest) == After(Do(s, a), rest)
  {
    assert ([a] + rest)[1..] == rest;
  }

  /** What one server does up to its look at a sibling that is already in Checking. */
  lemma LooksAndBlocks(s: System, cfg: Config, i: string, j: string) returns (actions: seq<Action>)
    requires i in s && j in s && i != j && Checked(cfg, i) && j in cfg.labelled
    requires s[i] == Server(Checking, true, Idle) && s[j].phase == Checking
    ensures IsRun(s, cfg, actions) && After(s, actions) == s && actions == [BeginScan(i), ReadSibling(i, j), WriteBlocked(i)]
  {
    var begun := Do(s, BeginScan(i));
    assert begun == s[i := Server(Checking, true, Scanning({}))] && begun.Keys == s.Keys;
    var looked := Do(begun, ReadSibling(i, j));
    assert looked == begun[i := Server(Checking, true, Blocked)];
    var ended := [WriteBlocked(i)];
    assert Do(looked, WriteBlocked(i)) == looked[i := Server(Checking, true, Idle)] == s;
    assert IsRun(s, cfg, []) && After(s, []) == s && ended == [WriteBlocked(i)] + [];
    OneStep(looked, cfg, WriteBlocked(i), []);
    OneStep(begun, cfg, ReadSibling(i, j), ended);
    OneStep(s, cfg, BeginScan(i), [ReadSibling(i, j)] + ended);
    actions := [BeginScan(i), ReadSibling(i, j), WriteBlocked(i)];
    assert actions == [BeginScan(i)] + ([ReadSibling(i, j)] + ended);
  }

  /** No progress is promised: two checked servers can both raise their flags, and then each look at the other
      blocks, so that any number of further attempts leaves both in Checking. */
  lemma TwoCheckersBlock(names: set<string>, cfg: Config, i: string, j: string) returns (actions: seq<Action>, t: System)
    requires i in names && j in names && i != j && Checked(cfg, i) && Checked(cfg, j)
    ensures IsRun(Initial(names), cfg, actions) && t == After(Initial(names), actions)
    ensures i in t && j in t && t[i].phase == Checking && t[j].phase == Checking
    ensures exists more :: more != [] && IsRun(t, cfg, more) && After(t, more) == t
  {
    var s := Initial(names);
    var s1 := Do(s, Request(i, true));
    var s2 := Do(s1, Raise(i));
    var s3 := Do(s2, Request(j, true));
    t := Do(s3, Raise(j));
    assert s2 == s[i := Server(Checking, true, Idle)];
    assert t == s2[j := Server(Checking, true, Idle)];
    var e1 := [Request(i, true), Raise(i)];
    var e2 := [Request(j, true), Raise(j)];
    TwoSteps(s, cfg, e1);
    TwoSteps(s2, cfg, e2);
    RunAppends(s, cfg, e1, e2);
    actions := e1 + e2;
    var first := LooksAndBlocks(t, cfg, i, j);
    var second := LooksAndBlocks(t, cfg, j, i);
    RunAppends(t, cfg, first, second);
    assert first + second != [];
  }
}
