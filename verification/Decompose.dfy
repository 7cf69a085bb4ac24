/** Decomposition of a bundle into child objects: every child is applied, then every owned child the
    spec no longer names is pruned. */
module Decompose {
  import opened Base

  /** An owner reference; ours tells whether this controller's field manager applied it, theirs whether
      another writer did. */
  datatype OwnerRef = OwnerRef(uid: string, controller: bool, ours: bool, theirs: bool)

  datatype KubernetesNode = KubernetesNode(clusterName: string, clusterOrbId: string)

  /** A server of the bundle; settings stands for the blocks that are copied as they are. */
  datatype ServerSpec = ServerSpec(orbId: string, serviceTag: string, hostname: Option<string>, oobIP: Option<string>,
    node: Option<KubernetesNode>, settings: string)

  datatype Backup = Backup(orbId: string, settings: string)

  datatype ClusterSpec = ClusterSpec(orbId: string, backup: Option<Backup>)

  datatype Bundle = Bundle(uid: string, servers: seq<ServerSpec>, clusters: seq<ClusterSpec>)

  datatype ChildSpec =
    | ServerChild(orbId: string, serviceTag: string, hostname: Option<string>, oobIP: string, clusterLabel: Option<string>,
        annotation: Option<string>, settings: string)
    | BackupChild(orbId: string, clusterOrbId: string, settings: string)

  datatype Child = Child(owners: seq<OwnerRef>, spec: ChildSpec)

  type Children = map<string, Child>

  function LowerChar(c: char): char {
    if 'A' <= c <= 'Z' then ((c as int) + 32) as char else c
  }

  function Lower(s: string): string {
    seq(|s|, i requires 0 <= i < |s| => LowerChar(s[i]))
  }

  function DashColons(s: string): string {
    seq(|s|, i requires 0 <= i < |s| => if s[i] == ':' then '-' else s[i])
  }

  function OrbIdToK8sName(orbId: string): string {
    Lower(DashColons(orbId))
  }

  function NonEmpty(s: string): Option<string> {
    if s == "" then None else Some(s)
  }

  datatype Wanted = Wanted(name: string, spec: ChildSpec)

  function WantedServer(s: ServerSpec): Wanted {
    Wanted(Lower(if s.hostname.Some? then s.hostname.value else ""),
           ServerChild(s.orbId, s.serviceTag, s.hostname, if s.oobIP.Some? then s.oobIP.value else "",
             if s.node.Some? then NonEmpty(s.node.value.clusterName) else None,
             if s.node.Some? then NonEmpty(s.node.value.clusterOrbId) else None, s.settings))
  }

  function WantedServers(servers: seq<ServerSpec>): seq<Wanted> {
    if servers == [] then [] else [WantedServer(servers[0])] + WantedServers(servers[1..])
  }

  /** Clusters without a backup project nothing. */
  function WantedBackups(clusters: seq<ClusterSpec>): seq<Wanted> {
    if clusters == [] then []
    else
      var rest := WantedBackups(clusters[1..]);
      match clusters[0].backup
      case None => rest
      case Some(b) => [Wanted(OrbIdToK8sName(b.orbId), BackupChild(b.orbId, clusters[0].orbId, b.settings))] + rest
  }

  lemma WantedServersFrom(servers: seq<ServerSpec>, i: nat)
    requires i < |servers|
    ensures WantedServers(servers[i..]) == [WantedServer(servers[i])] + WantedServers(servers[i + 1..])
    ensures WantedServers(servers[i..])[1..] == WantedServers(servers[i + 1..])
  {
    assert servers[i..][0] == servers[i] && servers[i..][1..] == servers[i + 1..];
  }

  lemma WantedBackupsFrom(clusters: seq<ClusterSpec>, i: nat)
    requires i < |clusters|
    ensures WantedBackups(clusters[i..]) == WantedBackups([clusters[i]]) + WantedBackups(clusters[i + 1..])
    ensures clusters[i].backup.Some? ==> |WantedBackups([clusters[i]])| == 1
                                         && WantedBackups(clusters[i..])[1..] == WantedBackups(clusters[i + 1..])
    ensures clusters[i].backup.None? ==> WantedBackups(clusters[i..]) == WantedBackups(clusters[i + 1..])
  {
    assert clusters[i..][0] == clusters[i] && clusters[i..][1..] == clusters[i + 1..] && [clusters[i]][1..] == [];
    assert WantedBackups([clusters[i]][1..]) == [];
  }

  predicate IsOwnedBy(c: Child, uid: string) {
    exists r | r in c.owners :: r.controller && r.uid == uid
  }

  /** Another object controls the child by a reference that some other writer holds. */
  predicate ControlledByOther(c: Child, uid: string) {
    exists r | r in c.owners :: r.controller && r.theirs && r.uid != uid
  }

  /** What an apply that states the one owner uid leaves of the other references: all bundles apply under
      the same field manager, so a reference that only this manager holds is released by omission. */
  function Others(owners: seq<OwnerRef>, uid: string): seq<OwnerRef> {
    if owners == [] then []
    else
      var rest := Others(owners[1..], uid);
      if owners[0].uid == uid || !owners[0].theirs then rest else [owners[0].(ours := false)] + rest
  }

  predicate HeldByTheirs(owners: seq<OwnerRef>, uid: string) {
    exists r | r in owners :: r.uid == uid && r.theirs
  }

  function WithOwner(owners: seq<OwnerRef>, uid: string): seq<OwnerRef> {
    [OwnerRef(uid, true, true, HeldByTheirs(owners, uid))] + Others(owners, uid)
  }

  /** The API server's answer to one child apply: an empty name and a second controller are refused. */
  function Applied(children: Children, uid: string, w: Wanted): Option<Children> {
    var owners := if w.name in children then children[w.name].owners else [];
    if w.name == "" || (w.name in children && ControlledByOther(children[w.name], uid)) then None
    else Some(children[w.name := Child(WithOwner(owners, uid), w.spec)])
  }

  /** Applying all wanted children in turn, up to the first refusal. */
  function AppliedAll(children: Children, uid: string, wanted: seq<Wanted>): (Children, bool)
    decreases |wanted|
  {
    if wanted == [] then (children, true)
    else
      var next := Applied(children, uid, wanted[0]);
      if next.None? then (children, false) else AppliedAll(next.value, uid, wanted[1..])
  }

  function Pruned(children: Children, uid: string, expected: set<string>): Children {
    map n | n in children && (n in expected || !IsOwnedBy(children[n], uid)) :: children[n]
  }

  function Names(wanted: seq<Wanted>): set<string> {
    set w | w in wanted :: w.name
  }

  class ConfigBundleReconciler {
    var serverConfigs: Children
    var backupConfigs: Children

    constructor (serverConfigs: Children, backupConfigs: Children)
      ensures this.serverConfigs == serverConfigs && this.backupConfigs == backupConfigs
    {
      this.serverConfigs, this.backupConfigs := serverConfigs, backupConfigs;
    }

    method ApplyServerConfig(uid: string, server: ServerSpec) returns (ok: bool)
      modifies this`serverConfigs
      ensures var answer := Applied(old(serverConfigs), uid, WantedServer(server));
              ok == answer.Some? && serverConfigs == if answer.Some? then answer.value else old(serverConfigs)
    {
      var hostname, oobIP := "", "";
      if server.hostname.Some? {
        hostname := server.hostname.value;
      }
      if server.oobIP.Some? {
        oobIP := server.oobIP.value;
      }
      var clusterLabel, annotation := None, None;
      if server.node.Some? {
        if server.node.value.clusterName != "" {
          clusterLabel := Some(server.node.value.clusterName);
        }
        if server.node.value.clusterOrbId != "" {
          annotation := Some(server.node.value.clusterOrbId);
        }
      }
      var child := ServerChild(server.orbId, server.serviceTag, server.hostname, oobIP, clusterLabel, annotation, server.settings);
      var answer := Applied(serverConfigs, uid, Wanted(Lower(hostname), child));
      ok := answer.Some?;
      if ok {
        serverConfigs := answer.value;
      }
    }

    method ApplyBackupConfig(uid: string, cluster: ClusterSpec) returns (ok: bool)
      requires cluster.backup.Some?
      modifies this`backupConfigs
      ensures var answer := Applied(old(backupConfigs), uid, WantedBackups([cluster])[0]);
              ok == answer.Some? && backupConfigs == if answer.Some? then answer.value else old(backupConfigs)
    {
      var b := cluster.backup.value;
      var answer := Applied(backupConfigs, uid, Wanted(OrbIdToK8sName(b.orbId), BackupChild(b.orbId, cluster.orbId, b.settings)));
      assert [cluster][1..] == [];
      ok := answer.Some?;
      if ok {
        backupConfigs := answer.value;
      }
    }

    /** Delete every child this bundle controls that is not expected, in any order. */
    method Prune(children: Children, uid: string, expected: set<string>) returns (out: Children)
      ensures out == Pruned(children, uid, expected)
    {
      out := children;
      var todo := children.Keys;
      while todo != {}
        invariant todo <= children.Keys
        invariant forall n :: Get(out, n) == if n in todo then Get(children, n) else Get(Pruned(children, uid, expected), n)
        decreases |todo|
      {
        var n :| n in todo;
        todo := todo - {n};
        if n !in expected && IsOwnedBy(children[n], uid) {
          out := out - {n};
        }
      }
      SameLookups(out, Pruned(children, uid, expected));
    }

    method PruneOrphanedChildren(b: Bundle)
      modifies this
      ensures backupConfigs == Pruned(old(backupConfigs), b.uid, Names(WantedBackups(b.clusters)))
      ensures serverConfigs == Pruned(old(serverConfigs), b.uid, HostNames(b.servers))
    {
      var expected: set<string> := {};
      for i := 0 to |b.clusters|
        invariant backupConfigs == old(backupConfigs) && serverConfigs == old(serverConfigs)
        invariant Names(WantedBackups(b.clusters)) == expected + Names(WantedBackups(b.clusters[i..]))
      {
        assert b.clusters[i..][1..] == b.clusters[i + 1..];
        if b.clusters[i].backup.Some? {
          expected := expected + {OrbIdToK8sName(b.clusters[i].backup.value.orbId)};
          NamesOfHead(WantedBackups(b.clusters[i..]));
        }
      }
      assert b.clusters[|b.clusters|..] == [] && expected == Names(WantedBackups(b.clusters));
      backupConfigs := Prune(backupConfigs, b.uid, expected);
      expected := {};
      for i := 0 to |b.servers|
        invariant serverConfigs == old(serverConfigs)
        invariant backupConfigs == Pruned(old(backupConfigs), b.uid, Names(WantedBackups(b.clusters)))
        invariant HostNames(b.servers) == expected + HostNames(b.servers[i..])
      {
        assert b.servers[i..][1..] == b.servers[i + 1..];
        if b.servers[i].hostname.Some? {
          expected := expected + {Lower(b.servers[i].hostname.value)};
        }
      }
      assert b.servers[|b.servers|..] == [] && expected == HostNames(b.servers);
      serverConfigs := Prune(serverConfigs, b.uid, expected);
    }

    method Reconcile(b: Bundle) returns (ok: bool)
      modifies this
      ensures var (sc, scOk) := AppliedAll(old(serverConfigs), b.uid, WantedServers(b.servers));
              var (bc, bcOk) := AppliedAll(old(backupConfigs), b.uid, WantedBackups(b.clusters));
              && ok == (scOk && bcOk)
              && (!scOk ==> serverConfigs == sc && backupConfigs == old(backupConfigs))
              && (scOk && !bcOk ==> serverConfigs == sc && backupConfigs == bc)
              && (ok ==> serverConfigs == Pruned(sc, b.uid, HostNames(b.servers))
                         && backupConfigs == Pruned(bc, b.uid, Names(WantedBackups(b.clusters))))
      ensures ok ==> forall i | 0 <= i < |b.servers| && LastServerNamed(b.servers, i) :: ServerChildHeld(serverConfigs, b.servers[i])
      ensures ok ==> forall i | 0 <= i < |b.clusters| && LastBackupNamed(b.clusters, i) :: BackupChildHeld(backupConfigs, b.clusters[i])
    {
      for i := 0 to |b.servers|
        invariant backupConfigs == old(backupConfigs)
        invariant AppliedAll(old(serverConfigs), b.uid, WantedServers(b.servers)) ==
                  AppliedAll(serverConfigs, b.uid, WantedServers(b.servers[i..]))
      {
        WantedServersFrom(b.servers, i);
        ok := ApplyServerConfig(b.uid, b.servers[i]);
        if !ok {
          return;
        }
      }
      for i := 0 to |b.clusters|
        invariant AppliedAll(old(serverConfigs), b.uid, WantedServers(b.servers)) == (serverConfigs, true)
        invariant AppliedAll(old(backupConfigs), b.uid, WantedBackups(b.clusters)) ==
                  AppliedAll(backupConfigs, b.uid, WantedBackups(b.clusters[i..]))
      {
        WantedBackupsFrom(b.clusters, i);
        if b.clusters[i].backup.Some? {
          ok := ApplyBackupConfig(b.uid, b.clusters[i]);
          if !ok {
            return;
          }
        }
      }
      PruneOrphanedChildren(b);
      ok := true;
      ServersHeld(old(serverConfigs), b.uid, b.servers);
      BackupsHeld(old(backupConfigs), b.uid, b.clusters);
    }
  }

  // ----- what the children hold

  /** No later server has a hostname with the same lower-case form. */
  ghost predicate LastServerNamed(servers: seq<ServerSpec>, i: nat)
    requires i < |servers|
  {
    servers[i].hostname.Some? &&
    forall k | i < k < |servers| && servers[k].hostname.Some? :: Lower(servers[k].hostname.value) != Lower(servers[i].hostname.value)
  }

  /** The child named after the server holds what the server holds: identities, addresses, settings, and the
      cluster's name and orbId where they are not empty. */
  ghost predicate ServerChildHeld(children: Children, s: ServerSpec) {
    && s.hostname.Some? && Lower(s.hostname.value) in children
    && var c := children[Lower(s.hostname.value)].spec;
    && c.ServerChild? && c.orbId == s.orbId && c.serviceTag == s.serviceTag && c.hostname == s.hostname && c.settings == s.settings
    && (s.oobIP.Some? ==> c.oobIP == s.oobIP.value) && (s.oobIP.None? ==> c.oobIP == "")
    && (forall n :: c.clusterLabel == Some(n) <==> s.node.Some? && s.node.value.clusterName == n && n != "")
    && (forall o :: c.annotation == Some(o) <==> s.node.Some? && s.node.value.clusterOrbId == o && o != "")
  }

  ghost predicate LastBackupNamed(clusters: seq<ClusterSpec>, i: nat)
    requires i < |clusters|
  {
    clusters[i].backup.Some? &&
    forall k | i < k < |clusters| && clusters[k].backup.Some? ::
      OrbIdToK8sName(clusters[k].backup.value.orbId) != OrbIdToK8sName(clusters[i].backup.value.orbId)
  }

  /** The child named after the backup holds its orbId and settings and its cluster's orbId. */
  ghost predicate BackupChildHeld(children: Children, k: ClusterSpec) {
    && k.backup.Some? && OrbIdToK8sName(k.backup.value.orbId) in children
    && var c := children[OrbIdToK8sName(k.backup.value.orbId)].spec;
    c.BackupChild? && c.orbId == k.backup.value.orbId && c.clusterOrbId == k.orbId && c.settings == k.backup.value.settings
  }

  lemma {:induction false} WantedServersAre(servers: seq<ServerSpec>)
    ensures |WantedServers(servers)| == |servers| && forall i | 0 <= i < |servers| :: WantedServers(servers)[i] == WantedServer(servers[i])
  {
    if servers != [] {
      WantedServersAre(servers[1..]);
      assert forall i | 1 <= i < |servers| :: servers[i] == servers[1..][i - 1];
    }
  }

  /** The last wanted child of a name is the one the projection holds. */
  lemma {:induction false} LastWins(wanted: seq<Wanted>, i: nat)
    requires i < |wanted| && forall k | i < k < |wanted| :: wanted[k].name != wanted[i].name
    ensures wanted[i].name in Projection(wanted) && Projection(wanted)[wanted[i].name] == wanted[i].spec
    decreases |wanted|
  {
    if i < |wanted| - 1 {
      LastWins(wanted[..|wanted| - 1], i);
    }
  }

  lemma WantedIsStored(children: Children, uid: string, wanted: seq<Wanted>, i: nat)
    requires AppliedAll(children, uid, wanted).1 && i < |wanted|
    requires forall k | i < k < |wanted| :: wanted[k].name != wanted[i].name
    ensures var out := Decomposed(children, uid, wanted);
            wanted[i].name != "" && wanted[i].name in out && out[wanted[i].name].spec == wanted[i].spec
  {
    LastWins(wanted, i);
    assert wanted[i] in wanted;
    AppliedAllAt(children, uid, wanted, wanted[i].name);
  }

  lemma ServersHeld(children: Children, uid: string, servers: seq<ServerSpec>)
    requires AppliedAll(children, uid, WantedServers(servers)).1
    ensures forall i | 0 <= i < |servers| && LastServerNamed(servers, i) ::
              ServerChildHeld(Pruned(AppliedAll(children, uid, WantedServers(servers)).0, uid, HostNames(servers)), servers[i])
  {
    var wanted := WantedServers(servers);
    WantedServersAre(servers);
    SucceedsIff(children, uid, wanted);
    HostNamesAreNames(servers);
    forall i | 0 <= i < |servers| && LastServerNamed(servers, i) ensures ServerChildHeld(Decomposed(children, uid, wanted), servers[i]) {
      forall k | i < k < |wanted| ensures wanted[k].name != wanted[i].name {
        assert wanted[k] in wanted && Lower("") == "";
      }
      WantedIsStored(children, uid, wanted, i);
      WantedHolds(servers[i], Decomposed(children, uid, wanted));
    }
  }

  lemma WantedHolds(s: ServerSpec, children: Children)
    requires s.hostname.Some? && WantedServer(s).name in children && children[WantedServer(s).name].spec == WantedServer(s).spec
    ensures ServerChildHeld(children, s)
  {
  }

  /** The wanted backup of a cluster that no later backup shadows, by its place in the list. */
  lemma {:induction false} BackupPlace(clusters: seq<ClusterSpec>, i: nat) returns (k: nat)
    requires i < |clusters| && LastBackupNamed(clusters, i)
    ensures k < |WantedBackups(clusters)|
    ensures var b := clusters[i].backup.value;
            WantedBackups(clusters)[k] == Wanted(OrbIdToK8sName(b.orbId), BackupChild(b.orbId, clusters[i].orbId, b.settings))
    ensures forall j | k < j < |WantedBackups(clusters)| :: WantedBackups(clusters)[j].name != WantedBackups(clusters)[k].name
    decreases |clusters|
  {
    var rest := WantedBackups(clusters[1..]);
    if i == 0 {
      k := 0;
      forall j | 0 < j < |WantedBackups(clusters)| ensures WantedBackups(clusters)[j].name != WantedBackups(clusters)[0].name {
        var c := BackupOrigin(clusters[1..], j - 1);
        assert clusters[c + 1] == clusters[1..][c];
      }
    } else {
      assert forall c | 1 <= c < |clusters| :: clusters[c] == clusters[1..][c - 1];
      k := BackupPlace(clusters[1..], i - 1);
      if clusters[0].backup.Some? {
        k := k + 1;
        assert forall j | 1 <= j < |WantedBackups(clusters)| :: WantedBackups(clusters)[j] == rest[j - 1];
      }
    }
  }

  lemma {:induction false} BackupOrigin(clusters: seq<ClusterSpec>, j: nat) returns (c: nat)
    requires j < |WantedBackups(clusters)|
    ensures c < |clusters| && clusters[c].backup.Some? && WantedBackups(clusters)[j].name == OrbIdToK8sName(clusters[c].backup.value.orbId)
    decreases |clusters|
  {
    if clusters[0].backup.Some? && j == 0 {
      c := 0;
    } else {
      c := BackupOrigin(clusters[1..], if clusters[0].backup.Some? then j - 1 else j);
      c := c + 1;
    }
  }

  lemma BackupsHeld(children: Children, uid: string, clusters: seq<ClusterSpec>)
    requires AppliedAll(children, uid, WantedBackups(clusters)).1
    ensures forall i | 0 <= i < |clusters| && LastBackupNamed(clusters, i) ::
              BackupChildHeld(Decomposed(children, uid, WantedBackups(clusters)), clusters[i])
  {
    forall i | 0 <= i < |clusters| && LastBackupNamed(clusters, i)
      ensures BackupChildHeld(Decomposed(children, uid, WantedBackups(clusters)), clusters[i])
    {
      var k := BackupPlace(clusters, i);
      WantedIsStored(children, uid, WantedBackups(clusters), k);
    }
  }

  // ----- names

  /** A child's name has no upper-case letter, and lower-casing changes nothing but these. */
  lemma LowerIs(s: string)
    ensures |Lower(s)| == |s|
    ensures forall i | 0 <= i < |s| ::
              if s[i] in "ABCDEFGHIJKLMNOPQRSTUVWXYZ" then Lower(s)[i] in "abcdefghijklmnopqrstuvwxyz" && Lower(s)[i] as int - s[i] as int == 32
              else Lower(s)[i] == s[i]
  {
    LettersAre();
    forall i | 0 <= i < |s| ensures Lower(s)[i] == LowerChar(s[i]) {
    }
  }

  lemma LettersAre()
    ensures forall c: char :: c in "ABCDEFGHIJKLMNOPQRSTUVWXYZ" <==> 'A' <= c <= 'Z'
    ensures forall c: char :: c in "abcdefghijklmnopqrstuvwxyz" <==> 'a' <= c <= 'z'
  {
    var upper, lower := "ABCDEFGHIJKLMNOPQRSTUVWXYZ", "abcdefghijklmnopqrstuvwxyz";
    forall c: char | 'A' <= c <= 'Z' ensures c in upper {
      assert upper[c as int - 'A' as int] == c;
    }
    forall c: char | 'a' <= c <= 'z' ensures c in lower {
      assert lower[c as int - 'a' as int] == c;
    }
  }

  /** A backup's name has a dash for each colon of its orbId and is otherwise the orbId in lower case. */
  lemma BackupNameIs(orbId: string)
    ensures |OrbIdToK8sName(orbId)| == |orbId|
    ensures forall i | 0 <= i < |orbId| :: OrbIdToK8sName(orbId)[i] == if orbId[i] == ':' then '-' else Lower(orbId)[i]
  {
  }

  /** The names of the servers that have a hostname. */
  function HostNames(servers: seq<ServerSpec>): set<string> {
    if servers == [] then {}
    else (if servers[0].hostname.Some? then {Lower(servers[0].hostname.value)} else {}) + HostNames(servers[1..])
  }

  lemma NamesOfHead(wanted: seq<Wanted>)
    requires wanted != []
    ensures Names(wanted) == {wanted[0].name} + Names(wanted[1..])
  {
    assert forall w :: w in wanted <==> w == wanted[0] || w in wanted[1..];
  }

  // ----- exactness

  /** The children a wanted list stands for: for a repeated name the last one wins. */
  function Projection(wanted: seq<Wanted>): map<string, ChildSpec>
    decreases |wanted|
  {
    if wanted == [] then map[]
    else Projection(wanted[..|wanted| - 1])[wanted[|wanted| - 1].name := wanted[|wanted| - 1].spec]
  }

  /** The specs of the children a bundle controls. */
  function OwnedSpecs(children: Children, uid: string): map<string, ChildSpec> {
    map n | n in children && IsOwnedBy(children[n], uid) :: children[n].spec
  }

  lemma {:induction false} OthersAre(owners: seq<OwnerRef>, uid: string)
    ensures forall r | r in Others(owners, uid) :: r.uid != uid && r.theirs && !r.ours
    ensures forall r | r in Others(owners, uid) :: exists q | q in owners :: q.uid == r.uid && q.controller == r.controller && q.theirs
    ensures forall q | q in owners && q.uid != uid && q.theirs :: q.(ours := false) in Others(owners, uid)
    ensures Others(Others(owners, uid), uid) == Others(owners, uid)
  {
    if owners != [] {
      OthersAre(owners[1..], uid);
      var rest := Others(owners[1..], uid);
      assert forall q :: q in owners <==> q == owners[0] || q in owners[1..];
      if owners[0].uid != uid && owners[0].theirs {
        assert Others(owners, uid)[1..] == rest;
      }
    }
  }

  /** References that some other writer holds survive every apply, with whatever they say about control. */
  lemma OtherWritersKept(owners: seq<OwnerRef>, uid: string, q: OwnerRef)
    requires q in owners && q.theirs
    ensures exists r | r in WithOwner(owners, uid) :: r.uid == q.uid && r.theirs && (q.uid != uid ==> r.controller == q.controller)
  {
    OthersAre(owners, uid);
    var out := WithOwner(owners, uid);
    if q.uid == uid {
      assert out[0] in out && out[0].theirs;
    } else {
      assert q.(ours := false) in out;
    }
  }

  /** A child that other bundles control under this controller's field manager is not refused. */
  lemma HandedOver(children: Children, uid: string, w: Wanted)
    requires w.name in children && w.name != ""
    requires forall r | r in children[w.name].owners && r.controller && r.uid != uid :: !r.theirs
    ensures Applied(children, uid, w).Some?
  {
  }

  /** The references after an apply: the bundle controls the child, it is the only one that does unless the
      apply had to be refused, and applying again changes nothing. */
  lemma WithOwnerOwns(owners: seq<OwnerRef>, uid: string)
    ensures exists r | r in WithOwner(owners, uid) :: r.controller && r.uid == uid
    ensures WithOwner(WithOwner(owners, uid), uid) == WithOwner(owners, uid)
    ensures forall r | r in WithOwner(owners, uid) && r.controller && r.uid != uid ::
              r.theirs && exists q | q in owners :: q.controller && q.theirs && q.uid != uid
  {
    var out := WithOwner(owners, uid);
    OthersAre(owners, uid);
    assert out[0] in out && out[1..] == Others(owners, uid);
    assert Others(out, uid) == Others(Others(owners, uid), uid);
    assert HeldByTheirs(out, uid) <==> out[0].theirs;
  }

  /** The bundle and no other object controls the child, and another apply leaves its owners alone. */
  ghost predicate Taken(c: Child, uid: string) {
    && (forall u :: IsOwnedBy(c, u) <==> u == uid)
    && !ControlledByOther(c, uid) && WithOwner(c.owners, uid) == c.owners
  }

  /** One name after all applies of a successful pass. */
  lemma {:induction false} AppliedAllAt(children: Children, uid: string, wanted: seq<Wanted>, n: string)
    requires AppliedAll(children, uid, wanted).1
    ensures var out := AppliedAll(children, uid, wanted).0;
            && (n !in Names(wanted) ==> Get(out, n) == Get(children, n))
            && (n in Names(wanted) ==> n != "" && n in out && Taken(out[n], uid)
                                       && n in Projection(wanted) && out[n].spec == Projection(wanted)[n])
    decreases |wanted|
  {
    if wanted != [] {
      var last := wanted[|wanted| - 1];
      var init := wanted[..|wanted| - 1];
      assert wanted == init + [last];
      AppliedAllSplits(children, uid, init, last);
      AppliedAllAt(children, uid, init, n);
      AppliedAt(AppliedAll(children, uid, init).0, uid, last);
      LastWanted(wanted, init, last, n);
    }
  }

  lemma LastWanted(wanted: seq<Wanted>, init: seq<Wanted>, last: Wanted, n: string)
    requires wanted == init + [last]
    ensures Projection(wanted) == Projection(init)[last.name := last.spec]
    ensures n in Names(wanted) <==> n in Names(init) || n == last.name
  {
    assert wanted[..|wanted| - 1] == init;
  }

  /** One successful apply. */
  lemma AppliedAt(mid: Children, uid: string, w: Wanted)
    requires Applied(mid, uid, w).Some?
    ensures var out := Applied(mid, uid, w).value;
            && w.name != "" && w.name in out && out[w.name].spec == w.spec && Taken(out[w.name], uid)
            && forall n | n != w.name :: Get(out, n) == Get(mid, n)
  {
    WithOwnerOwns(if w.name in mid then mid[w.name].owners else [], uid);
  }

  lemma {:induction false} AppliedAllSplits(children: Children, uid: string, init: seq<Wanted>, last: Wanted)
    ensures var (mid, ok) := AppliedAll(children, uid, init);
            AppliedAll(children, uid, init + [last]) ==
            if !ok then (mid, false)
            else if Applied(mid, uid, last).None? then (mid, false) else (Applied(mid, uid, last).value, true)
    decreases |init|
  {
    if init == [] {
      assert init + [last] == [last] && [last][1..] == [];
    } else {
      assert (init + [last])[1..] == init[1..] + [last];
      var next := Applied(children, uid, init[0]);
      if next.Some? {
        AppliedAllSplits(next.value, uid, init[1..], last);
      }
    }
  }

  lemma {:induction false} ProjectionNames(wanted: seq<Wanted>)
    ensures Projection(wanted).Keys == Names(wanted)
    decreases |wanted|
  {
    if wanted != [] {
      ProjectionNames(wanted[..|wanted| - 1]);
      assert wanted == wanted[..|wanted| - 1] + [wanted[|wanted| - 1]];
    }
  }

  function Decomposed(children: Children, uid: string, wanted: seq<Wanted>): Children {
    Pruned(AppliedAll(children, uid, wanted).0, uid, Names(wanted))
  }

  /** A successful pass leaves the bundle controlling exactly the projection of its spec. */
  lemma DecompositionIsExact(children: Children, uid: string, wanted: seq<Wanted>)
    requires AppliedAll(children, uid, wanted).1
    ensures OwnedSpecs(Decomposed(children, uid, wanted), uid) == Projection(wanted)
  {
    var out := Decomposed(children, uid, wanted);
    ProjectionNames(wanted);
    forall n ensures Get(OwnedSpecs(out, uid), n) == Get(Projection(wanted), n) {
      AppliedAllAt(children, uid, wanted, n);
    }
    SameLookups(OwnedSpecs(out, uid), Projection(wanted));
  }

  /** A wanted child changes hands: whoever controlled it before under this controller's field manager, after
      a successful pass this bundle does and no other object does. */
  lemma WantedChangesHands(children: Children, uid: string, wanted: seq<Wanted>, n: string)
    requires AppliedAll(children, uid, wanted).1 && n in Names(wanted)
    ensures var out := Decomposed(children, uid, wanted);
            n in out && forall u :: IsOwnedBy(out[n], u) <==> u == uid
  {
    AppliedAllAt(children, uid, wanted, n);
  }

  /** It touches no child outside the spec that the bundle does not control. */
  lemma ForeignChildrenUntouched(children: Children, uid: string, wanted: seq<Wanted>, n: string)
    requires AppliedAll(children, uid, wanted).1 && n !in Names(wanted)
    ensures Get(Decomposed(children, uid, wanted), n) ==
            if n in children && IsOwnedBy(children[n], uid) then None else Get(children, n)
  {
    AppliedAllAt(children, uid, wanted, n);
  }

  /** A pass succeeds exactly when every name is usable and no expected child has another controller. */
  lemma {:induction false} SucceedsIff(children: Children, uid: string, wanted: seq<Wanted>)
    ensures AppliedAll(children, uid, wanted).1 <==>
            forall w | w in wanted :: w.name != "" && !(w.name in children && ControlledByOther(children[w.name], uid))
    decreases |wanted|
  {
    if wanted != [] {
      var next := Applied(children, uid, wanted[0]);
      assert forall w :: w in wanted <==> w == wanted[0] || w in wanted[1..];
      if next.Some? {
        WithOwnerOwns(if wanted[0].name in children then children[wanted[0].name].owners else [], uid);
        SucceedsIff(next.value, uid, wanted[1..]);
      }
    }
  }

  /** Applying a wanted child again changes nothing, when no other wanted child has its name. */
  lemma WantedStays(children: Children, uid: string, wanted: seq<Wanted>, w: Wanted)
    requires AppliedAll(children, uid, wanted).1 && w in wanted
    requires forall v | v in wanted && v.name == w.name :: v == w
    ensures Applied(Decomposed(children, uid, wanted), uid, w) == Some(Decomposed(children, uid, wanted))
  {
    assert w.name in Names(wanted);
    AppliedAllAt(children, uid, wanted, w.name);
    ProjectionOf(wanted, w);
    var out := Decomposed(children, uid, wanted);
    assert out[w.name] == AppliedAll(children, uid, wanted).0[w.name];
    SameLookups(out, out[w.name := Child(WithOwner(out[w.name].owners, uid), w.spec)]);
  }

  /** A second pass changes nothing when no two wanted children share a name. */
  lemma SecondPassIsIdentity(children: Children, uid: string, wanted: seq<Wanted>)
    requires AppliedAll(children, uid, wanted).1
    requires forall v, w | v in wanted && w in wanted && v.name == w.name :: v == w
    ensures AppliedAll(Decomposed(children, uid, wanted), uid, wanted) == (Decomposed(children, uid, wanted), true)
    ensures Decomposed(Decomposed(children, uid, wanted), uid, wanted) == Decomposed(children, uid, wanted)
  {
    forall w | w in wanted
      ensures Applied(Decomposed(children, uid, wanted), uid, w) == Some(Decomposed(children, uid, wanted))
    {
      WantedStays(children, uid, wanted, w);
    }
    AllIdentities(Decomposed(children, uid, wanted), uid, wanted);
    PrunedTwice(AppliedAll(children, uid, wanted).0, uid, Names(wanted));
  }

  lemma PrunedTwice(children: Children, uid: string, expected: set<string>)
    ensures Pruned(Pruned(children, uid, expected), uid, expected) == Pruned(children, uid, expected)
  {
    SameLookups(Pruned(Pruned(children, uid, expected), uid, expected), Pruned(children, uid, expected));
  }

  lemma {:induction false} AllIdentities(children: Children, uid: string, wanted: seq<Wanted>)
    requires forall w | w in wanted :: Applied(children, uid, w) == Some(children)
    ensures AppliedAll(children, uid, wanted) == (children, true)
    decreases |wanted|
  {
    if wanted != [] {
      AllIdentities(children, uid, wanted[1..]);
    }
  }

  /** Every wanted child is in the projection exactly when names determine children. */
  lemma {:induction false} ProjectionOf(wanted: seq<Wanted>, w: Wanted)
    requires w in wanted && forall v | v in wanted && v.name == w.name :: v == w
    ensures w.name in Projection(wanted) && Projection(wanted)[w.name] == w.spec
    decreases |wanted|
  {
    var init, last := wanted[..|wanted| - 1], wanted[|wanted| - 1];
    assert wanted == init + [last] && last in wanted;
    if last.name != w.name {
      ProjectionOf(init, w);
    }
  }

  /** No wanted child is lost exactly when names determine children; two hostnames that differ only in
      case, or two orbIds that differ only in ':' against '-', are what loses one. */
  lemma {:induction false} NothingLostIff(wanted: seq<Wanted>)
    ensures (forall w | w in wanted :: w.name in Projection(wanted) && Projection(wanted)[w.name] == w.spec) <==>
            forall v, w | v in wanted && w in wanted && v.name == w.name :: v == w
  {
    if forall v, w | v in wanted && w in wanted && v.name == w.name :: v == w {
      forall w | w in wanted ensures w.name in Projection(wanted) && Projection(wanted)[w.name] == w.spec {
        ProjectionOf(wanted, w);
      }
    }
  }

  /** Two children with one name: the reconcile succeeds and leaves only the second. */
  lemma CollisionLosesFirst(uid: string, v: Wanted, w: Wanted)
    requires v.name == w.name != ""
    ensures AppliedAll(map[], uid, [v, w]).1
    ensures OwnedSpecs(Decomposed(map[], uid, [v, w]), uid) == map[w.name := w.spec]
  {
    SucceedsIff(map[], uid, [v, w]);
    DecompositionIsExact(map[], uid, [v, w]);
    assert [v, w][..1] == [v] && [v][..0] == [];
    assert Projection([v]) == map[v.name := v.spec];
  }

  lemma TwoServers(a: ServerSpec, b: ServerSpec)
    ensures WantedServers([a, b]) == [WantedServer(a), WantedServer(b)]
  {
    assert [a, b][1..] == [b] && [b][1..] == [];
    assert WantedServers([b]) == [WantedServer(b)] + WantedServers([]);
  }

  lemma TwoBackups(c: ClusterSpec, d: ClusterSpec)
    requires c.backup.Some? && d.backup.Some?
    ensures |WantedBackups([c])| == |WantedBackups([d])| == 1
    ensures WantedBackups([c, d]) == [WantedBackups([c])[0], WantedBackups([d])[0]]
    ensures WantedBackups([c])[0].name == OrbIdToK8sName(c.backup.value.orbId)
  {
    assert [c, d][1..] == [d] && [d][1..] == [] && [c][1..] == [];
    assert WantedBackups([c, d]) == WantedBackups([c]) + WantedBackups([d]);
  }

  /** Two hostnames that differ in case only: the first server's child is lost in a successful reconcile. */
  lemma CollidingHostnames(a: ServerSpec, b: ServerSpec, uid: string)
    requires a.hostname == Some("Host") && b.hostname == Some("host")
    ensures AppliedAll(map[], uid, WantedServers([a, b])).1
    ensures OwnedSpecs(Decomposed(map[], uid, WantedServers([a, b])), uid) == map["host" := WantedServer(b).spec]
  {
    assert Lower("Host") == "host" == Lower("host");
    TwoServers(a, b);
    CollisionLosesFirst(uid, WantedServer(a), WantedServer(b));
  }

  /** Two backup orbIds that differ in one separator only: the first cluster's child is lost. */
  lemma CollidingOrbIds(c: ClusterSpec, d: ClusterSpec, uid: string)
    requires c.backup.Some? && c.backup.value.orbId == "dc:1" && d.backup.Some? && d.backup.value.orbId == "dc-1"
    ensures AppliedAll(map[], uid, WantedBackups([c, d])).1
    ensures |WantedBackups([d])| == 1 &&
            OwnedSpecs(Decomposed(map[], uid, WantedBackups([c, d])), uid) == map["dc-1" := WantedBackups([d])[0].spec]
  {
    assert DashColons("dc:1") == "dc-1" == DashColons("dc-1") && Lower("dc-1") == "dc-1";
    TwoBackups(c, d);
    TwoBackups(d, c);
    CollisionLosesFirst(uid, WantedBackups([c])[0], WantedBackups([d])[0]);
  }

  /** A child the bundle does not control: two successful passes delete it exactly when the first one wants
      its name, and so adopts it by force, and the second one does not. A child whose name neither pass
      wants is never touched. */
  lemma AdoptedThenDeletedIff(children: Children, uid: string, first: seq<Wanted>, second: seq<Wanted>, n: string)
    requires n in children && !IsOwnedBy(children[n], uid)
    requires AppliedAll(children, uid, first).1 && AppliedAll(Decomposed(children, uid, first), uid, second).1
    ensures var out := Decomposed(Decomposed(children, uid, first), uid, second);
            && (n !in out <==> n in Names(first) && n !in Names(second))
            && (n !in Names(first) && n !in Names(second) ==> n in out && out[n] == children[n])
  {
    var mid := Decomposed(children, uid, first);
    AppliedAllAt(children, uid, first, n);
    assert n in mid && (n in Names(first) <==> IsOwnedBy(mid[n], uid));
    AppliedAllAt(mid, uid, second, n);
  }

  /** When a reconcile succeeds, every server has a hostname, so the pruning expects every server. */
  lemma {:induction false} HostNamesAreNames(servers: seq<ServerSpec>)
    requires forall w | w in WantedServers(servers) :: w.name != ""
    ensures HostNames(servers) == Names(WantedServers(servers))
    decreases |servers|
  {
    if servers != [] {
      var wanted := WantedServers(servers);
      assert wanted[1..] == WantedServers(servers[1..]);
      assert wanted[0] in wanted && Lower("") == "";
      HostNamesAreNames(servers[1..]);
      NamesOfHead(wanted);
    }
  }

  /** The whole reconcile: on success the bundle controls exactly the projection of its servers and
      of its backups. */
  lemma ReconcileIsExact(b: Bundle, serverConfigs: Children, backupConfigs: Children)
    requires AppliedAll(serverConfigs, b.uid, WantedServers(b.servers)).1
    requires AppliedAll(backupConfigs, b.uid, WantedBackups(b.clusters)).1
    ensures var sc := Pruned(AppliedAll(serverConfigs, b.uid, WantedServers(b.servers)).0, b.uid, HostNames(b.servers));
            var bc := Pruned(AppliedAll(backupConfigs, b.uid, WantedBackups(b.clusters)).0, b.uid, Names(WantedBackups(b.clusters)));
            && OwnedSpecs(sc, b.uid) == Projection(WantedServers(b.servers))
            && OwnedSpecs(bc, b.uid) == Projection(WantedBackups(b.clusters))
  {
    SucceedsIff(serverConfigs, b.uid, WantedServers(b.servers));
    HostNamesAreNames(b.servers);
    DecompositionIsExact(serverConfigs, b.uid, WantedServers(b.servers));
    DecompositionIsExact(backupConfigs, b.uid, WantedBackups(b.clusters));
  }
}
