/** The reclaim trigger and the whole-run theorems of the ownership protocol. */
module Reclaim {
  import opened Base
  import opened Trees
  import opened BowOut
  import opened Schema
  import opened ServerSideApply
  import opened Pipeline
  import opened Replay
  import opened Walkers
  import opened Consume
  import Ignored
  import EndState
  import TypedSpec

  /** All leaf paths of local managers under f:spec. */
  function CollectedPaths(trees: seq<Claims>): set<Path> {
    if trees == [] then {} else LeafPaths(trees[0]) + CollectedPaths(trees[1..])
  }

  method CollectLocalLeafPaths(managed: seq<Managed>) returns (paths: set<Path>)
    ensures paths == CollectedPaths(LocalTrees(managed))
  {
    paths := {};
    for i := 0 to |managed|
      invariant CollectedPaths(LocalTrees(managed)) == paths + CollectedPaths(LocalTrees(managed[i..]))
    {
      var entry := managed[i];
      assert managed[i..][1..] == managed[i + 1..];
      if "local:" <= entry.manager && entry.spec.Some? {
        assert LocalTrees(managed[i..])[1..] == LocalTrees(managed[i + 1..]);
        paths := WalkLeaves(entry.spec.value, [], paths);
        UnprefixedPaths(LeafPaths(entry.spec.value));
      }
    }
  }

  lemma UnprefixedPaths(paths: set<Path>)
    ensures Prefixed([], paths) == paths
  {
    assert forall q: Path :: [] + q == q;
  }

  /** Paths with a local claim before and none after. */
  method LocalReleasedFieldPaths(before: seq<Managed>, after: seq<Managed>) returns (released: set<Path>)
    ensures released == CollectedPaths(LocalTrees(before)) - CollectedPaths(LocalTrees(after))
  {
    var oldPaths := CollectLocalLeafPaths(before);
    var newPaths := CollectLocalLeafPaths(after);
    released := oldPaths - newPaths;
  }

  lemma {:induction false} CollectedIn(trees: seq<Claims>, p: Path)
    ensures p in CollectedPaths(trees) <==> exists t | t in trees :: p in LeafPaths(t)
  {
    if trees != [] {
      CollectedIn(trees[1..], p);
      assert trees[0] in trees && forall t :: t in trees[1..] ==> t in trees;
      if t :| t in trees && p in LeafPaths(t) && t != trees[0] {
        assert t in trees[1..];
      }
    }
  }

  /** A slot is among the collected paths exactly when a local manager claims it. */
  lemma CollectedSlot(s: State, managed: seq<Managed>, p: Slot)
    requires WfState(s) && Lists(managed, s.claims) && WfSlot(p)
    ensures Keys(p) in CollectedPaths(LocalTrees(managed)) <==> LocallyClaimed(s, p)
  {
    CollectedIn(LocalTrees(managed), Keys(p));
    TypedSpec.ClaimedInTrees(s, managed, p);
    forall t | t in LocalTrees(managed) ensures Keys(p) in LeafPaths(t) <==> ClaimedAt(t, Keys(p)) {
      LeafPathsAreClaims(t, Keys(p));
    }
  }

  /** Every other leaf path is the presence marker of an entry whose list key is claimed too. */
  lemma OnlySlotsAndMarks(slots: set<Slot>, q: Path)
    requires WfClaims(slots) && slots != {} && q in LeafPaths(ClaimTree(slots))
    ensures (exists p :: p in slots && q == Keys(p)) || (exists id :: IdSlot(id) in slots && q == MarkPath(id))
  {
    var id := UnderServers(slots, q);
    EntryLeaves(slots, id, q[2..]);
    if q[2..] == [Mark] {
      PathOfMark(id, q);
    } else {
      var p :| p in slots && p.server == id && q[2..] == (if p.group == "" then [Field(p.field)] else [Field(p.group), Field(p.field)]);
      PathOfSlot(p, id, q);
    }
  }

  lemma PathOfMark(id: string, q: Path)
    requires |q| > 2 && q[0] == Field(SERVERS) && q[1] == Entry(id) && q[2..] == [Mark]
    ensures q == MarkPath(id)
  {
    assert q == [q[0], q[1]] + q[2..];
  }

  lemma PathOfSlot(p: Slot, id: string, q: Path)
    requires p.server == id && |q| > 2 && q[0] == Field(SERVERS) && q[1] == Entry(id)
    requires q[2..] == if p.group == "" then [Field(p.field)] else [Field(p.group), Field(p.field)]
    ensures q == Keys(p)
  {
    assert q == [q[0], q[1]] + q[2..];
  }

  lemma UnderServers(slots: set<Slot>, q: Path) returns (id: string)
    requires slots != {} && q in LeafPaths(ClaimTree(slots))
    ensures |q| > 2 && q[0] == Field(SERVERS) && q[1] == Entry(id)
    ensures ClaimedAt(EntryClaims(slots, id), q[2..])
  {
    LeafPathsAreClaims(ClaimTree(slots), q);
    var some :| some in slots;
    ServerNodeNotLeaf(slots, some);
    assert q[0] == Field(SERVERS) && ClaimedAt(ServerClaims(slots), q[1..]);
    assert q[1..] != [] && q[1..][0] == q[1] && q[1..][1..] == q[2..];
    id := q[1].orbId;
    var r :| r in slots && r.server == id;
    ServerNodeNotLeaf(slots, r);
    assert ClaimedAt(EntryClaims(slots, id), q[2..]);
  }

  function MarkPath(id: string): Path {
    [Field(SERVERS), Entry(id), Mark]
  }

  lemma EntryLeaves(slots: set<Slot>, id: string, q: Path)
    requires WfClaims(slots) && q != [] && ClaimedAt(EntryClaims(slots, id), q)
    ensures (q == [Mark] && IdSlot(id) in slots)
         || (exists p :: p in slots && p.server == id && q == (if p.group == "" then [Field(p.field)] else [Field(p.group), Field(p.field)]))
  {
    var e := EntryClaims(slots, id);
    assert q == [q[0]] + q[1..];
    var sub := e.kids[q[0]];
    if q[0].Field? && IsGroup(q[0].name) {
      StructNonEmpty(slots, id, q[0].name);
      var f := StructLeaf(slots, id, q[0].name, q[1..]);
      var p := Slot(id, q[0].name, f);
      assert q == [Field(p.group), Field(p.field)];
    } else {
      assert IsLeafClaim(sub) && q[1..] == [];
      if q[0].Field? {
        var p :| p in slots && p.server == id && q[0] == Field(if p.group == "" then p.field else p.group);
        assert WfSlot(p);
      }
    }
  }

  lemma StructLeaf(slots: set<Slot>, id: string, g: string, q: Path) returns (f: string)
    requires ClaimedAt(Claims(GroupClaims(slots, id, g)), q) && q != []
    ensures q == [Field(f)] && Slot(id, g, f) in slots
  {
    GroupClaimsRead(slots, id, g, q[0]);
    f := q[0].name;
    assert ClaimedAt(LEAF_CLAIM, q[1..]);
    assert q == [q[0]] + q[1..];
  }

  lemma StructNonEmpty(slots: set<Slot>, id: string, g: string)
    requires WfClaims(slots) && IsGroup(g) && Field(g) in EntryClaims(slots, id).kids
    ensures EntryClaims(slots, id).kids[Field(g)] == Claims(GroupClaims(slots, id, g))
    ensures !IsLeafClaim(EntryClaims(slots, id).kids[Field(g)])
  {
    var q :| q in slots && q.server == id && (if q.group == "" then q.field else q.group) == g;
    assert WfSlot(q);
    GroupClaimsRead(slots, id, g, Field(q.field));
    assert q == Slot(id, g, q.field);
  }

  lemma MarkCollected(s: State, managed: seq<Managed>, id: string)
    requires WfState(s) && Lists(managed, s.claims)
    ensures MarkPath(id) in CollectedPaths(LocalTrees(managed)) <==> LocallyClaimed(s, IdSlot(id))
  {
    CollectedIn(LocalTrees(managed), MarkPath(id));
    forall w | w in s.claims && IsLocal(w) ensures MarkPath(id) in LeafPaths(ClaimTree(s.claims[w])) <==> IdSlot(id) in s.claims[w] {
      TypedSpec.ClaimsWf(s, w);
      MarkInTree(s.claims[w], id);
    }
    forall t | t in LocalTrees(managed) ensures exists w :: w in s.claims && IsLocal(w) && t == ClaimTree(s.claims[w]) {
      TypedSpec.TreesOfLocals(s, managed, t);
    }
    if LocallyClaimed(s, IdSlot(id)) {
      var w :| w in s.claims && IsLocal(w) && IdSlot(id) in s.claims[w];
      TypedSpec.TreesOfLocals(s, managed, ClaimTree(s.claims[w]));
    }
  }

  lemma MarkInTree(slots: set<Slot>, id: string)
    requires WfClaims(slots) && slots != {}
    ensures MarkPath(id) in LeafPaths(ClaimTree(slots)) <==> IdSlot(id) in slots
  {
    var q := MarkPath(id);
    LeafPathsAreClaims(ClaimTree(slots), q);
    assert q[1..] == [Entry(id), Mark] && q[1..][1..] == [Mark] && q[1..][1..][1..] == [];
    assert ClaimedAt(ClaimTree(slots), q) == ClaimedAt(ServerClaims(slots), q[1..]);
    if id in ServersOf(slots) {
      assert ClaimedAt(ServerClaims(slots), q[1..]) == ClaimedAt(EntryClaims(slots, id), [Mark]);
    } else {
      assert IdSlot(id).server == id;
    }
  }

  /** The reclaim trigger fires exactly when some leaf lost its last local claim. */
  lemma TriggerIff(a: State, b: State, before: seq<Managed>, after: seq<Managed>)
    requires WfState(a) && WfState(b) && Lists(before, a.claims) && Lists(after, b.claims)
    ensures CollectedPaths(LocalTrees(before)) - CollectedPaths(LocalTrees(after)) != {} <==>
            exists p :: LocallyClaimed(a, p) && !LocallyClaimed(b, p)
  {
    var released := CollectedPaths(LocalTrees(before)) - CollectedPaths(LocalTrees(after));
    if released != {} {
      var q :| q in released;
      CollectedIn(LocalTrees(before), q);
      var t :| t in LocalTrees(before) && q in LeafPaths(t);
      TypedSpec.TreesOfLocals(a, before, t);
      var w :| w in a.claims && IsLocal(w) && t == ClaimTree(a.claims[w]);
      TypedSpec.ClaimsWf(a, w);
      OnlySlotsAndMarks(a.claims[w], q);
      if p :| p in a.claims[w] && q == Keys(p) {
        CollectedSlot(b, after, p);
        assert LocallyClaimed(a, p);
      } else {
        var id :| IdSlot(id) in a.claims[w] && q == MarkPath(id);
        MarkCollected(b, after, id);
        assert LocallyClaimed(a, IdSlot(id));
      }
    }
    if p :| LocallyClaimed(a, p) && !LocallyClaimed(b, p) {
      var w :| w in a.claims && IsLocal(w) && p in a.claims[w];
      TypedSpec.ClaimsWf(a, w);
      CollectedSlot(a, before, p);
      CollectedSlot(b, after, p);
      assert Keys(p) in released;
    }
  }

  // ----- runs

  /** What happens to the object: an operator writes as a local manager, a manifest is dispatched, or the
      last manifest is replayed. Dispatches and replays carry the API failures they meet and the order in
      which their sweep visits the managers. */
  datatype Event =
    | Write(manager: string, body: Vals, force: bool)
    | Dispatch(m: Manifest, faults: Faults, visits: seq<string>)
    | Replayed(faults: Faults, visits: seq<string>)

  datatype System = System(obj: State, last: Option<Manifest>)

  ghost predicate EventOk(e: Event) {
    match e
    case Write(w, body, _) => IsLocal(w) && WfVals(body) && forall p | p in body :: p.group == "" || p.group == IDRAC
    case Dispatch(m, _, _) => Conforms(m)
    case Replayed(_, _) => true
  }

  function Step(s: System, retryMax: nat, e: Event): System {
    match e
    case Write(w, body, force) =>
      var answer := Patched(s.obj, w, body, force);
      if answer.Some? then s.(obj := answer.value) else s
    case Dispatch(m, faults, visits) =>
      System(Outcome(s.obj, m, retryMax, faults, visits), if m.datacenter == "" then s.last else Some(m))
    case Replayed(faults, visits) =>
      if s.last.Some? then s.(obj := Outcome(s.obj, s.last.value, retryMax, faults, visits)) else s
  }

  function Run(s: System, retryMax: nat, events: seq<Event>): System
    decreases |events|
  {
    if events == [] then s else Run(Step(s, retryMax, events[0]), retryMax, events[1..])
  }

  /** What every history keeps: the object is well formed, within the domain and complete. */
  ghost predicate SystemOk(s: System) {
    && InDomain(s.obj) && Complete(s.obj.vals)
    && (s.last.Some? ==> Conforms(s.last.value) && s.last.value.datacenter != "")
  }

  const EMPTY := System(State(map[], map[]), None)

  lemma WriteKeepsDomain(s: State, w: string, body: Vals)
    requires InDomain(s) && IsLocal(w) && WfVals(body) && forall p | p in body :: p.group == "" || p.group == IDRAC
    ensures InDomain(Applied(s, w, body))
  {
    AppliedWf(s, w, body);
    var t := Applied(s, w, body);
    forall o | o in t.claims
      ensures o == CONTROLLER || IsLocal(o)
      ensures IsLocal(o) ==> forall p | p in t.claims[o] :: p.group == "" || p.group == IDRAC
    {
      AppliedOwned(s, w, body, o);
      assert t.claims[o] == OwnedAfter(s, w, body, o);
      if o != w && IsLocal(o) {
        forall p | p in t.claims[o] ensures p.group == "" || p.group == IDRAC {
          assert p in Owned(s, o);
        }
      }
    }
  }

  lemma StepStaysOk(s: System, retryMax: nat, e: Event)
    requires SystemOk(s) && EventOk(e)
    ensures SystemOk(Step(s, retryMax, e))
  {
    match e {
      case Write(w, body, _) => WriteKeepsDomain(s.obj, w, body);
      case Dispatch(m, faults, visits) => OutcomeKeepsDomain(s.obj, m, retryMax, faults, visits);
      case Replayed(faults, visits) =>
        if s.last.Some? {
          OutcomeKeepsDomain(s.obj, s.last.value, retryMax, faults, visits);
        }
    }
  }

  /** Every history from a well-formed object, with any failing and refused calls in it, stays within the
      domain the pipeline is built for, and never stores an entry without its required leaves. */
  lemma {:induction false} RunStaysOk(s: System, retryMax: nat, events: seq<Event>)
    requires SystemOk(s) && forall e | e in events :: EventOk(e)
    ensures SystemOk(Run(s, retryMax, events))
    decreases |events|
  {
    if events != [] {
      assert events[0] in events;
      StepStaysOk(s, retryMax, events[0]);
      RunStaysOk(Step(s, retryMax, events[0]), retryMax, events[1..]);
    }
  }

  lemma HistoryIsOk(retryMax: nat, events: seq<Event>)
    requires forall e | e in events :: EventOk(e)
    ensures SystemOk(Run(EMPTY, retryMax, events))
  {
    EmptyIsOk();
    RunStaysOk(EMPTY, retryMax, events);
  }

  lemma EmptyIsOk()
    ensures SystemOk(EMPTY)
  {
  }

  /** Handback: after any history, with any failing and refused calls in it, once no local manager claims a
      leaf of the last manifest, a replay that gets past its applies gives it the manifest's value, even
      if the manifest still lists it as ignored and whatever becomes of the replay's sweep. */
  lemma HandbackReverts(events: seq<Event>, retryMax: nat, p: Slot, faults: Faults, visits: seq<string>)
    requires retryMax > 0 && forall e | e in events :: EventOk(e)
    requires var s := Run(EMPTY, retryMax, events);
             s.last.Some? && p in s.last.value.vals && !LocallyClaimed(s.obj, p)
    ensures var s := Run(EMPTY, retryMax, events);
            var t := Step(s, retryMax, Replayed(faults, visits)).obj;
            Applies(s.obj, s.last.value, retryMax, faults) ==>
            Get(t.vals, p) == Some(s.last.value.vals[p]) && p in Owned(t, CONTROLLER) && !LocallyClaimed(t, p)
  {
    HistoryIsOk(retryMax, events);
    var s := Run(EMPTY, retryMax, events);
    UnclaimedAfterRun(s.obj, s.last.value, retryMax, faults, visits, p);
  }

  // ----- operators among themselves

  /** A write without force by somebody else. */
  predicate UnforcedByOthers(e: Event, o: string) {
    e.Write? && !e.force && e.manager != o
  }

  /** Whatever the other operators write without force, for as long as nothing is dispatched or replayed, every
      claim of a manager and every value under it stays. */
  lemma {:induction false} UnforcedWritesKeepOthers(s: System, retryMax: nat, events: seq<Event>, o: string)
    requires SystemOk(s) && forall e | e in events :: EventOk(e) && UnforcedByOthers(e, o)
    ensures var t := Run(s, retryMax, events);
            Owned(t.obj, o) == Owned(s.obj, o) && forall p | p in Owned(s.obj, o) :: Get(t.obj.vals, p) == Get(s.obj.vals, p)
    decreases |events|
  {
    if events != [] {
      var e := events[0];
      assert e in events;
      UnforcedKeepsOthers(s.obj, e.manager, e.body);
      StepStaysOk(s, retryMax, e);
      UnforcedWritesKeepOthers(Step(s, retryMax, e), retryMax, events[1..], o);
    }
  }

  /** A write without force that contradicts a leaf somebody else holds leaves the object as it is. */
  lemma ContradictionChangesNothing(s: System, retryMax: nat, e: Event)
    requires e.Write? && !e.force && Contradicts(s.obj, e.manager, e.body)
    ensures Step(s, retryMax, e) == s
  {
    UnforcedIsRefusedIff(s.obj, e.manager, e.body);
  }

  // ----- which claims an operator can release

  /** What manager w states when it gives up p and nothing else. */
  function Without(t: State, w: string, p: Slot): Vals {
    map q | q in Owned(t, w) && q != p && q in t.vals :: t.vals[q]
  }

  lemma WithoutAt(t: State, w: string, p: Slot, q: Slot)
    requires WfState(t) && p in Owned(t, w)
    ensures !Changes(t, Without(t, w, p), q)
    ensures q in Applied(t, w, Without(t, w, p)).vals <==> q in t.vals && (q != p || OwnedByOther(t, w, p))
  {
    AppliedVals(t, w, Without(t, w, p), q);
    if q in Owned(t, w) {
      assert q in t.vals;
    }
  }

  /** The API server accepts the release of one leaf exactly when another manager holds the leaf too, or no
      other leaf needs it. */
  lemma ReleaseAcceptedIff(t: State, w: string, p: Slot, force: bool)
    requires WfState(t) && Complete(t.vals) && p in Owned(t, w)
    ensures Patched(t, w, Without(t, w, p), force).Some? <==>
            OwnedByOther(t, w, p) || forall q | q in t.vals && p in Needs(q) :: q == p
  {
    var after := Applied(t, w, Without(t, w, p)).vals;
    forall q ensures q in after <==> q in t.vals && (q != p || OwnedByOther(t, w, p)) {
      WithoutAt(t, w, p, q);
    }
    WithoutNoConflict(t, w, p);
    CompleteWithout(t.vals, after, p, OwnedByOther(t, w, p));
    AcceptedWhenComplete(t, w, Without(t, w, p), force);
  }

  lemma WithoutNoConflict(t: State, w: string, p: Slot)
    requires WfState(t) && p in Owned(t, w)
    ensures !Conflicts(t, w, Without(t, w, p))
  {
    forall q ensures !Changes(t, Without(t, w, p), q) {
      WithoutAt(t, w, p, q);
    }
  }

  lemma AcceptedWhenComplete(t: State, w: string, body: Vals, force: bool)
    requires !Conflicts(t, w, body)
    ensures Patched(t, w, body, force).Some? <==> Complete(Applied(t, w, body).vals)
  {
  }

  lemma CompleteWithout(vals: Vals, after: Vals, p: Slot, stays: bool)
    requires Complete(vals) && p in vals && forall q :: q in after <==> q in vals && (q != p || stays)
    ensures Complete(after) <==> stays || forall q | q in vals && p in Needs(q) :: q == p
  {
    if !stays && !forall q | q in vals && p in Needs(q) :: q == p {
      var q :| q in vals && p in Needs(q) && q != p;
      assert q in after && p !in after;
    }
  }

  /** While a leaf that another manager holds needs p, its only holder cannot release p at all. */
  lemma ReleaseRefused(t: State, w: string, body: Vals, force: bool, p: Slot, q: Slot)
    requires p in Owned(t, w) && p !in body && !OwnedByOther(t, w, p)
    requires q in t.vals && OwnedByOther(t, w, q) && p in Needs(q)
    ensures Patched(t, w, body, force).None?
  {
    AppliedVals(t, w, body, p);
    AppliedVals(t, w, body, q);
    assert q in Applied(t, w, body).vals && p !in Applied(t, w, body).vals;
  }

  /** w is the only local manager that claims p. */
  ghost predicate SoleClaimant(s: State, w: string, p: Slot) {
    IsLocal(w) && p in Owned(s, w) && forall v | IsLocal(v) && p in Owned(s, v) :: v == w
  }

  predicate AlwaysNeeded(p: Slot) {
    p == HostnameSlot(p.server) || p == OobIpSlot(p.server)
  }

  /** After a run that bows out of a leaf for one local manager, that manager alone owns the leaf, and the
      controller owns the entry's list key. */
  lemma SoleAfterRun(s: State, m: Manifest, retryMax: nat, faults: Faults, visits: seq<string>, w: string, p: Slot)
    requires InDomain(s) && Complete(s.vals) && Conforms(m) && retryMax > 0 && SoleClaimant(s, w, p)
    requires BowedOut(s, m, p) && !Required(p) && !StructTakeover(m, p)
    ensures var t := Outcome(s, m, retryMax, faults, visits);
            Applies(s, m, retryMax, faults) ==>
            && InDomain(t) && Complete(t.vals)
            && p in Owned(t, w) && !OwnedByOther(t, w, p)
            && IdSlot(p.server) in t.vals && IdSlot(p.server) in Owned(t, CONTROLLER)
  {
    OutcomeKeepsDomain(s, m, retryMax, faults, visits);
    OverrideAfterRun(s, m, retryMax, faults, visits, p);
    OutcomeIsAfter(s, m, retryMax, faults, visits);
    if Applies(s, m, retryMax, faults) {
      KeyStays(s, m, ReleasedIn(s, m, retryMax, faults, visits), p);
      SoleOwner(s, Outcome(s, m, retryMax, faults, visits), w, p);
    }
  }

  lemma SoleOwner(s: State, t: State, w: string, p: Slot)
    requires SoleClaimant(s, w, p) && p !in Owned(t, CONTROLLER) && forall v | v in t.claims :: v == CONTROLLER || IsLocal(v)
    requires forall v | IsLocal(v) :: p in Owned(t, v) <==> p in Owned(s, v)
    ensures p in Owned(t, w) && !OwnedByOther(t, w, p)
  {
    OtherOwner(t, w, p);
  }

  lemma KeyStays(s: State, m: Manifest, done: set<string>, p: Slot)
    requires InDomain(s) && Conforms(m) && OnlyLocal(done) && p in m.vals
    ensures var key := IdSlot(p.server); key in After(s, m, done).vals && key in Owned(After(s, m, done), CONTROLLER)
  {
    var key := IdSlot(p.server);
    assert key in m.vals && !BowedOut(s, m, key);
    EndState.CarriedWhole(s, m, key);
    EndState.CarriedHolds(s, m, done, key, TakeoverBody(s, m));
  }

  /** After such a run the manager can release the leaf exactly when it is neither the hostname nor the oobIP:
      those two the schema requires of the entry, so the API server refuses the release, and there is no
      handback of them. */
  lemma HandbackPossibleIff(s: State, m: Manifest, retryMax: nat, faults: Faults, visits: seq<string>, w: string, p: Slot)
    requires InDomain(s) && Complete(s.vals) && Conforms(m) && retryMax > 0 && SoleClaimant(s, w, p)
    requires BowedOut(s, m, p) && !Required(p) && !StructTakeover(m, p)
    ensures var t := Outcome(s, m, retryMax, faults, visits);
            Applies(s, m, retryMax, faults) ==> (Patched(t, w, Without(t, w, p), false).Some? <==> !AlwaysNeeded(p))
  {
    var t := Outcome(s, m, retryMax, faults, visits);
    SoleAfterRun(s, m, retryMax, faults, visits, w, p);
    if Applies(s, m, retryMax, faults) {
      ReleaseAcceptedIff(t, w, p, false);
      OptionalGroups(s, w, p);
      NeededOnlyIf(t, p);
    }
  }

  lemma OptionalGroups(s: State, w: string, p: Slot)
    requires InDomain(s) && IsLocal(w) && p in Owned(s, w)
    ensures p.group == "" || p.group == IDRAC
  {
  }

  lemma NeededOnlyIf(t: State, p: Slot)
    requires IdSlot(p.server) in t.vals && !Required(p) && p != IdSlot(p.server) && (p.group == "" || p.group == IDRAC)
    ensures (forall q | q in t.vals && p in Needs(q) :: q == p) <==> !AlwaysNeeded(p)
  {
    var key := IdSlot(p.server);
    assert AlwaysNeeded(p) ==> p in Needs(key) && key != p;
  }

  lemma NeverReleased(t: State, w: string, body: Vals, force: bool, p: Slot)
    requires IsLocal(w) && p in Owned(t, w) && !OwnedByOther(t, w, p) && AlwaysNeeded(p) && p !in body
    requires IdSlot(p.server) in t.vals && IdSlot(p.server) in Owned(t, CONTROLLER)
    ensures Patched(t, w, body, force).None?
  {
    var key := IdSlot(p.server);
    EndState.ControllerIsNotLocal();
    OtherOwner(t, w, key);
    assert p in Needs(key);
    ReleaseRefused(t, w, body, force, p, key);
  }

  lemma NeededIsPointer(m: Manifest, p: Slot)
    requires AlwaysNeeded(p)
    ensures !Required(p) && !StructTakeover(m, p)
  {
  }

  /** No write of the manager, forced or not, that leaves out a bowed-out hostname or oobIP is accepted. */
  lemma HostnameNeverHandedBack(s: State, m: Manifest, retryMax: nat, faults: Faults, visits: seq<string>, w: string, p: Slot)
    requires InDomain(s) && Complete(s.vals) && Conforms(m) && retryMax > 0 && SoleClaimant(s, w, p)
    requires BowedOut(s, m, p) && AlwaysNeeded(p)
    ensures Applies(s, m, retryMax, faults) ==> Inseparable(Outcome(s, m, retryMax, faults, visits), w, p)
  {
    NeededIsPointer(m, p);
    SoleAfterRun(s, m, retryMax, faults, visits, w, p);
    if Applies(s, m, retryMax, faults) {
      AllRefused(Outcome(s, m, retryMax, faults, visits), w, p);
    }
  }

  /** Every write by w that leaves p out is refused. */
  ghost predicate Inseparable(t: State, w: string, p: Slot) {
    forall body, force | p !in body :: Patched(t, w, body, force).None?
  }

  lemma AllRefused(t: State, w: string, p: Slot)
    requires IsLocal(w) && p in Owned(t, w) && !OwnedByOther(t, w, p) && AlwaysNeeded(p)
    requires IdSlot(p.server) in t.vals && IdSlot(p.server) in Owned(t, CONTROLLER)
    ensures Inseparable(t, w, p)
  {
    forall body, force | p !in body ensures Patched(t, w, body, force).None? {
      NeverReleased(t, w, body, force, p);
    }
  }

  // ----- quiescence

  /** A replay whose failures cannot disturb a settled object: its takeover apply is not lost between a
      normal apply and the re-injection it needs. */
  predicate Harmless(t: State, m: Manifest, retryMax: nat, faults: Faults) {
    !faults.takeover || faults.attempts >= retryMax || !EndState.TakeoverReinjects(t, m)
  }

  /** A run on a settled object changes nothing, even when calls fail in it. */
  lemma SettledOutcome(t: State, m: Manifest, retryMax: nat, faults: Faults, visits: seq<string>)
    requires InDomain(t) && Complete(t.vals) && Conforms(m) && Settled(t, m) && Harmless(t, m, retryMax, faults)
    ensures Outcome(t, m, retryMax, faults, visits) == t
  {
    SettledApplies(t, m, retryMax, faults);
    ReleasedWithin(t, m, faults.release, visits);
    SettledSwept(t, m, Released(t, m, faults.release, visits));
  }

  lemma SettledApplies(t: State, m: Manifest, retryMax: nat, faults: Faults)
    requires InDomain(t) && Complete(t.vals) && Conforms(m) && Settled(t, m) && Harmless(t, m, retryMax, faults)
    ensures AfterApplies(t, m, retryMax, faults) == t
  {
    SettledApply(t, m);
    ForcedIdentity(t, TakeoverBody(t, m));
    if EndState.TakeoverReinjects(t, m) {
      ReinjectsByValid(t, m);
      EndState.AcceptedIff(t, m);
      ReinjectionRestores(t, m, NormalBody(t, m), TakeoverBody(t, m));
    } else {
      EndState.TakeoverPassAddsNothingIff(t, m);
      ForcedIdentity(t, NormalBody(t, m));
    }
    StepsOfApplies(t, m, retryMax, faults, NormalBody(t, m), TakeoverBody(t, m));
  }

  lemma StepsOfApplies(t: State, m: Manifest, retryMax: nat, faults: Faults, a: Vals, b: Vals)
    requires a == NormalBody(t, m) && b == TakeoverBody(t, m) && Forced(t, b) == t
    requires Forced(t, a) == t ||
             (Forced(Forced(t, a), b) == t && AnyTakeoverValid(m) && (!faults.takeover || faults.attempts >= retryMax))
    ensures AfterApplies(t, m, retryMax, faults) == t
  {
    var x := if faults.attempts < retryMax then Forced(t, a) else t;
    ForcedTwice(t, x, a, b);
    assert AfterAttempts(t, m, retryMax, faults) == x;
  }

  lemma ForcedTwice(t: State, x: State, a: Vals, b: Vals)
    requires Forced(t, b) == t && (x == t || x == Forced(t, a))
    requires Forced(t, a) == t || Forced(Forced(t, a), b) == t
    ensures Forced(x, b) == t
    ensures Forced(t, a) == t ==> x == t
  {
  }

  lemma ForcedIdentity(t: State, body: Vals)
    requires Applied(t, CONTROLLER, body) == t
    ensures Forced(t, body) == t
  {
  }

  lemma ReinjectionRestores(t: State, m: Manifest, a: Vals, b: Vals)
    requires a == NormalBody(t, m) && b == TakeoverBody(t, m) && AfterTakeover(t, m) == t && m.takeover != []
    requires Patched(Applied(t, CONTROLLER, a), CONTROLLER, b, true).Some? && Patched(t, CONTROLLER, b, true).Some?
    ensures Patched(t, CONTROLLER, a, true).Some? ==> Forced(Forced(t, a), b) == t
    ensures Patched(t, CONTROLLER, a, true).None? ==> Forced(t, a) == t
  {
  }

  lemma ReinjectsByValid(t: State, m: Manifest)
    requires Conforms(m) && EndState.TakeoverReinjects(t, m)
    ensures AnyTakeoverValid(m)
  {
    var p :| p in m.vals && StructTakeover(m, p) && BowedOut(t, m, p);
    assert WfSlot(p) && p.server in ServersOf(m.vals.Keys);
    assert ValidTakeover(m, Ignored.Directive(p.server, p.group));
  }

  /** Nothing is left for a replay to do: no harmless one changes the object, and each of its applies is
      the identity on its own. */
  ghost predicate AtRest(s: System, retryMax: nat) {
    s.last.Some? &&
    (var t, m := s.obj, s.last.value;
     && (forall faults, visits | Harmless(t, m, retryMax, faults) :: Step(s, retryMax, Replayed(faults, visits)) == s)
     && AfterTakeover(t, m) == t && Applied(t, CONTROLLER, TakeoverBody(t, m)) == t
     && (AfterNormal(t, m) == t <==> !EndState.TakeoverReinjects(t, m))
     && forall w | IsLocal(w) :: SweptBy(t, t, m, w) == t)
  }

  /** A replay that is carried out completely, from an object on which nothing flips, leaves the system
      at rest. */
  lemma RestsAfter(s: System, retryMax: nat, faults: Faults, visits: seq<string>)
    requires SystemOk(s) && s.last.Some? && CarriedOut(s.obj, s.last.value) && Clean(faults, retryMax)
    requires VisitsAll(visits, AfterTakeover(s.obj, s.last.value))
    ensures Step(s, retryMax, Replayed(faults, visits)).obj == Result(s.obj, s.last.value)
    ensures !AnyFlips(s.obj, s.last.value) ==> AtRest(Step(s, retryMax, Replayed(faults, visits)), retryMax)
  {
    var m := s.last.value;
    CleanRun(s.obj, m, retryMax, faults, visits);
    if !AnyFlips(s.obj, m) {
      var t := Result(s.obj, m);
      StepStaysOk(s, retryMax, Replayed(faults, visits));
      RunSettles(s.obj, m);
      QuietRun(s.obj, m);
      forall f, v | Harmless(t, m, retryMax, f) ensures Outcome(t, m, retryMax, f, v) == t {
        SettledOutcome(t, m, retryMax, f, v);
      }
    }
  }

  /** The manifest stays one that can be carried out. */
  lemma StaysCarriedOut(s: State, m: Manifest)
    requires InDomain(s) && Conforms(m) && CarriedOut(s, m)
    ensures CarriedOut(Result(s, m), m)
  {
    ResultCovered(s, m);
  }

  /** The loop after an operator's release, or after anything else: one carried-out replay of the last
      manifest brings the system to rest exactly when no required leaf flips, and two always do. */
  lemma ReplaysSettle(events: seq<Event>, retryMax: nat, first: Event, second: Event)
    requires (forall e | e in events :: EventOk(e)) && first.Replayed? && second.Replayed?
    requires Clean(first.faults, retryMax) && Clean(second.faults, retryMax)
    requires var s := Run(EMPTY, retryMax, events); s.last.Some? && CarriedOut(s.obj, s.last.value)
    ensures var s := Run(EMPTY, retryMax, events);
            var once := Step(s, retryMax, first);
            VisitsAll(first.visits, AfterTakeover(s.obj, s.last.value))
            && VisitsAll(second.visits, AfterTakeover(once.obj, s.last.value)) ==>
            && (AtRest(once, retryMax) <==> !AnyFlips(s.obj, s.last.value))
            && AtRest(Step(once, retryMax, second), retryMax)
  {
    HistoryIsOk(retryMax, events);
    SettleFrom(Run(EMPTY, retryMax, events), retryMax, first, second);
  }

  lemma SettleFrom(s: System, retryMax: nat, first: Event, second: Event)
    requires SystemOk(s) && first.Replayed? && second.Replayed?
    requires Clean(first.faults, retryMax) && Clean(second.faults, retryMax)
    requires s.last.Some? && CarriedOut(s.obj, s.last.value)
    ensures var once := Step(s, retryMax, first);
            VisitsAll(first.visits, AfterTakeover(s.obj, s.last.value))
            && VisitsAll(second.visits, AfterTakeover(once.obj, s.last.value)) ==>
            && (AtRest(once, retryMax) <==> !AnyFlips(s.obj, s.last.value))
            && AtRest(Step(once, retryMax, second), retryMax)
  {
    var m, once := s.last.value, Step(s, retryMax, first);
    if VisitsAll(first.visits, AfterTakeover(s.obj, m)) && VisitsAll(second.visits, AfterTakeover(once.obj, m)) {
      RestsAfter(s, retryMax, first.faults, first.visits);
      StepStaysOk(s, retryMax, first);
      StaysCarriedOut(s.obj, m);
      ReplaySettles(s.obj, m);
      RestsAfter(once, retryMax, second.faults, second.visits);
      ReplayIsFixedPointIff(s.obj, m);
      if AtRest(once, retryMax) {
        assert Harmless(once.obj, m, retryMax, second.faults);
        assert Step(once, retryMax, second) == once;
      }
    }
  }

  /** The reclaim loop after a dispatch: after any history, a dispatch and a replay that are carried out
      leave the system at rest, so at most one replay per dispatch changes anything. */
  lemma LoopGoesQuiet(events: seq<Event>, retryMax: nat, sent: Event, replay: Event)
    requires (forall e | e in events :: EventOk(e)) && sent.Dispatch? && replay.Replayed? && EventOk(sent)
    requires Clean(sent.faults, retryMax) && Clean(replay.faults, retryMax)
    requires CarriedOut(Run(EMPTY, retryMax, events).obj, sent.m)
    ensures var s := Run(EMPTY, retryMax, events);
            var dispatched := Step(s, retryMax, sent);
            VisitsAll(sent.visits, AfterTakeover(s.obj, sent.m))
            && VisitsAll(replay.visits, AfterTakeover(dispatched.obj, sent.m)) ==>
            AtRest(Step(dispatched, retryMax, replay), retryMax)
  {
    HistoryIsOk(retryMax, events);
    var s := Run(EMPTY, retryMax, events);
    var told := System(s.obj, Some(sent.m));
    SettleFrom(told, retryMax, Replayed(sent.faults, sent.visits), replay);
    assert Step(told, retryMax, Replayed(sent.faults, sent.visits)) == Step(s, retryMax, sent);
  }
}
