/** The divergence-reporting protocol: deduplication by a stored hash and count, quiet state,
    heartbeat, restarts, lost status writes and wipes of orb's store. */
module Reporting {
  import opened Base
  import Overrides
  import ContentHash

  type Payload = seq<Overrides.OverrideEntry>

  /** What the object's status remembers of the last post. */
  datatype ReportingStatus = ReportingStatus(hash: string, count: Option<nat>)

  /** orb's store, the status on the object, whether the reporter knows a last manifest, the override
      set the object currently yields, and whether any local claim exists at all. */
  datatype World = World(orb: Payload, status: Option<ReportingStatus>, known: bool, current: Payload, claims: bool)

  /** A collision-free digest that is never the empty string. */
  ghost predicate Digest(hash: Payload -> string) {
    (forall x, y :: hash(x) == hash(y) ==> x == y) && forall x :: hash(x) != ""
  }

  function HashOf(hash: Payload -> string, p: Payload): string {
    hash(ContentHash.Sorted(p))
  }

  /** The circumstances of one reconcile: still debounced, the post answered 2xx, the status written. */
  datatype Luck = Luck(debounced: bool, post: bool, write: bool)

  predicate Deduplicated(w: World, hash: Payload -> string) {
    w.status.Some? && w.status.value.hash == HashOf(hash, w.current)
  }

  predicate Quiet(w: World) {
    w.current == [] && w.status.Some? && w.status.value.count == Some(0)
  }

  predicate Posts(w: World, hash: Payload -> string) {
    w.known && !Deduplicated(w, hash) && !Quiet(w)
  }

  function Written(w: World, hash: Payload -> string, ok: bool): World {
    if ok then w.(status := Some(ReportingStatus(HashOf(hash, w.current), Some(|w.current|)))) else w
  }

  /** One reconcile; the flag tells whether it returned without error. */
  function Reconciled(w: World, hash: Payload -> string, luck: Luck): (World, bool) {
    if luck.debounced || !w.known || Deduplicated(w, hash) then (w, true)
    else if Quiet(w) then (Written(w, hash, luck.write), true)
    else if !luck.post then (w, false)
    else (Written(w.(orb := w.current), hash, luck.write), true)
  }

  function Cleared(w: World): World {
    if w.status.Some? then w.(status := Some(w.status.value.(hash := ""))) else w
  }

  /** One heartbeat tick; clear tells whether the hash could be cleared. */
  function Ticked(w: World, hash: Payload -> string, clear: bool, luck: Luck): (World, bool) {
    if !w.claims then (w, true) else Reconciled(if clear then Cleared(w) else w, hash, luck)
  }

  class DivergenceReporter {
    var orb: Payload
    var status: Option<ReportingStatus>
    var known: bool
    var current: Payload
    var claims: bool
    const hash: Payload -> string

    constructor (hash: Payload -> string)
      ensures this.hash == hash && TheWorld() == World([], None, false, [], false)
    {
      this.hash := hash;
      orb, status, known, current, claims := [], None, false, [], false;
    }

    function TheWorld(): World
      reads this
    {
      World(orb, status, known, current, claims)
    }

    method PostToOrb(payload: Payload, up: bool) returns (ok: bool)
      modifies this`orb
      ensures ok == up && orb == if up then payload else old(orb)
    {
      ok := up;
      if up {
        orb := payload;
      }
    }

    method WriteReportingStatus(h: string, count: nat, up: bool) returns (ok: bool)
      modifies this`status
      ensures ok == up && status == if up then Some(ReportingStatus(h, Some(count))) else old(status)
    {
      ok := up;
      if up {
        status := Some(ReportingStatus(h, Some(count)));
      }
    }

    method ClearReportingHash(up: bool)
      modifies this`status
      ensures TheWorld() == if up then Cleared(old(TheWorld())) else old(TheWorld())
    {
      if up && status.Some? && status.value.hash != "" {
        status := Some(status.value.(hash := ""));
      }
    }

    method PayloadHash() returns (h: string)
      ensures h == HashOf(hash, current)
    {
      var sorted := ContentHash.Sorted(current);
      h := hash(sorted);
    }

    method Reconcile(luck: Luck) returns (ok: bool)
      modifies this
      ensures (TheWorld(), ok) == Reconciled(old(TheWorld()), hash, luck)
    {
      ok := true;
      if luck.debounced || !known {
        return;
      }
      var h := PayloadHash();
      if status.Some? && status.value.hash == h {
        return;
      }
      if |current| == 0 && status.Some? && status.value.count.Some? && status.value.count.value == 0 {
        var wrote := WriteReportingStatus(h, 0, luck.write);
        return;
      }
      ok := PostToOrb(current, luck.post);
      if ok {
        var wrote := WriteReportingStatus(h, |current|, luck.write);
      }
    }

    method Tick(clear: bool, luck: Luck) returns (ok: bool)
      modifies this
      ensures (TheWorld(), ok) == Ticked(old(TheWorld()), hash, clear, luck)
    {
      ok := true;
      if claims {
        ClearReportingHash(clear);
        ok := Reconcile(luck);
      }
    }
  }

  // ----- runs

  datatype Event =
    | Reconcile(luck: Luck)
    | Tick(clear: bool, luck: Luck)
    | Restart(loaded: bool)
    | ManifestApplied
    | ObjectChanged(current: Payload, claims: bool)
    | OrbWiped

  function Step(w: World, hash: Payload -> string, e: Event): World {
    match e
    case Reconcile(luck) => Reconciled(w, hash, luck).0
    case Tick(clear, luck) => Ticked(w, hash, clear, luck).0
    case Restart(loaded) => w.(known := loaded)
    case ManifestApplied => w.(known := true)
    case ObjectChanged(current, claims) => w.(current := current, claims := claims)
    case OrbWiped => w.(orb := [])
  }

  function Run(w: World, hash: Payload -> string, events: seq<Event>): World
    decreases |events|
  {
    if events == [] then w else Run(Step(w, hash, events[0]), hash, events[1..])
  }

  /** Before anything was ever posted. */
  function Start(): World {
    World([], None, false, [], false)
  }

  predicate WritesLand(e: Event) {
    match e
    case Reconcile(luck) => luck.write
    case Tick(_, luck) => luck.write
    case _ => true
  }

  /** The status tells the truth about orb. */
  predicate Truthful(w: World, hash: Payload -> string) {
    w.status.Some? ==>
      && (w.status.value.hash != "" ==> w.status.value.hash == HashOf(hash, w.orb))
      && (w.status.value.count.Some? ==> w.status.value.count.value == |w.orb|)
  }

  /** The weaker truth that survives wipes: a stored zero means orb's store is empty. */
  predicate ZeroIsTrue(w: World) {
    w.status.Some? && w.status.value.count == Some(0) ==> w.orb == []
  }

  predicate InSync(w: World) {
    multiset(w.orb) == multiset(w.current)
  }

  lemma SameHashSameSet(hash: Payload -> string, a: Payload, b: Payload)
    requires Digest(hash) && HashOf(hash, a) == HashOf(hash, b)
    ensures multiset(a) == multiset(b)
  {
    ContentHash.SortedIsForm(a);
    ContentHash.SortedIsForm(b);
  }

  // ----- the order of the override set does not matter

  /** The entries are the same, in any order, and their keys tell them apart. */
  ghost predicate Reordered(a: Payload, b: Payload) {
    multiset(a) == multiset(b) && ContentHash.KeysDetermine(a)
  }

  lemma ReorderedHash(hash: Payload -> string, a: Payload, b: Payload)
    requires Reordered(a, b)
    ensures HashOf(hash, a) == HashOf(hash, b)
  {
    ContentHash.SortedIsForm(a);
    ContentHash.SortedIsForm(b);
    ContentHash.CanonicalIff(a);
    assert ContentHash.SortedForm(a, ContentHash.Sorted(b));
  }

  /** A reconcile whose calls succeed, or that found nothing to do, silences every later one on a reordering
      of the same override set: orb and the status stay as they are. */
  lemma ReorderingIsQuiet(w: World, hash: Payload -> string, luck: Luck, b: Payload, claims: bool, later: Luck)
    requires w.known && !luck.debounced && luck.post && luck.write && Reordered(w.current, b)
    ensures var settled := Reconciled(w, hash, luck).0;
            var again := Reconciled(settled.(current := b, claims := claims), hash, later).0;
            again.orb == settled.orb && again.status == settled.status
  {
    ReorderedHash(hash, w.current, b);
  }

  /** The extractor lists the set in some order, and the object is reconciled. */
  predicate OnlyReorders(e: Event, a: Payload) {
    match e
    case Reconcile(_) => true
    case ObjectChanged(b, _) => multiset(b) == multiset(a)
    case _ => false
  }

  /** After any history, once a reconcile told orb and recorded it, any number of reconciles on any orders of
      the same override set post nothing and write nothing. */
  lemma ReorderingsStayQuiet(events: seq<Event>, hash: Payload -> string, luck: Luck, more: seq<Event>)
    requires luck.post && luck.write && !luck.debounced
    requires var w := Run(Start(), hash, events); w.known && ContentHash.KeysDetermine(w.current)
    requires forall e | e in more :: OnlyReorders(e, Run(Start(), hash, events).current)
    ensures var settled := Reconciled(Run(Start(), hash, events), hash, luck).0;
            var t := Run(settled, hash, more);
            t.orb == settled.orb && t.status == settled.status
  {
    var w := Run(Start(), hash, events);
    var settled := Reconciled(w, hash, luck).0;
    assert settled.status.Some? && settled.status.value.hash == HashOf(hash, w.current);
    StaysQuiet(settled, hash, w.current, more);
  }

  lemma {:induction false} StaysQuiet(w: World, hash: Payload -> string, a: Payload, more: seq<Event>)
    requires w.known && w.status.Some? && w.status.value.hash == HashOf(hash, a)
    requires Reordered(a, w.current) && forall e | e in more :: OnlyReorders(e, a)
    ensures Run(w, hash, more).orb == w.orb && Run(w, hash, more).status == w.status
    decreases |more|
  {
    if more != [] {
      assert more[0] in more;
      ReorderedHash(hash, a, w.current);
      StaysQuiet(Step(w, hash, more[0]), hash, a, more[1..]);
    }
  }

  /** Over any run with restarts, failed posts and heartbeats, but no lost status write and no wipe,
      the status tells the truth about orb's store. */
  lemma {:induction false} StatusStaysTruthful(w: World, hash: Payload -> string, events: seq<Event>)
    requires Digest(hash) && Truthful(w, hash)
    requires forall e | e in events :: WritesLand(e) && !e.OrbWiped?
    ensures Truthful(Run(w, hash, events), hash)
    decreases |events|
  {
    if events != [] {
      var e := events[0];
      assert e in events;
      assert Truthful(Step(w, hash, e), hash) by {
        ContentHash.SortedIsForm([]);
        match e {
          case Reconcile(luck) =>
            TruthfulReconcile(w, hash, luck);
          case Tick(clear, luck) =>
            TruthfulReconcile(if clear then Cleared(w) else w, hash, luck);
          case _ =>
        }
      }
      StatusStaysTruthful(Step(w, hash, e), hash, events[1..]);
    }
  }

  lemma TruthfulReconcile(w: World, hash: Payload -> string, luck: Luck)
    requires Digest(hash) && Truthful(w, hash) && luck.write
    ensures Truthful(Reconciled(w, hash, luck).0, hash)
  {
    if Quiet(w) {
      assert w.orb == [];
    }
  }

  /** So every undebounced reconcile with a known manifest that returns without error leaves orb's view
      equal to the current override set. */
  lemma ReconcileSyncs(events: seq<Event>, hash: Payload -> string, luck: Luck)
    requires Digest(hash) && forall e | e in events :: WritesLand(e) && !e.OrbWiped?
    requires var w := Run(Start(), hash, events); w.known && !luck.debounced && Reconciled(w, hash, luck).1
    ensures InSync(Reconciled(Run(Start(), hash, events), hash, luck).0)
  {
    StatusStaysTruthful(Start(), hash, events);
    var w := Run(Start(), hash, events);
    if Deduplicated(w, hash) {
      SameHashSameSet(hash, w.orb, w.current);
    } else if Quiet(w) {
      assert w.orb == [];
    }
  }

  /** Without a manifest no reconcile and no tick changes orb's view. */
  lemma NoManifestNoChange(w: World, hash: Payload -> string, luck: Luck, clear: bool)
    requires !w.known
    ensures Reconciled(w, hash, luck) == (w, true)
    ensures Ticked(w, hash, clear, luck).0.orb == w.orb
  {
  }

  lemma {:induction false} ZeroStaysTrue(w: World, hash: Payload -> string, events: seq<Event>)
    requires ZeroIsTrue(w) && forall e | e in events :: WritesLand(e)
    ensures ZeroIsTrue(Run(w, hash, events))
    decreases |events|
  {
    if events != [] {
      assert events[0] in events;
      ZeroStaysTrue(Step(w, hash, events[0]), hash, events[1..]);
    }
  }

  /** Heartbeat repair: after any history, wipes and lost writes included, a tick whose calls succeed
      brings a non-empty override set to orb; an empty one too if no status write was ever lost. */
  lemma HeartbeatRepairs(events: seq<Event>, hash: Payload -> string)
    requires Digest(hash)
    requires var w := Run(Start(), hash, events); w.known && w.claims
    ensures var w := Run(Start(), hash, events);
            w.current != [] || (forall e | e in events :: WritesLand(e)) ==>
            InSync(Ticked(w, hash, true, Luck(false, true, true)).0)
  {
    var w := Run(Start(), hash, events);
    if w.current == [] && forall e | e in events :: WritesLand(e) {
      ZeroStaysTrue(Start(), hash, events);
    }
    assert HashOf(hash, w.current) != "";
  }

  /** When the promise "the next reconcile re-posts" holds after a post whose status write was lost, from any
      state at all: the status is as before the post, so orb ends in sync exactly when there is none, or
      neither its hash nor a stored zero matches the next override set, or that set is what orb was told. */
  lemma LostWriteIsRepairedIff(w: World, hash: Payload -> string, next: Payload)
    requires Digest(hash) && Posts(w, hash)
    ensures var lost := Reconciled(w, hash, Luck(false, true, false)).0;
            var after := Reconciled(lost.(current := next), hash, Luck(false, true, true)).0;
            InSync(after) <==>
            || w.status.None?
            || (w.status.value.hash != HashOf(hash, next) && !(next == [] && w.status.value.count == Some(0)))
            || multiset(next) == multiset(w.current)
  {
  }

  lemma RunNext(w: World, hash: Payload -> string, e: Event, rest: seq<Event>)
    ensures Run(w, hash, [e] + rest) == Run(Step(w, hash, e), hash, rest)
  {
    assert ([e] + rest)[1..] == rest;
  }

  const LANDS := Luck(false, true, true)
  const LOSES := Luck(false, true, false)

  /** The world in which orb shows one set, the status records another, and a third is current. */
  function Told(hash: Payload -> string, orb: Payload, known: Payload, current: Payload): World {
    World(orb, Some(ReportingStatus(HashOf(hash, known), Some(|known|))), true, current, current != [])
  }

  /** A post whose status write is lost moves orb's view and leaves the status. */
  lemma LostPost(hash: Payload -> string, orb: Payload, known: Payload, next: Payload)
    requires Digest(hash) && multiset(known) != multiset(next) && next != []
    ensures Step(Told(hash, orb, known, next), hash, Reconcile(LOSES)) == Told(hash, next, known, next)
  {
    if HashOf(hash, known) == HashOf(hash, next) {
      SameHashSameSet(hash, known, next);
    }
  }

  /** Once the override set is back to what the status describes, no reconcile posts. */
  lemma StaleStatusStays(hash: Payload -> string, orb: Payload, known: Payload)
    ensures Reconciled(Told(hash, orb, known, known), hash, LANDS).0 == Told(hash, orb, known, known)
  {
  }

  /** Events that post p for the first time. */
  function Posted(p: Payload): seq<Event> {
    [ManifestApplied, ObjectChanged(p, p != []), Reconcile(LANDS)]
  }

  lemma PostedFirst(hash: Payload -> string, p: Payload, rest: seq<Event>)
    ensures Run(Start(), hash, Posted(p) + rest) == Run(Told(hash, p, p, p), hash, rest)
  {
    var e1, e2, e3 := ManifestApplied, ObjectChanged(p, p != []), Reconcile(LANDS);
    assert Posted(p) + rest == [e1] + ([e2] + ([e3] + rest));
    RunNext(Start(), hash, e1, [e2] + ([e3] + rest));
    RunNext(Start().(known := true), hash, e2, [e3] + rest);
    RunNext(Start().(known := true, current := p, claims := p != []), hash, e3, rest);
  }

  /** A concrete run on which it fails: an override is posted, its record is lost, the override is taken
      back, and orb keeps showing it. */
  lemma LostWriteExample(hash: Payload -> string, x: Overrides.OverrideEntry)
    requires Digest(hash)
    ensures var w := Run(Start(), hash, Posted([]) + [ObjectChanged([x], true), Reconcile(LOSES), ObjectChanged([], false)]);
            w == Told(hash, [x], [], []) && Reconciled(w, hash, LANDS).0 == w
  {
    var e1, e2, e3 := ObjectChanged([x], true), Reconcile(LOSES), ObjectChanged([], false);
    assert [e1, e2, e3] == [e1] + ([e2] + ([e3] + []));
    PostedFirst(hash, [], [e1, e2, e3]);
    assert x in multiset([x]);
    RunNext(Told(hash, [], [], []), hash, e1, [e2] + ([e3] + []));
    LostPost(hash, [], [], [x]);
    RunNext(Told(hash, [], [], [x]), hash, e2, [e3] + []);
    RunNext(Told(hash, [x], [], [x]), hash, e3, []);
    StaleStatusStays(hash, [x], []);
  }

  /** The same after a heartbeat cleared the hash: the stored zero alone silences the reporter, which then
      records the empty set while orb keeps showing the override. */
  lemma LostWriteAfterHeartbeat(hash: Payload -> string, x: Overrides.OverrideEntry)
    requires Digest(hash)
    ensures var w := Run(Start(), hash,
                         Posted([]) + [ObjectChanged([x], true), Tick(true, LOSES), ObjectChanged([], false), Reconcile(LANDS)]);
            w == Told(hash, [x], [], []) && Reconciled(w, hash, LANDS).0 == w
  {
    var e1, e2, e3, e4 := ObjectChanged([x], true), Tick(true, LOSES), ObjectChanged([], false), Reconcile(LANDS);
    assert [e1, e2, e3, e4] == [e1] + ([e2] + ([e3] + ([e4] + [])));
    PostedFirst(hash, [], [e1, e2, e3, e4]);
    RunNext(Told(hash, [], [], []), hash, e1, [e2] + ([e3] + ([e4] + [])));
    var cleared := World([x], Some(ReportingStatus("", Some(0))), true, [x], true);
    assert Step(Told(hash, [], [], [x]), hash, e2) == cleared;
    RunNext(Told(hash, [], [], [x]), hash, e2, [e3] + ([e4] + []));
    RunNext(cleared, hash, e3, [e4] + []);
    RunNext(cleared.(current := [], claims := false), hash, e4, []);
    StaleStatusStays(hash, [x], []);
  }

  /** The same after two lost writes: the status is stale by two posts, and the first set comes back. */
  lemma TwoLostWrites(hash: Payload -> string, x: Overrides.OverrideEntry, y: Overrides.OverrideEntry, z: Overrides.OverrideEntry)
    requires Digest(hash) && x != y && x != z
    ensures var w := Run(Start(), hash, Posted([x]) + [ObjectChanged([y], true), Reconcile(LOSES), ObjectChanged([z], true),
                                                       Reconcile(LOSES), ObjectChanged([x], true)]);
            w == Told(hash, [z], [x], [x]) && Reconciled(w, hash, LANDS).0 == w && !InSync(w)
  {
    var e1, e2, e3, e4, e5 := ObjectChanged([y], true), Reconcile(LOSES), ObjectChanged([z], true), Reconcile(LOSES), ObjectChanged([x], true);
    assert [e1, e2, e3, e4, e5] == [e1] + ([e2] + ([e3] + ([e4] + ([e5] + []))));
    PostedFirst(hash, [x], [e1, e2, e3, e4, e5]);
    assert x in multiset([x]) && x !in multiset([y]) && x !in multiset([z]);
    RunNext(Told(hash, [x], [x], [x]), hash, e1, [e2] + ([e3] + ([e4] + ([e5] + []))));
    LostPost(hash, [x], [x], [y]);
    RunNext(Told(hash, [x], [x], [y]), hash, e2, [e3] + ([e4] + ([e5] + [])));
    RunNext(Told(hash, [y], [x], [y]), hash, e3, [e4] + ([e5] + []));
    LostPost(hash, [y], [x], [z]);
    RunNext(Told(hash, [y], [x], [z]), hash, e4, [e5] + []);
    RunNext(Told(hash, [z], [x], [z]), hash, e5, []);
    StaleStatusStays(hash, [z], [x]);
  }
}
