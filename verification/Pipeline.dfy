/** One run of the consume pipeline, leaf by leaf: what the controller applies, what the takeover
    pass applies, and what the release sweep re-applies as each local manager. */
module Pipeline {
  import opened Base
  import opened Schema
  import opened ServerSideApply
  import Trees
  import BowOut
  import Ignored

  datatype Manifest = Manifest(datacenter: string, vals: Vals, takeover: seq<Ignored.Directive>, ignored: seq<Ignored.Directive>)

  /** Leaves that are not pointers in the spec types: an absent one decodes as the empty string. */
  predicate Required(p: Slot) {
    p == TagSlot(p.server) || p == IdracIdSlot(p.server)
  }

  /** A manifest decoded from the typed spec: every leaf that is no pointer is there. */
  ghost predicate Conforms(m: Manifest) {
    && WfVals(m.vals)
    && (forall p | p in m.vals :: TagSlot(p.server) in m.vals && IdracIdSlot(p.server) in m.vals)
    && forall p | p in m.vals && p.group == MAINTENANCE :: EnabledSlot(p.server) in m.vals
  }

  predicate ServerTag(f: string) {
    f == "orbId" || f == "serviceTag" || f == "hostname" || f == "oobIP" || IsGroup(f)
  }

  predicate IdracTag(f: string) {
    || f == "orbId" || f == "firmwareVersion" || f == "sshEnabled" || f == "ipmiEnabled" || f == "lockdownModeEnabled"
    || f == "osToIdracPassThroughEnabled" || f == "usbManagementPortEnabled" || f == "dhcpEnabled" || f == "racadmEnabled"
  }

  /** A takeover entry the pipeline can carry out: a server of the manifest and a field of the types. */
  predicate ValidTakeover(m: Manifest, t: Ignored.Directive) {
    t.server in ServersOf(m.vals.Keys) && (ServerTag(t.field) || IdracTag(t.field))
  }

  predicate AllTakeoversValid(m: Manifest) {
    forall t | t in m.takeover :: ValidTakeover(m, t)
  }

  /** Takeover entries name leaves, not a whole nested struct. */
  predicate LeafTakeovers(m: Manifest) {
    forall t | t in m.takeover :: !IsGroup(t.field)
  }

  predicate IsTakeover(m: Manifest, p: Slot) {
    Ignored.Directive(p.server, p.field) in m.takeover
  }

  predicate LocallyClaimed(s: State, p: Slot) {
    exists w | w in s.claims :: BowOut.IsLocal(w) && p in s.claims[w]
  }

  /** The leaf rule of the bow-out. */
  predicate BowedOut(s: State, m: Manifest, p: Slot) {
    var key := BowOut.TakeoverKey(p.server, p.field);
    && p in m.vals && p != IdSlot(p.server)
    && LocallyClaimed(s, p)
    && key !in Ignored.DirectiveKeys(m.takeover)
    && (key in Ignored.DirectiveKeys(m.ignored) || Get(s.vals, p) != Some(m.vals[p]))
  }

  /** The body of the normal apply: the intent without the bowed-out leaves, required leaves zeroed. */
  function NormalBody(s: State, m: Manifest): Vals {
    map p | p in m.vals && (!BowedOut(s, m, p) || Required(p)) :: if BowedOut(s, m, p) then Trees.Str("") else m.vals[p]
  }

  predicate StructTakeover(m: Manifest, p: Slot) {
    p.group != "" && Ignored.Directive(p.server, p.group) in m.takeover
  }

  /** The body of the takeover apply: the normal body with every takeover target set to its intent. */
  function TakeoverBody(s: State, m: Manifest): Vals {
    map p | p in m.vals && (StructTakeover(m, p) || p in NormalBody(s, m)) ::
      if StructTakeover(m, p) then m.vals[p] else NormalBody(s, m)[p]
  }

  function AfterNormal(s: State, m: Manifest): State {
    Applied(s, CONTROLLER, NormalBody(s, m))
  }

  function AfterTakeover(s: State, m: Manifest): State {
    if m.takeover == [] then AfterNormal(s, m) else Applied(AfterNormal(s, m), CONTROLLER, TakeoverBody(s, m))
  }

  /** A claim the sweep keeps: not a takeover target, not the identity of an entry. */
  predicate Meaningful(m: Manifest, p: Slot) {
    p != IdSlot(p.server) && p != TagSlot(p.server) && !IsTakeover(m, p)
  }

  function Kept(m: Manifest, slots: set<Slot>): set<Slot> {
    (set p | p in slots && Meaningful(m, p)) + (set p | p in slots && Meaningful(m, p) :: IdSlot(p.server))
  }

  /** What the sweep re-applies as manager w: its kept claims at the values of the snapshot. */
  function SweepBody(snapshot: State, m: Manifest, w: string): Vals {
    map p | p in Kept(m, Owned(snapshot, w)) && p in snapshot.vals :: snapshot.vals[p]
  }

  function SweptBy(s: State, snapshot: State, m: Manifest, w: string): State {
    var answer := Patched(s, w, SweepBody(snapshot, m, w), false);
    if answer.Some? then answer.value else s
  }

  /** The sweep over the given managers in turn, all bodies built from the object it starts with. */
  function Sweep(s: State, m: Manifest, order: seq<string>): State {
    if order == [] then s else SweptBy(Sweep(s, m, order[..|order| - 1]), s, m, order[|order| - 1])
  }

  /** The owners once the managers in done have been swept. */
  function OwnedSwept(s: State, m: Manifest, done: set<string>, w: string): set<Slot> {
    if w in done then Kept(m, Owned(s, w)) else Owned(s, w)
  }

  predicate StillOwned(s: State, m: Manifest, done: set<string>, p: Slot) {
    exists w | w in s.claims :: p in OwnedSwept(s, m, done, w)
  }

  function Swept(s: State, m: Manifest, done: set<string>): State {
    State(map p | p in s.vals && StillOwned(s, m, done, p) :: s.vals[p],
          map w | w in s.claims && OwnedSwept(s, m, done, w) != {} :: OwnedSwept(s, m, done, w))
  }

  function Locals(s: State): set<string> {
    set w | w in s.claims && BowOut.IsLocal(w)
  }

  /** The object after a run that gets past its applies and whose sweep releases the managers in done. */
  function After(s: State, m: Manifest, done: set<string>): State {
    Swept(AfterTakeover(s, m), m, done)
  }

  /** The local managers a sweep visits. */
  function Everyone(s: State, m: Manifest): set<string> {
    Locals(AfterTakeover(s, m))
  }

  /** The object after a run of the pipeline in which every API call is accepted. */
  function Result(s: State, m: Manifest): State {
    After(s, m, Everyone(s, m))
  }

  predicate OnlyLocal(done: set<string>) {
    forall w | w in done :: BowOut.IsLocal(w)
  }

  /** The local managers whose release is accepted when they are visited in the given order: a release
      is lost when the call fails, and refused when it would leave an entry without a required leaf. */
  function Released(s: State, m: Manifest, down: set<string>, order: seq<string>): set<string> {
    if order == [] then {} else ReleasedNext(s, m, down, Released(s, m, down, order[..|order| - 1]), order[|order| - 1])
  }

  function ReleasedNext(s: State, m: Manifest, down: set<string>, done: set<string>, w: string): set<string> {
    if w in Locals(s) && w !in down && w !in done && Complete(Swept(s, m, done + {w}).vals) then done + {w} else done
  }

  /** The leaves a dispatch leaves on the object: those of the manifest and those a local manager holds. */
  predicate Present(s: State, m: Manifest, p: Slot) {
    p in m.vals || LocallyClaimed(s, p)
  }

  /** Every leaf a dispatch leaves has its required leaves beside it. */
  ghost predicate Accepts(s: State, m: Manifest) {
    forall p, q | Present(s, m, p) && q in Needs(p) :: Present(s, m, q)
  }

  /** The manifest has every server a local manager claims, and its servers have what the schema requires. */
  ghost predicate Covers(m: Manifest, s: State) {
    && (forall p | p in m.vals :: HostnameSlot(p.server) in m.vals && OobIpSlot(p.server) in m.vals)
    && forall w, p | w in s.claims && BowOut.IsLocal(w) && p in s.claims[w] :: IdSlot(p.server) in m.vals
  }

  /** The writers and claims the pipeline is built for: the controller and local managers, the
      latter claiming server leaves and iDRAC leaves only. */
  ghost predicate InDomain(s: State) {
    && WfState(s)
    && (forall w | w in s.claims :: w == CONTROLLER || BowOut.IsLocal(w))
    && (forall w, p | w in s.claims && BowOut.IsLocal(w) && p in s.claims[w] :: p.group == "" || p.group == IDRAC)
  }

  // ----- the sweep

  lemma KeptSubset(m: Manifest, slots: set<Slot>)
    requires forall p | p in slots :: IdSlot(p.server) in slots
    ensures Kept(m, slots) <= slots
    ensures Kept(m, Kept(m, slots)) == Kept(m, slots)
  {
    assert forall p | p in slots && Meaningful(m, p) :: p in Kept(m, slots);
  }

  lemma SweptOwned(s: State, m: Manifest, done: set<string>, w: string)
    ensures Owned(Swept(s, m, done), w) == OwnedSwept(s, m, done, w)
  {
    if w !in s.claims {
      assert Kept(m, {}) == {};
    }
  }

  lemma SweptVals(s: State, m: Manifest, done: set<string>, p: Slot)
    ensures Get(Swept(s, m, done).vals, p) ==
            if exists w :: p in OwnedSwept(s, m, done, w) then Get(s.vals, p) else None
  {
    StillOwnedMeans(s, m, done, p);
  }

  lemma StillOwnedMeans(s: State, m: Manifest, done: set<string>, p: Slot)
    ensures StillOwned(s, m, done, p) <==> exists w :: p in OwnedSwept(s, m, done, w)
  {
    forall w | w !in s.claims ensures OwnedSwept(s, m, done, w) == {} {
    }
  }

  /** a is s once the managers in done have given up what they do not keep. */
  ghost predicate IsSwept(s: State, m: Manifest, done: set<string>, a: State) {
    && (forall o | o in a.claims :: a.claims[o] != {})
    && (forall o :: Owned(a, o) == OwnedSwept(s, m, done, o))
    && (forall p :: Get(a.vals, p) == if HasOwner(a, p) then Get(s.vals, p) else None)
  }

  /** One step of the sweep never conflicts and changes no value that keeps an owner. It releases exactly
      what it omits, unless an entry would lose a required leaf: then it is refused and changes nothing. */
  lemma SweepStep(s: State, m: Manifest, done: set<string>, w: string)
    requires WfState(s) && w in s.claims && w !in done
    ensures !Conflicts(Swept(s, m, done), w, SweepBody(s, m, w))
    ensures SweptBy(Swept(s, m, done), s, m, w) ==
            Swept(s, m, if Complete(Swept(s, m, done + {w}).vals) then done + {w} else done)
  {
    SweptFacts(s, m, done);
    SweptFacts(s, m, done + {w});
    SweptBodyFacts(s, m, w);
    SweepStepApplied(s, m, done, w, Swept(s, m, done), Swept(s, m, done + {w}), SweepBody(s, m, w));
  }

  lemma SweepStepApplied(s: State, m: Manifest, done: set<string>, w: string, a: State, b: State, body: Vals)
    requires w !in done && IsSwept(s, m, done, a) && IsSwept(s, m, done + {w}, b)
    requires body.Keys == Kept(m, Owned(s, w)) && body.Keys <= Owned(s, w)
    requires forall p | p in body :: p in s.vals && body[p] == s.vals[p]
    ensures !Conflicts(a, w, body) && Applied(a, w, body) == b
  {
    assert OwnedSwept(s, m, done, w) == Owned(s, w) && OwnedSwept(s, m, done + {w}, w) == body.Keys;
    forall o | o != w ensures Owned(b, o) == Owned(a, o) {
      assert OwnedSwept(s, m, done + {w}, o) == OwnedSwept(s, m, done, o);
    }
    ShrinkStep(s, a, b, w, body);
  }

  lemma ShrinkStep(s: State, a: State, b: State, w: string, body: Vals)
    requires forall o | o in a.claims :: a.claims[o] != {}
    requires forall o | o in b.claims :: b.claims[o] != {}
    requires forall p :: Get(a.vals, p) == if HasOwner(a, p) then Get(s.vals, p) else None
    requires forall p :: Get(b.vals, p) == if HasOwner(b, p) then Get(s.vals, p) else None
    requires body.Keys <= Owned(a, w) && Owned(b, w) == body.Keys
    requires forall o | o != w :: Owned(b, o) == Owned(a, o)
    requires forall p | p in body :: p in s.vals && body[p] == s.vals[p]
    ensures !Conflicts(a, w, body) && Applied(a, w, body) == b
  {
    forall p ensures Get(Applied(a, w, body).vals, p) == Get(b.vals, p) {
      SweepStepVals(s, a, b, w, body, p);
    }
    forall o ensures Owned(Applied(a, w, body), o) == Owned(b, o) {
      SweepStepOwned(s, a, w, body, o);
    }
    SweepStepOwned(s, a, w, body, w);
    SameState(Applied(a, w, body), b);
  }

  lemma SweptFacts(s: State, m: Manifest, done: set<string>)
    ensures IsSwept(s, m, done, Swept(s, m, done))
  {
    forall p ensures Get(Swept(s, m, done).vals, p) == (if HasOwner(Swept(s, m, done), p) then Get(s.vals, p) else None) {
      SweptReads(s, m, done, p);
    }
    forall o ensures Owned(Swept(s, m, done), o) == OwnedSwept(s, m, done, o) {
      SweptOwned(s, m, done, o);
    }
  }

  lemma SweptBodyFacts(s: State, m: Manifest, w: string)
    requires WfState(s)
    ensures SweepBody(s, m, w).Keys == Kept(m, Owned(s, w)) <= Owned(s, w)
    ensures forall p | p in SweepBody(s, m, w) :: p in s.vals && SweepBody(s, m, w)[p] == s.vals[p]
  {
    KeptSubset(m, Owned(s, w));
  }

  lemma SweptReads(s: State, m: Manifest, done: set<string>, p: Slot)
    ensures Get(Swept(s, m, done).vals, p) == if HasOwner(Swept(s, m, done), p) then Get(s.vals, p) else None
  {
    SweptVals(s, m, done, p);
    forall w ensures Owned(Swept(s, m, done), w) == OwnedSwept(s, m, done, w) {
      SweptOwned(s, m, done, w);
    }
  }

  /** Applying w's shrunken claims at current values leaves every value that still has an owner. */
  lemma SweepStepVals(s: State, a: State, b: State, w: string, body: Vals, p: Slot)
    requires body.Keys <= Owned(a, w) && Owned(b, w) == body.Keys
    requires forall o | o != w :: Owned(b, o) == Owned(a, o)
    requires forall q | q in body :: q in s.vals && body[q] == s.vals[q]
    requires Get(a.vals, p) == if HasOwner(a, p) then Get(s.vals, p) else None
    requires Get(b.vals, p) == if HasOwner(b, p) then Get(s.vals, p) else None
    ensures Get(Applied(a, w, body).vals, p) == Get(b.vals, p)
  {
    AppliedVals(a, w, body, p);
    OtherOwner(a, w, p);
    if p in body {
      assert p in Owned(b, w);
    } else if OwnedByOther(a, w, p) {
      var o :| o != w && p in Owned(a, o);
      assert p in Owned(b, o);
    } else {
      assert !HasOwner(b, p);
    }
  }

  lemma SweepStepOwned(s: State, a: State, w: string, body: Vals, o: string)
    requires forall p | p in body :: p in s.vals && body[p] == s.vals[p]
    requires forall p :: Get(a.vals, p) == if HasOwner(a, p) then Get(s.vals, p) else None
    ensures Owned(Applied(a, w, body), o) == if o == w then body.Keys else Owned(a, o)
    ensures !Conflicts(a, w, body)
  {
    AppliedOwned(a, w, body, o);
    forall p ensures !Changes(a, body, p) {
      assert Get(a.vals, p) == if HasOwner(a, p) then Get(s.vals, p) else None;
    }
  }

  lemma {:induction false} ReleasedWithin(s: State, m: Manifest, down: set<string>, order: seq<string>)
    ensures Released(s, m, down, order) <= Locals(s) - down
    ensures forall w | w in Released(s, m, down, order) :: w in order
  {
    if order != [] {
      ReleasedWithin(s, m, down, order[..|order| - 1]);
    }
  }

  /** What the sweep leaves is complete when what it started with was. */
  lemma {:induction false} ReleasedComplete(s: State, m: Manifest, down: set<string>, order: seq<string>)
    requires WfState(s) && Complete(s.vals)
    ensures Complete(Swept(s, m, Released(s, m, down, order)).vals)
  {
    if order == [] {
      NothingSwept(s, m);
    } else {
      ReleasedComplete(s, m, down, order[..|order| - 1]);
    }
  }

  /** When no release would take away a required leaf, every visited manager is released. */
  lemma {:induction false} AllReleased(s: State, m: Manifest, down: set<string>, order: seq<string>)
    requires forall done | done <= Locals(s) :: Complete(Swept(s, m, done).vals)
    ensures Released(s, m, down, order) == (set w | w in order && w in Locals(s)) - down
  {
    if order != [] {
      var init, w := order[..|order| - 1], order[|order| - 1];
      AllReleased(s, m, down, init);
      assert order == init + [w];
      if w in Locals(s) {
        assert Released(s, m, down, init) + {w} <= Locals(s);
      }
    }
  }

  lemma {:induction false} SweepReaches(s: State, m: Manifest, order: seq<string>)
    requires WfState(s) && Distinct(order) && forall w | w in order :: w in Locals(s)
    ensures Sweep(s, m, order) == Swept(s, m, Released(s, m, {}, order))
  {
    if order == [] {
      NothingSwept(s, m);
    } else {
      var init, w := order[..|order| - 1], order[|order| - 1];
      SweepReaches(s, m, init);
      ReleasedWithin(s, m, {}, init);
      assert w in order && w !in init;
      SweepStep(s, m, Released(s, m, {}, init), w);
    }
  }

  lemma NothingSwept(s: State, m: Manifest)
    requires WfState(s)
    ensures Swept(s, m, {}) == s
  {
    forall p ensures Get(Swept(s, m, {}).vals, p) == Get(s.vals, p) {
      SweptVals(s, m, {}, p);
      if p in s.vals {
        assert HasOwner(s, p);
        var w :| p in Owned(s, w);
        assert p in OwnedSwept(s, m, {}, w);
      }
    }
    SameLookups(Swept(s, m, {}).vals, s.vals);
    forall w ensures Get(Swept(s, m, {}).claims, w) == Get(s.claims, w) {
    }
    SameLookups(Swept(s, m, {}).claims, s.claims);
  }

  /** The release sweep: whatever order the local managers are visited in, no apply conflicts, and the
      object ends as Swept says for the managers whose release is accepted. When no release can take
      away a required leaf, these are all of them, so the order does not matter. */
  lemma SweepIsSafe(s: State, m: Manifest, order: seq<string>)
    requires WfState(s) && Distinct(order) && forall w :: w in order <==> w in Locals(s)
    ensures Sweep(s, m, order) == Swept(s, m, Released(s, m, {}, order))
    ensures (forall done | done <= Locals(s) :: Complete(Swept(s, m, done).vals)) ==> Sweep(s, m, order) == Swept(s, m, Locals(s))
  {
    SweepReaches(s, m, order);
    if forall done | done <= Locals(s) :: Complete(Swept(s, m, done).vals) {
      AllReleased(s, m, {}, order);
      assert (set w | w in order && w in Locals(s)) - {} == Locals(s);
    }
  }
}
