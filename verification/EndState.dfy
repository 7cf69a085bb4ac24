/** What a run leaves, leaf by leaf, and which dispatches the API server accepts. */
module EndState {
  import opened Base
  import opened BowOut
  import opened Schema
  import opened ServerSideApply
  import opened Pipeline
  import Ignored
  import Trees

  lemma ControllerIsNotLocal()
    ensures !IsLocal(CONTROLLER)
  {
    assert "local:"[0] == 'l' && CONTROLLER[0] == 'c';
  }

  lemma LocallyClaimedMeans(s: State, p: Slot)
    ensures LocallyClaimed(s, p) <==> exists w :: IsLocal(w) && p in Owned(s, w)
  {
    if LocallyClaimed(s, p) {
      var w :| w in s.claims && IsLocal(w) && p in s.claims[w];
      assert p in Owned(s, w);
    }
  }

  // ----- the takeover pass

  /** Some leaf below a takeover entry for a whole nested struct was bowed out with another value. */
  predicate TakeoverReinjects(s: State, m: Manifest) {
    exists p | p in m.vals :: StructTakeover(m, p) && BowedOut(s, m, p) && !(Required(p) && m.vals[p] == Trees.Str(""))
  }

  /** The takeover body is the normal body, unless an entry for a whole struct covers a bowed-out leaf. */
  lemma BodiesAgreeIff(s: State, m: Manifest)
    requires Conforms(m)
    ensures TakeoverBody(s, m) == NormalBody(s, m) <==> !TakeoverReinjects(s, m)
  {
    if TakeoverReinjects(s, m) {
      var p :| p in m.vals && StructTakeover(m, p) && BowedOut(s, m, p) && !(Required(p) && m.vals[p] == Trees.Str(""));
      assert Get(TakeoverBody(s, m), p) != Get(NormalBody(s, m), p);
    } else {
      SameLookups(TakeoverBody(s, m), NormalBody(s, m));
    }
  }

  /** For leaf-level takeover entries the takeover pass applies the same body again, so it reaches
      nothing the normal apply did not reach, and reaches all of it when the normal apply failed. */
  lemma TakeoverPassAddsNothing(s: State, m: Manifest)
    requires Conforms(m) && LeafTakeovers(m)
    ensures TakeoverBody(s, m) == NormalBody(s, m)
    ensures AfterTakeover(s, m) == AfterNormal(s, m)
    ensures Applied(s, CONTROLLER, TakeoverBody(s, m)) == AfterNormal(s, m)
  {
    forall p | p in m.vals ensures !StructTakeover(m, p) {
      assert WfSlot(p);
    }
    BodiesAgreeIff(s, m);
    ReapplyIsIdentity(s, CONTROLLER, NormalBody(s, m));
  }

  /** For any takeover list: the takeover apply changes something exactly when an entry names a whole
      struct that holds a bowed-out leaf, because the bow-out consults the leaf's own key only. */
  lemma TakeoverPassAddsNothingIff(s: State, m: Manifest)
    requires Conforms(m)
    ensures AfterTakeover(s, m) == AfterNormal(s, m) <==> !TakeoverReinjects(s, m)
  {
    BodiesAgreeIff(s, m);
    if TakeoverReinjects(s, m) {
      var p :| p in m.vals && StructTakeover(m, p) && BowedOut(s, m, p) && !(Required(p) && m.vals[p] == Trees.Str(""));
      var a := AfterNormal(s, m);
      AppliedVals(s, CONTROLLER, NormalBody(s, m), p);
      AppliedVals(a, CONTROLLER, TakeoverBody(s, m), p);
      AppliedOwned(s, CONTROLLER, NormalBody(s, m), CONTROLLER);
      AppliedOwned(a, CONTROLLER, TakeoverBody(s, m), CONTROLLER);
    } else {
      ReapplyIsIdentity(s, CONTROLLER, NormalBody(s, m));
    }
  }

  lemma NoTakeoverSameBody(s: State, m: Manifest)
    requires m.takeover == []
    ensures TakeoverBody(s, m) == NormalBody(s, m)
  {
    SameLookups(TakeoverBody(s, m), NormalBody(s, m));
  }

  /** Neither forced apply changes p. */
  predicate Untouched(s: State, m: Manifest, p: Slot) {
    !Changes(s, NormalBody(s, m), p) && !Changes(s, TakeoverBody(s, m), p)
  }

  /** The claims manager w keeps through both forced applies. */
  function NotEvicted(s: State, m: Manifest, w: string): set<Slot> {
    set p | p in Owned(s, w) && Untouched(s, m, p)
  }

  lemma BodiesWf(s: State, m: Manifest)
    requires Conforms(m)
    ensures WfVals(NormalBody(s, m)) && WfVals(TakeoverBody(s, m))
    ensures NormalBody(s, m).Keys <= TakeoverBody(s, m).Keys <= m.vals.Keys
  {
  }

  /** The two applies in a row; without takeover entries the second one is the identity. */
  lemma BothApplies(s: State, m: Manifest)
    ensures AfterTakeover(s, m) == Applied(AfterNormal(s, m), CONTROLLER, TakeoverBody(s, m))
  {
    if m.takeover == [] {
      NoTakeoverSameBody(s, m);
      ReapplyIsIdentity(s, CONTROLLER, NormalBody(s, m));
    }
  }

  lemma AppliesOwned(s: State, m: Manifest, w: string)
    requires WfState(s) && Conforms(m)
    ensures Owned(AfterTakeover(s, m), w) == if w == CONTROLLER then TakeoverBody(s, m).Keys else NotEvicted(s, m, w)
  {
    TwoAppliesOwned(s, NormalBody(s, m), TakeoverBody(s, m), w);
    BothApplies(s, m);
  }

  /** Two forced applies in a row, by the controller. */
  lemma TwoAppliesOwned(s: State, a: Vals, b: Vals, w: string)
    requires WfState(s)
    ensures Owned(Applied(Applied(s, CONTROLLER, a), CONTROLLER, b), w) ==
            if w == CONTROLLER then b.Keys else set p | p in Owned(s, w) && !Changes(s, a, p) && !Changes(s, b, p)
  {
    var t := Applied(s, CONTROLLER, a);
    AppliedOwned(s, CONTROLLER, a, w);
    AppliedOwned(t, CONTROLLER, b, w);
    if w != CONTROLLER {
      forall p | p in Owned(t, w) ensures Get(t.vals, p) == Get(s.vals, p) {
        KeptValue(s, a, w, p);
      }
      SecondEviction(s, t, a, b, w);
    }
  }

  lemma SecondEviction(s: State, t: State, a: Vals, b: Vals, w: string)
    requires Owned(t, w) == OwnedAfter(s, CONTROLLER, a, w) && w != CONTROLLER
    requires forall p | p in Owned(t, w) :: Get(t.vals, p) == Get(s.vals, p)
    ensures OwnedAfter(t, CONTROLLER, b, w) == set p | p in Owned(s, w) && !Changes(s, a, p) && !Changes(s, b, p)
  {
    forall p ensures p in OwnedAfter(t, CONTROLLER, b, w) <==> p in Owned(s, w) && !Changes(s, a, p) && !Changes(s, b, p) {
      if p in Owned(t, w) {
        assert Get(t.vals, p) == Get(s.vals, p);
      }
    }
  }

  /** A leaf another manager keeps through an apply keeps its value. */
  lemma KeptValue(s: State, body: Vals, w: string, p: Slot)
    requires WfState(s) && w != CONTROLLER && p in Owned(Applied(s, CONTROLLER, body), w)
    ensures Get(Applied(s, CONTROLLER, body).vals, p) == Get(s.vals, p)
  {
    AppliedOwned(s, CONTROLLER, body, w);
    AppliedVals(s, CONTROLLER, body, p);
    OtherOwner(s, CONTROLLER, p);
    assert p in Owned(s, w) && p in s.vals;
  }

  lemma AppliesVals(s: State, m: Manifest, p: Slot)
    requires WfState(s) && Conforms(m)
    ensures Get(AfterTakeover(s, m).vals, p) ==
            if p in TakeoverBody(s, m) then Some(TakeoverBody(s, m)[p])
            else if OwnedByOther(s, CONTROLLER, p) then Get(s.vals, p)
            else None
  {
    BodiesWf(s, m);
    TwoAppliesVals(s, NormalBody(s, m), TakeoverBody(s, m), p);
    BothApplies(s, m);
  }

  lemma TwoAppliesVals(s: State, a: Vals, b: Vals, p: Slot)
    requires WfState(s) && a.Keys <= b.Keys
    ensures Get(Applied(Applied(s, CONTROLLER, a), CONTROLLER, b).vals, p) ==
            if p in b then Some(b[p]) else if OwnedByOther(s, CONTROLLER, p) then Get(s.vals, p) else None
  {
    AppliedVals(s, CONTROLLER, a, p);
    AppliedVals(Applied(s, CONTROLLER, a), CONTROLLER, b, p);
    AppliedOwned(s, CONTROLLER, a, CONTROLLER);
    UnownedIsAbsent(s, p);
  }

  lemma OthersAreLocal(s: State, p: Slot)
    requires InDomain(s)
    ensures OwnedByOther(s, CONTROLLER, p) <==> LocallyClaimed(s, p)
  {
    ControllerIsNotLocal();
  }

  // ----- which dispatches the API server accepts

  /** The leaves on the object after the forced applies, and after a takeover apply without the normal one. */
  lemma PresentAfter(s: State, m: Manifest, p: Slot)
    requires InDomain(s) && Conforms(m)
    ensures p in AfterNormal(s, m).vals <==> Present(s, m, p)
    ensures p in AfterTakeover(s, m).vals <==> Present(s, m, p)
    ensures p in Applied(s, CONTROLLER, TakeoverBody(s, m)).vals <==> Present(s, m, p)
  {
    AppliedVals(s, CONTROLLER, NormalBody(s, m), p);
    AppliedVals(s, CONTROLLER, TakeoverBody(s, m), p);
    AppliesVals(s, m, p);
    UnownedIsAbsent(s, p);
    OthersAreLocal(s, p);
  }

  lemma UnownedIsAbsent(s: State, p: Slot)
    requires WfState(s)
    ensures p in s.vals ==> OwnedByOther(s, CONTROLLER, p) || p in Owned(s, CONTROLLER)
    ensures OwnedByOther(s, CONTROLLER, p) ==> p in s.vals
  {
    OtherOwner(s, CONTROLLER, p);
    if p in s.vals {
      assert HasOwner(s, p);
    }
    if o :| o != CONTROLLER && p in Owned(s, o) {
      assert p in s.vals;
    }
  }

  lemma CompleteIff(s: State, m: Manifest, vals: Vals)
    requires forall p :: p in vals <==> Present(s, m, p)
    ensures Complete(vals) <==> Accepts(s, m)
  {
    if Complete(vals) {
      forall p, q | Present(s, m, p) && q in Needs(p) ensures Present(s, m, q) {
        assert p in vals && Needs(p) <= vals.Keys;
        assert q in vals;
      }
    }
    if Accepts(s, m) {
      forall p, q | p in vals && q in Needs(p) ensures q in vals {
        assert Present(s, m, p) && Present(s, m, q);
      }
    }
  }

  /** The API server accepts the controller's forced applies exactly when every leaf of the manifest and
      every locally claimed leaf has its required leaves in the manifest or under a local claim. A
      server that left the manifest while a local claim on it remains is what usually fails this. */
  lemma AcceptedIff(s: State, m: Manifest)
    requires InDomain(s) && Conforms(m)
    ensures Patched(s, CONTROLLER, NormalBody(s, m), true).Some? <==> Accepts(s, m)
    ensures Patched(AfterNormal(s, m), CONTROLLER, TakeoverBody(s, m), true).Some? <==> Accepts(s, m)
    ensures Patched(s, CONTROLLER, TakeoverBody(s, m), true).Some? <==> Accepts(s, m)
  {
    forall p ensures p in AfterNormal(s, m).vals <==> Present(s, m, p) {
      PresentAfter(s, m, p);
    }
    forall p ensures p in Applied(s, CONTROLLER, TakeoverBody(s, m)).vals <==> Present(s, m, p) {
      PresentAfter(s, m, p);
    }
    forall p ensures p in Applied(AfterNormal(s, m), CONTROLLER, TakeoverBody(s, m)).vals <==> Present(s, m, p) {
      PresentTwice(s, m, p);
    }
    CompleteIff(s, m, AfterNormal(s, m).vals);
    CompleteIff(s, m, Applied(s, CONTROLLER, TakeoverBody(s, m)).vals);
    CompleteIff(s, m, Applied(AfterNormal(s, m), CONTROLLER, TakeoverBody(s, m)).vals);
  }

  lemma PresentTwice(s: State, m: Manifest, p: Slot)
    requires InDomain(s) && Conforms(m)
    ensures p in Applied(AfterNormal(s, m), CONTROLLER, TakeoverBody(s, m)).vals <==> Present(s, m, p)
  {
    BothApplies(s, m);
    PresentAfter(s, m, p);
  }

  /** A server that left the manifest blocks every dispatch while a local claim on it remains, unless local
      managers claim all its required leaves themselves. */
  lemma DepartedServerBlocks(s: State, m: Manifest, p: Slot)
    requires Conforms(m) && LocallyClaimed(s, p) && IdSlot(p.server) !in m.vals
    ensures Accepts(s, m) ==> forall q | q in Needs(p) :: LocallyClaimed(s, q)
  {
    if Accepts(s, m) {
      forall q | q in Needs(p) ensures LocallyClaimed(s, q) {
        assert Present(s, m, p) && Present(s, m, q) && q.server == p.server;
      }
    }
  }

  /** A covering manifest is accepted. */
  lemma CoveredIsAccepted(s: State, m: Manifest)
    requires InDomain(s) && Conforms(m) && Covers(m, s)
    ensures Accepts(s, m)
  {
    forall p, q | Present(s, m, p) && q in Needs(p) ensures Present(s, m, q) {
      NeedInManifest(s, m, p, q);
    }
  }

  lemma NeedInManifest(s: State, m: Manifest, p: Slot, q: Slot)
    requires InDomain(s) && Conforms(m) && Covers(m, s) && Present(s, m, p) && q in Needs(p)
    ensures q in m.vals
  {
    var id := IdSlot(p.server);
    assert id in m.vals && id.server == p.server;
    if p !in m.vals {
      var w :| w in s.claims && IsLocal(w) && p in s.claims[w];
      assert p.group == "" || p.group == IDRAC;
    }
  }

  /** Under a covering manifest every leaf of it stays whichever managers the sweep releases, so no
      release is refused. */
  lemma CoveredSweepIsComplete(s: State, m: Manifest, done: set<string>)
    requires InDomain(s) && Conforms(m) && Covers(m, s) && done <= Locals(AfterTakeover(s, m))
    ensures Complete(Swept(AfterTakeover(s, m), m, done).vals)
  {
    var t := Swept(AfterTakeover(s, m), m, done);
    forall p, q | p in t.vals && q in Needs(p) ensures q in t.vals {
      PresentAfter(s, m, p);
      NeedInManifest(s, m, p, q);
      ManifestLeafStays(s, m, done, q);
    }
  }

  lemma ManifestLeafStays(s: State, m: Manifest, done: set<string>, q: Slot)
    requires InDomain(s) && Conforms(m) && q in m.vals && done <= Locals(AfterTakeover(s, m))
    ensures q in Swept(AfterTakeover(s, m), m, done).vals
  {
    PresentAfter(s, m, q);
    ControllerIsNotLocal();
    if q in TakeoverBody(s, m) {
      AppliesOwned(s, m, CONTROLLER);
      OwnedStays(AfterTakeover(s, m), m, done, q, CONTROLLER);
    } else {
      LeftOutIsKept(s, m, q);
      var w :| w in s.claims && q in NotEvicted(s, m, w) && IsLocal(w) && Meaningful(m, q);
      ControllerIsNotLocal();
      AppliesOwned(s, m, w);
      OwnedStays(AfterTakeover(s, m), m, done, q, w);
    }
  }

  lemma OwnedStays(a: State, m: Manifest, done: set<string>, q: Slot, w: string)
    requires q in a.vals && q in Owned(a, w) && (w in done ==> Meaningful(m, q))
    ensures q in Swept(a, m, done).vals
  {
    SweptVals(a, m, done, q);
    assert q in OwnedSwept(a, m, done, w);
  }

  /** A leaf of the manifest that no apply carries is held by a local claim that nothing takes away. */
  lemma LeftOutIsKept(s: State, m: Manifest, q: Slot)
    requires Conforms(m) && q in m.vals && q !in TakeoverBody(s, m)
    ensures Meaningful(m, q) && exists w :: w in s.claims && q in NotEvicted(s, m, w) && IsLocal(w) && Meaningful(m, q)
  {
    BodiesWf(s, m);
    NotATakeover(m, q);
    var w :| w in s.claims && IsLocal(w) && q in s.claims[w];
    assert q in Owned(s, w) && Untouched(s, m, q) && q in NotEvicted(s, m, w);
  }

  lemma NotATakeover(m: Manifest, p: Slot)
    requires TakeoverKey(p.server, p.field) !in Ignored.DirectiveKeys(m.takeover)
    ensures !IsTakeover(m, p)
  {
  }

  // ----- values and owners after a run

  lemma AfterOwned(s: State, m: Manifest, done: set<string>, w: string)
    requires InDomain(s) && Conforms(m) && OnlyLocal(done)
    ensures Owned(After(s, m, done), w) ==
            if w == CONTROLLER then TakeoverBody(s, m).Keys
            else if w in done then Kept(m, NotEvicted(s, m, w))
            else NotEvicted(s, m, w)
  {
    ControllerIsNotLocal();
    AppliesOwned(s, m, w);
    SweptOwned(AfterTakeover(s, m), m, done, w);
  }

  lemma AfterVals(s: State, m: Manifest, done: set<string>, p: Slot)
    requires InDomain(s) && Conforms(m) && OnlyLocal(done)
    ensures Get(After(s, m, done).vals, p) ==
            if p in TakeoverBody(s, m) then Some(TakeoverBody(s, m)[p])
            else if LocallyClaimed(After(s, m, done), p) then Get(s.vals, p)
            else None
  {
    var t := After(s, m, done);
    SweptFacts(AfterTakeover(s, m), m, done);
    AppliesVals(s, m, p);
    LocallyClaimedMeans(t, p);
    if p in TakeoverBody(s, m) {
      AfterOwned(s, m, done, CONTROLLER);
      assert p in Owned(t, CONTROLLER);
    } else if LocallyClaimed(t, p) {
      var w :| IsLocal(w) && p in Owned(t, w);
      ControllerIsNotLocal();
      ClaimWasThere(s, m, done, w, p);
      assert OwnedByOther(s, CONTROLLER, p);
    } else {
      forall w ensures p !in Owned(t, w) {
        AfterOwned(s, m, done, w);
        if p in NotEvicted(s, m, w) {
          assert w in s.claims;
        }
      }
      assert !HasOwner(t, p);
    }
  }

  /** A run gives no local manager a new claim. */
  lemma ClaimWasThere(s: State, m: Manifest, done: set<string>, w: string, p: Slot)
    requires InDomain(s) && Conforms(m) && OnlyLocal(done) && IsLocal(w) && p in Owned(After(s, m, done), w)
    ensures w in s.claims && p in s.claims[w] && p in NotEvicted(s, m, w)
  {
    ControllerIsNotLocal();
    AfterOwned(s, m, done, w);
    NotEvictedKeys(s, m, w);
    KeptSubset(m, NotEvicted(s, m, w));
  }

  lemma KeysUntouched(s: State, m: Manifest, server: string)
    requires WfState(s) && Conforms(m)
    ensures Untouched(s, m, IdSlot(server))
  {
    BodiesWf(s, m);
    KeysNeverChange(s, NormalBody(s, m), server);
    KeysNeverChange(s, TakeoverBody(s, m), server);
  }

  lemma NotEvictedKeys(s: State, m: Manifest, w: string)
    requires WfState(s) && Conforms(m)
    ensures forall q | q in NotEvicted(s, m, w) :: IdSlot(q.server) in NotEvicted(s, m, w)
  {
    forall q | q in NotEvicted(s, m, w) ensures IdSlot(q.server) in NotEvicted(s, m, w) {
      KeysUntouched(s, m, q.server);
    }
  }

  lemma EveryoneIsLocal(s: State, m: Manifest)
    ensures OnlyLocal(Everyone(s, m))
  {
  }

  /** A run in which every release is accepted. */
  lemma ResultOwned(s: State, m: Manifest, w: string)
    requires InDomain(s) && Conforms(m)
    ensures Owned(Result(s, m), w) ==
            if w == CONTROLLER then TakeoverBody(s, m).Keys
            else if IsLocal(w) then Kept(m, NotEvicted(s, m, w))
            else NotEvicted(s, m, w)
  {
    EveryoneIsLocal(s, m);
    AfterOwned(s, m, Everyone(s, m), w);
    AppliesOwned(s, m, w);
    if IsLocal(w) && w !in Everyone(s, m) {
      ControllerIsNotLocal();
      assert NotEvicted(s, m, w) == {};
      assert Kept(m, {}) == {};
    }
  }

  lemma ResultVals(s: State, m: Manifest, p: Slot)
    requires InDomain(s) && Conforms(m)
    ensures Get(Result(s, m).vals, p) ==
            if p in TakeoverBody(s, m) then Some(TakeoverBody(s, m)[p])
            else if LocallyClaimed(Result(s, m), p) then Get(s.vals, p)
            else None
  {
    EveryoneIsLocal(s, m);
    AfterVals(s, m, Everyone(s, m), p);
  }

  // ----- the end state of one leaf, whichever managers the sweep releases

  /** Whose claim on p a run leaves. */
  lemma ClaimsAfter(s: State, m: Manifest, done: set<string>, w: string, p: Slot)
    requires InDomain(s) && Conforms(m) && OnlyLocal(done) && IsLocal(w)
    requires p != IdSlot(p.server)
    ensures p in Owned(After(s, m, done), w) <==>
            p in Owned(s, w) && Untouched(s, m, p) && (w in done ==> Meaningful(m, p))
  {
    ControllerIsNotLocal();
    AfterOwned(s, m, done, w);
  }

  /** When the sweep keeps claims on p, it keeps all of them. */
  lemma KeptClaimsAfter(s: State, m: Manifest, done: set<string>, p: Slot)
    requires InDomain(s) && Conforms(m) && OnlyLocal(done) && Meaningful(m, p)
    ensures LocallyClaimed(After(s, m, done), p) <==> LocallyClaimed(s, p) && Untouched(s, m, p)
    ensures Untouched(s, m, p) ==> forall w | IsLocal(w) :: p in Owned(After(s, m, done), w) <==> p in Owned(s, w)
  {
    LocallyClaimedMeans(s, p);
    LocallyClaimedMeans(After(s, m, done), p);
    forall w | IsLocal(w) ensures p in Owned(After(s, m, done), w) <==> p in Owned(s, w) && Untouched(s, m, p) {
      ClaimsAfter(s, m, done, w, p);
    }
  }

  /** The claims a run leaves when every release is accepted. */
  lemma ClaimedAfter(s: State, m: Manifest, p: Slot)
    requires InDomain(s) && Conforms(m) && p != IdSlot(p.server)
    ensures LocallyClaimed(Result(s, m), p) <==> LocallyClaimed(s, p) && Untouched(s, m, p) && Meaningful(m, p)
  {
    LocallyClaimedMeans(s, p);
    LocallyClaimedMeans(Result(s, m), p);
    ControllerIsNotLocal();
    forall w | IsLocal(w)
      ensures p in Owned(Result(s, m), w) <==> p in Owned(s, w) && Untouched(s, m, p) && Meaningful(m, p)
    {
      ResultOwned(s, m, w);
    }
  }

  /** What the applies carry holds, and the controller owns exactly that. */
  lemma CarriedHolds(s: State, m: Manifest, done: set<string>, p: Slot, body: Vals)
    requires InDomain(s) && Conforms(m) && OnlyLocal(done) && body == TakeoverBody(s, m)
    ensures p in body ==> Get(After(s, m, done).vals, p) == Some(body[p])
    ensures p !in body ==>
              Get(After(s, m, done).vals, p) == if LocallyClaimed(After(s, m, done), p) then Get(s.vals, p) else None
    ensures p in Owned(After(s, m, done), CONTROLLER) <==> p in body
  {
    AfterOwned(s, m, done, CONTROLLER);
    AfterVals(s, m, done, p);
  }

  /** What the bow-out does not touch, and what a struct-level takeover entry covers, is applied as intended. */
  lemma CarriedWhole(s: State, m: Manifest, p: Slot)
    requires IsTakeover(m, p) || StructTakeover(m, p) || !BowedOut(s, m, p)
    ensures Get(TakeoverBody(s, m), p) == Get(m.vals, p)
  {
    if IsTakeover(m, p) {
      assert TakeoverKey(p.server, p.field) in Ignored.DirectiveKeys(m.takeover);
    }
  }

  /** A takeover target of the manifest holds its intent under the controller, and no manager that the sweep
      released claims it. One the manifest does not set is gone once no local claim is left. */
  lemma TakeoverTargetHolds(s: State, m: Manifest, done: set<string>, p: Slot)
    requires InDomain(s) && Conforms(m) && OnlyLocal(done)
    requires IsTakeover(m, p) && p != IdSlot(p.server)
    ensures p in m.vals || !LocallyClaimed(After(s, m, done), p) ==> Get(After(s, m, done).vals, p) == Get(m.vals, p)
    ensures forall w | w in done :: p !in Owned(After(s, m, done), w)
    ensures p in Owned(After(s, m, done), CONTROLLER) <==> p in m.vals
  {
    CarriedWhole(s, m, p);
    CarriedHolds(s, m, done, p, TakeoverBody(s, m));
    forall w | w in done ensures p !in Owned(After(s, m, done), w) {
      ClaimsAfter(s, m, done, w, p);
    }
  }

  /** When every release is accepted, no local claim on a takeover target is left. */
  lemma TakeoverTargetIsReleased(s: State, m: Manifest, p: Slot)
    requires InDomain(s) && Conforms(m) && IsTakeover(m, p) && p != IdSlot(p.server)
    ensures !LocallyClaimed(Result(s, m), p) && Get(Result(s, m).vals, p) == Get(m.vals, p)
  {
    EveryoneIsLocal(s, m);
    TakeoverTargetHolds(s, m, Everyone(s, m), p);
    ClaimedAfter(s, m, p);
  }

  /** A leaf below a takeover entry for its whole struct holds its intent under the controller. A local
      claim on it stays, shared, exactly when no apply changed the leaf: the release sweep excludes
      leaves by their own names only. */
  lemma StructTakeoverHolds(s: State, m: Manifest, done: set<string>, p: Slot)
    requires InDomain(s) && Conforms(m) && OnlyLocal(done)
    requires StructTakeover(m, p) && p in m.vals && !IsTakeover(m, p)
    ensures Get(After(s, m, done).vals, p) == Some(m.vals[p]) && p in Owned(After(s, m, done), CONTROLLER)
    ensures LocallyClaimed(After(s, m, done), p) <==>
            LocallyClaimed(s, p) && Get(s.vals, p) == Some(m.vals[p])
            && (BowedOut(s, m, p) && Required(p) ==> m.vals[p] == Trees.Str(""))
  {
    CarriedWhole(s, m, p);
    CarriedHolds(s, m, done, p, TakeoverBody(s, m));
    assert WfSlot(p) && Meaningful(m, p);
    KeptClaimsAfter(s, m, done, p);
    if LocallyClaimed(s, p) {
      ClaimedIsPresent(s, p);
      StructUntouched(s, m, p);
    }
  }

  lemma StructUntouched(s: State, m: Manifest, p: Slot)
    requires StructTakeover(m, p) && p in m.vals && p in s.vals
    ensures Untouched(s, m, p) <==> s.vals[p] == m.vals[p] && (BowedOut(s, m, p) && Required(p) ==> m.vals[p] == Trees.Str(""))
  {
  }

  lemma ClaimedIsPresent(s: State, p: Slot)
    requires WfState(s) && LocallyClaimed(s, p)
    ensures p in s.vals
  {
    var w :| w in s.claims && IsLocal(w) && p in s.claims[w];
    assert p in Owned(s, w);
  }

  lemma WithheldIsUntouched(s: State, m: Manifest, p: Slot)
    requires BowedOut(s, m, p) && !Required(p) && !StructTakeover(m, p)
    ensures Untouched(s, m, p) && Meaningful(m, p) && p !in TakeoverBody(s, m)
  {
    NotATakeover(m, p);
  }

  /** A bowed-out leaf keeps its value and every local claim; the controller does not own it. */
  lemma OverrideSurvives(s: State, m: Manifest, done: set<string>, p: Slot)
    requires InDomain(s) && Conforms(m) && OnlyLocal(done)
    requires BowedOut(s, m, p) && !Required(p) && !StructTakeover(m, p)
    ensures p in s.vals && Get(After(s, m, done).vals, p) == Get(s.vals, p)
    ensures forall w | IsLocal(w) :: p in Owned(After(s, m, done), w) <==> p in Owned(s, w)
    ensures p !in Owned(After(s, m, done), CONTROLLER)
  {
    WithheldIsUntouched(s, m, p);
    CarriedHolds(s, m, done, p, TakeoverBody(s, m));
    KeptClaimsAfter(s, m, done, p);
    ClaimedIsPresent(s, p);
  }

  /** A claimed leaf that already agrees with the intent and is not ignored keeps its value; the
      controller becomes a co-owner and every local claim but the identity ones stays. */
  lemma AgreementIsShared(s: State, m: Manifest, done: set<string>, p: Slot)
    requires InDomain(s) && Conforms(m) && OnlyLocal(done)
    requires p in m.vals && p != IdSlot(p.server) && !IsTakeover(m, p)
    requires LocallyClaimed(s, p) && Get(s.vals, p) == Some(m.vals[p])
    requires TakeoverKey(p.server, p.field) !in Ignored.DirectiveKeys(m.ignored)
    ensures Get(After(s, m, done).vals, p) == Get(s.vals, p) == Some(m.vals[p])
    ensures p in Owned(After(s, m, done), CONTROLLER)
    ensures p != TagSlot(p.server) ==> forall w | IsLocal(w) :: p in Owned(After(s, m, done), w) <==> p in Owned(s, w)
  {
    AgreementUntouched(s, m, p);
    CarriedWhole(s, m, p);
    CarriedHolds(s, m, done, p, TakeoverBody(s, m));
    if p != TagSlot(p.server) {
      KeptClaimsAfter(s, m, done, p);
    }
  }

  lemma AgreementUntouched(s: State, m: Manifest, p: Slot)
    requires p in m.vals && Get(s.vals, p) == Some(m.vals[p])
    requires TakeoverKey(p.server, p.field) !in Ignored.DirectiveKeys(m.ignored)
    ensures Untouched(s, m, p) && !BowedOut(s, m, p)
  {
  }

  /** A leaf no local manager claims takes the intended value, whatever the Ignore list says. */
  lemma UnclaimedFollowsIntent(s: State, m: Manifest, done: set<string>, p: Slot)
    requires InDomain(s) && Conforms(m) && OnlyLocal(done)
    requires p in m.vals && !LocallyClaimed(s, p)
    ensures Get(After(s, m, done).vals, p) == Some(m.vals[p])
    ensures p in Owned(After(s, m, done), CONTROLLER) && !LocallyClaimed(After(s, m, done), p)
  {
    CarriedWhole(s, m, p);
    CarriedHolds(s, m, done, p, TakeoverBody(s, m));
    NoNewClaim(s, m, done, p);
  }

  lemma NoNewClaim(s: State, m: Manifest, done: set<string>, p: Slot)
    requires InDomain(s) && Conforms(m) && OnlyLocal(done) && !LocallyClaimed(s, p)
    ensures !LocallyClaimed(After(s, m, done), p)
  {
    LocallyClaimedMeans(After(s, m, done), p);
    forall w | IsLocal(w) ensures p !in Owned(After(s, m, done), w) {
      if p in Owned(After(s, m, done), w) {
        ClaimWasThere(s, m, done, w, p);
        assert false;
      }
    }
  }

  /** Where the bow-out fails: a withheld required leaf is force-applied as the empty string, and a
      withheld leaf below a struct-level takeover entry as its intent. */
  lemma OverrideSurvivesIff(s: State, m: Manifest, done: set<string>, p: Slot)
    requires InDomain(s) && Conforms(m) && OnlyLocal(done)
    requires BowedOut(s, m, p)
    ensures Get(After(s, m, done).vals, p) == Get(s.vals, p) <==>
            if StructTakeover(m, p) then Get(s.vals, p) == Some(m.vals[p])
            else !Required(p) || Get(s.vals, p) == Some(Trees.Str(""))
    ensures Required(p) && !StructTakeover(m, p) ==>
              Get(After(s, m, done).vals, p) == Some(Trees.Str("")) && p in Owned(After(s, m, done), CONTROLLER)
  {
    if StructTakeover(m, p) {
      CarriedWhole(s, m, p);
      CarriedHolds(s, m, done, p, TakeoverBody(s, m));
    } else if Required(p) {
      BlankCarried(s, m, p);
      CarriedHolds(s, m, done, p, TakeoverBody(s, m));
    } else {
      OverrideSurvives(s, m, done, p);
    }
  }

  lemma BlankCarried(s: State, m: Manifest, p: Slot)
    requires BowedOut(s, m, p) && Required(p) && !StructTakeover(m, p)
    ensures Get(TakeoverBody(s, m), p) == Some(Trees.Str(""))
  {
  }

  /** A leaf outside the manifest, on a server of the manifest, lives on exactly as long as some local
      manager has a claim on it that it was not made to give up. */
  lemma LeafOutsideManifest(s: State, m: Manifest, done: set<string>, p: Slot)
    requires InDomain(s) && Conforms(m) && OnlyLocal(done)
    requires p !in m.vals && IdSlot(p.server) in m.vals
    ensures p in After(s, m, done).vals <==> exists w :: IsLocal(w) && p in Owned(s, w) && (w in done ==> Meaningful(m, p))
    ensures p in After(s, m, done).vals ==> Get(After(s, m, done).vals, p) == Get(s.vals, p)
  {
    NotCarried(s, m, p);
    CarriedHolds(s, m, done, p, TakeoverBody(s, m));
    ClaimsOutside(s, m, done, p);
    if w :| IsLocal(w) && p in Owned(s, w) {
      assert p in s.vals;
    }
  }

  lemma NotCarried(s: State, m: Manifest, p: Slot)
    requires p !in m.vals
    ensures p !in TakeoverBody(s, m) && Untouched(s, m, p)
  {
  }

  lemma ClaimsOutside(s: State, m: Manifest, done: set<string>, p: Slot)
    requires InDomain(s) && Conforms(m) && OnlyLocal(done) && p != IdSlot(p.server) && Untouched(s, m, p)
    ensures LocallyClaimed(After(s, m, done), p) <==>
            exists w :: IsLocal(w) && p in Owned(s, w) && (w in done ==> Meaningful(m, p))
  {
    LocallyClaimedMeans(After(s, m, done), p);
    forall w | IsLocal(w)
      ensures p in Owned(After(s, m, done), w) <==> p in Owned(s, w) && (w in done ==> Meaningful(m, p))
    {
      ClaimsAfter(s, m, done, w, p);
    }
  }
}
