/** Replaying a manifest: when a run is a fixed point, and why the reclaim loop always settles. */
module Replay {
  import opened Base
  import opened BowOut
  import opened Schema
  import opened ServerSideApply
  import opened Pipeline
  import opened EndState
  import Ignored
  import Trees

  /** A required leaf that one run blanks and the next run sets again. */
  predicate Flips(s: State, m: Manifest, p: Slot) {
    && BowedOut(s, m, p) && Required(p) && !StructTakeover(m, p)
    && m.vals[p] != Trees.Str("")
    && (p == TagSlot(p.server) || Get(s.vals, p) != Some(Trees.Str("")))
  }

  predicate AnyFlips(s: State, m: Manifest) {
    exists p | p in m.vals :: Flips(s, m, p)
  }

  /** What the second run decides at a leaf, in terms of the state before the first. */
  lemma SecondDecision(s: State, m: Manifest, p: Slot)
    requires InDomain(s) && Conforms(m) && !StructTakeover(m, p)
    ensures BowedOut(Result(s, m), m, p) <==>
            BowedOut(s, m, p) && (!Required(p) || (p != TagSlot(p.server) && Get(s.vals, p) == Some(Trees.Str(""))))
  {
    if p in m.vals && p != IdSlot(p.server) {
      if BowedOut(s, m, p) {
        SecondAfterBowOut(s, m, p);
      } else {
        CarriedWhole(s, m, p);
        EveryoneIsLocal(s, m);
        CarriedHolds(s, m, Everyone(s, m), p, TakeoverBody(s, m));
        ClaimedAfter(s, m, p);
        NotBowedTwice(s, m, p, Result(s, m));
      }
    }
  }

  lemma NotBowedTwice(s: State, m: Manifest, p: Slot, t: State)
    requires p in m.vals && p != IdSlot(p.server) && !BowedOut(s, m, p)
    requires Get(t.vals, p) == Some(m.vals[p]) && (LocallyClaimed(t, p) ==> LocallyClaimed(s, p))
    ensures !BowedOut(t, m, p)
  {
  }

  lemma SecondAfterBowOut(s: State, m: Manifest, p: Slot)
    requires InDomain(s) && Conforms(m) && !StructTakeover(m, p) && BowedOut(s, m, p)
    ensures BowedOut(Result(s, m), m, p) <==> !Required(p) || (p != TagSlot(p.server) && Get(s.vals, p) == Some(Trees.Str("")))
  {
    NotATakeover(m, p);
    EveryoneIsLocal(s, m);
    OverrideSurvivesIff(s, m, Everyone(s, m), p);
    ClaimedAfter(s, m, p);
    ClaimedIsPresent(s, p);
    BlankTouches(s, m, p);
    BowedOutAgain(s, m, p, Result(s, m));
  }

  lemma BlankTouches(s: State, m: Manifest, p: Slot)
    requires BowedOut(s, m, p) && !StructTakeover(m, p) && p in s.vals
    ensures Untouched(s, m, p) <==> !Required(p) || s.vals[p] == Trees.Str("")
  {
  }

  lemma BowedOutAgain(s: State, m: Manifest, p: Slot, t: State)
    requires BowedOut(s, m, p)
    requires LocallyClaimed(t, p) ==> Get(t.vals, p) == Get(s.vals, p)
    ensures BowedOut(t, m, p) <==> LocallyClaimed(t, p)
  {
  }

  lemma SecondBodyAt(s: State, m: Manifest, p: Slot)
    requires InDomain(s) && Conforms(m)
    ensures Get(TakeoverBody(Result(s, m), m), p) == Get(TakeoverBody(s, m), p) <==> !(p in m.vals && Flips(s, m, p))
  {
    if StructTakeover(m, p) {
      CarriedWhole(s, m, p);
      CarriedWhole(Result(s, m), m, p);
    } else {
      SecondDecision(s, m, p);
    }
  }

  /** The second run applies the body of the first, exactly when no leaf flips. */
  lemma SecondBody(s: State, m: Manifest)
    requires InDomain(s) && Conforms(m)
    ensures TakeoverBody(Result(s, m), m) == TakeoverBody(s, m) <==> !AnyFlips(s, m)
  {
    if AnyFlips(s, m) {
      var p :| p in m.vals && Flips(s, m, p);
      SecondBodyAt(s, m, p);
    } else {
      forall p ensures Get(TakeoverBody(Result(s, m), m), p) == Get(TakeoverBody(s, m), p) {
        SecondBodyAt(s, m, p);
      }
      SameLookups(TakeoverBody(Result(s, m), m), TakeoverBody(s, m));
    }
  }

  // ----- a run keeps the domain

  /** The sweep of a well-formed object leaves a well-formed object, whoever is released. */
  lemma SweptInDomain(a: State, m: Manifest, done: set<string>)
    requires InDomain(a)
    ensures InDomain(Swept(a, m, done))
  {
    SweptFacts(a, m, done);
    SweptWf(a, m, done, Swept(a, m, done));
    SweptManagers(a, m, done, Swept(a, m, done));
  }

  lemma SweptWf(a: State, m: Manifest, done: set<string>, t: State)
    requires WfState(a) && IsSwept(a, m, done, t)
    ensures WfState(t)
  {
    forall w, p | p in Owned(t, w) ensures p in t.vals && IdSlot(p.server) in Owned(t, w) {
      KeptSubset(m, Owned(a, w));
      assert p in Owned(a, w) && HasOwner(t, p);
      assert Get(t.vals, p) == Get(a.vals, p);
    }
    forall p | p in t.vals ensures HasOwner(t, p) && Get(t.vals, p) == Get(a.vals, p) {
      assert Get(t.vals, p).Some?;
    }
    forall p | p in t.vals ensures WfSlot(p) && IdSlot(p.server) in t.vals && t.vals[IdSlot(p.server)] == Trees.Str(p.server) {
      KeyPresent(t, p);
      assert p in a.vals;
    }
  }

  lemma SweptManagers(a: State, m: Manifest, done: set<string>, t: State)
    requires InDomain(a) && IsSwept(a, m, done, t)
    ensures forall w | w in t.claims :: w == CONTROLLER || IsLocal(w)
    ensures forall w, p | w in t.claims && IsLocal(w) && p in t.claims[w] :: p.group == "" || p.group == IDRAC
  {
    forall w | w in t.claims
      ensures w in a.claims
      ensures t.claims[w] <= a.claims[w]
    {
      KeptSubset(m, Owned(a, w));
      assert Owned(t, w) == OwnedSwept(a, m, done, w) <= Owned(a, w);
      assert Owned(t, w) != {};
    }
  }

  lemma ForcedApplyKeepsDomain(s: State, body: Vals)
    requires InDomain(s) && WfVals(body)
    ensures InDomain(Applied(s, CONTROLLER, body))
  {
    AppliedWf(s, CONTROLLER, body);
    var t := Applied(s, CONTROLLER, body);
    forall w, p | w in t.claims && IsLocal(w) && p in t.claims[w] ensures p.group == "" || p.group == IDRAC {
      ControllerIsNotLocal();
      AppliedOwned(s, CONTROLLER, body, w);
      assert p in Owned(s, w);
    }
  }

  lemma AppliesInDomain(s: State, m: Manifest)
    requires InDomain(s) && Conforms(m)
    ensures InDomain(AfterTakeover(s, m))
  {
    BodiesWf(s, m);
    ForcedApplyKeepsDomain(s, NormalBody(s, m));
    ForcedApplyKeepsDomain(AfterNormal(s, m), TakeoverBody(s, m));
  }

  lemma AfterInDomain(s: State, m: Manifest, done: set<string>)
    requires InDomain(s) && Conforms(m)
    ensures InDomain(After(s, m, done))
  {
    AppliesInDomain(s, m);
    SweptInDomain(AfterTakeover(s, m), m, done);
  }

  /** A run keeps the object well formed and within the domain. */
  lemma ResultWf(s: State, m: Manifest)
    requires InDomain(s) && Conforms(m)
    ensures InDomain(Result(s, m))
  {
    AfterInDomain(s, m, Everyone(s, m));
  }

  /** A covering manifest still covers what its run leaves. */
  lemma ResultCovered(s: State, m: Manifest)
    requires InDomain(s) && Conforms(m) && Covers(m, s)
    ensures Covers(m, Result(s, m))
  {
    var t := Result(s, m);
    forall w, p | w in t.claims && IsLocal(w) && p in t.claims[w] ensures IdSlot(p.server) in m.vals {
      EveryoneIsLocal(s, m);
      ClaimWasThere(s, m, Everyone(s, m), w, p);
    }
  }

  // ----- quiet runs

  /** The leaves of the manifest in a state where another run has nothing to change. */
  ghost predicate Settled(t: State, m: Manifest) {
    && Owned(t, CONTROLLER) == TakeoverBody(t, m).Keys
    && (forall p | p in TakeoverBody(t, m) :: p in t.vals && t.vals[p] == TakeoverBody(t, m)[p])
    && (forall w, p | w != CONTROLLER && p in Owned(t, w) :: Untouched(t, m, p))
    && forall w | IsLocal(w) :: Kept(m, Owned(t, w)) == Owned(t, w)
  }

  /** When nothing flips, a run leaves a settled object. */
  lemma RunSettles(s: State, m: Manifest)
    requires InDomain(s) && Conforms(m) && !AnyFlips(s, m)
    ensures Settled(Result(s, m), m)
  {
    var t := Result(s, m);
    SecondBody(s, m);
    ResultOwned(s, m, CONTROLLER);
    forall p | p in TakeoverBody(t, m) ensures p in t.vals && t.vals[p] == TakeoverBody(t, m)[p] {
      ResultVals(s, m, p);
    }
    forall w, p | w != CONTROLLER && p in Owned(t, w) ensures Untouched(t, m, p) {
      ResultWf(s, m);
      assert w in t.claims && IsLocal(w);
      StaysUntouched(s, m, w, p);
    }
    forall w | IsLocal(w) ensures Kept(m, Owned(t, w)) == Owned(t, w) {
      KeptTwice(s, m, w);
    }
  }

  lemma KeptTwice(s: State, m: Manifest, w: string)
    requires InDomain(s) && Conforms(m) && IsLocal(w)
    ensures Kept(m, Owned(Result(s, m), w)) == Owned(Result(s, m), w)
  {
    ControllerIsNotLocal();
    ResultOwned(s, m, w);
    NotEvictedKeys(s, m, w);
    KeptSubset(m, NotEvicted(s, m, w));
  }

  /** A claim that survived the first run is not touched by the second. */
  lemma StaysUntouched(s: State, m: Manifest, w: string, p: Slot)
    requires InDomain(s) && Conforms(m) && IsLocal(w) && p in Owned(Result(s, m), w)
    requires TakeoverBody(Result(s, m), m) == TakeoverBody(s, m)
    ensures Untouched(Result(s, m), m, p)
  {
    var t := Result(s, m);
    ResultVals(s, m, p);
    if p in NormalBody(t, m) && StructTakeover(m, p) && BowedOut(t, m, p) {
      BlankUnderStruct(s, m, w, p);
    } else if p in NormalBody(t, m) {
      SameInBoth(t, m, p);
    }
  }

  lemma SameInBoth(t: State, m: Manifest, p: Slot)
    requires p in NormalBody(t, m) && !(StructTakeover(m, p) && BowedOut(t, m, p))
    ensures p in TakeoverBody(t, m) && TakeoverBody(t, m)[p] == NormalBody(t, m)[p]
  {
  }

  /** A required leaf below a struct-level takeover entry that stays claimed has "" as its intent. */
  lemma BlankUnderStruct(s: State, m: Manifest, w: string, p: Slot)
    requires InDomain(s) && Conforms(m) && IsLocal(w) && p in Owned(Result(s, m), w)
    requires StructTakeover(m, p) && BowedOut(Result(s, m), m, p) && Required(p)
    ensures m.vals[p] == Trees.Str("")
  {
    NotATakeover(m, p);
    EveryoneIsLocal(s, m);
    StructTakeoverHolds(s, m, Everyone(s, m), p);
    assert LocallyClaimed(Result(s, m), p);
    assert TakeoverKey(p.server, p.field) in Ignored.DirectiveKeys(m.ignored);
  }

  lemma SettledApply(t: State, m: Manifest)
    requires InDomain(t) && Conforms(m) && Settled(t, m)
    ensures AfterTakeover(t, m) == t
    ensures Applied(t, CONTROLLER, TakeoverBody(t, m)) == t
  {
    FaithfulApplyIsIdentity(t, CONTROLLER, TakeoverBody(t, m));
    forall w ensures Owned(AfterTakeover(t, m), w) == Owned(t, w) {
      AppliesOwned(t, m, w);
      if w != CONTROLLER {
        SettledNotEvicted(t, m, w);
      }
    }
    forall p ensures Get(AfterTakeover(t, m).vals, p) == Get(t.vals, p) {
      AppliesVals(t, m, p);
      UnownedIsAbsent(t, p);
    }
    AppliesNonEmpty(t, m);
    SameState(AfterTakeover(t, m), t);
  }

  lemma SettledNotEvicted(t: State, m: Manifest, w: string)
    requires Settled(t, m) && w != CONTROLLER
    ensures NotEvicted(t, m, w) == Owned(t, w)
  {
  }

  lemma AppliesNonEmpty(t: State, m: Manifest)
    requires InDomain(t) && Conforms(m)
    ensures forall w | w in AfterTakeover(t, m).claims :: AfterTakeover(t, m).claims[w] != {}
  {
  }

  lemma SettledSweep(t: State, m: Manifest, w: string)
    requires InDomain(t) && Settled(t, m) && IsLocal(w)
    ensures SweptBy(t, t, m, w) == t
  {
    SweptBodyFacts(t, m, w);
    FaithfulApplyIsIdentity(t, w, SweepBody(t, m, w));
  }

  /** Sweeping a settled object changes nothing, whichever managers are released. */
  lemma SettledSwept(t: State, m: Manifest, done: set<string>)
    requires InDomain(t) && Settled(t, m) && done <= Locals(t)
    ensures Swept(t, m, done) == t
  {
    SweptFacts(t, m, done);
    forall w ensures Owned(Swept(t, m, done), w) == Owned(t, w) {
      assert w in done ==> BowOut.IsLocal(w);
    }
    SameOwnersSameState(t, m, done, Swept(t, m, done));
  }

  lemma SameOwnersSameState(t: State, m: Manifest, done: set<string>, u: State)
    requires WfState(t) && IsSwept(t, m, done, u) && forall w :: Owned(u, w) == Owned(t, w)
    ensures u == t
  {
    forall p ensures Get(u.vals, p) == Get(t.vals, p) {
      if p in t.vals {
        assert HasOwner(t, p);
        var w :| p in Owned(t, w);
        assert p in Owned(u, w);
      }
    }
    SameState(u, t);
  }

  /** When nothing flips, every step of a second run is the identity: the takeover apply, with or without
      the normal apply before it, and each release. The normal apply alone is the identity too, unless
      a struct-level takeover entry re-injects what it leaves out. */
  lemma QuietRun(s: State, m: Manifest)
    requires InDomain(s) && Conforms(m) && !AnyFlips(s, m)
    ensures var t := Result(s, m);
            && AfterTakeover(t, m) == t && Applied(t, CONTROLLER, TakeoverBody(t, m)) == t
            && (AfterNormal(t, m) == t <==> !TakeoverReinjects(t, m))
            && (forall w | IsLocal(w) :: SweptBy(t, t, m, w) == t)
            && Result(t, m) == t
  {
    var t := Result(s, m);
    ResultWf(s, m);
    RunSettles(s, m);
    SettledApply(t, m);
    TakeoverPassAddsNothingIff(t, m);
    forall w | IsLocal(w) ensures SweptBy(t, t, m, w) == t {
      SettledSweep(t, m, w);
    }
    SettledSwept(t, m, Locals(t));
  }

  /** A second run of the same manifest changes nothing exactly when no required leaf flips. */
  lemma ReplayIsFixedPointIff(s: State, m: Manifest)
    requires InDomain(s) && Conforms(m)
    ensures Result(Result(s, m), m) == Result(s, m) <==> !AnyFlips(s, m)
  {
    if AnyFlips(s, m) {
      var p :| p in m.vals && Flips(s, m, p);
      FlipShows(s, m, p);
    } else {
      QuietRun(s, m);
    }
  }

  lemma FlipShows(s: State, m: Manifest, p: Slot)
    requires InDomain(s) && Conforms(m) && p in m.vals && Flips(s, m, p)
    ensures Get(Result(Result(s, m), m).vals, p) != Get(Result(s, m).vals, p)
  {
    ResultWf(s, m);
    SecondDecision(s, m, p);
    EveryoneIsLocal(s, m);
    OverrideSurvivesIff(s, m, Everyone(s, m), p);
    ResultVals(Result(s, m), m, p);
    CarriedWhole(Result(s, m), m, p);
  }

  /** A run leaves nothing that flips, so after one replay the loop is at rest from any state. */
  lemma ReplaySettles(s: State, m: Manifest)
    requires InDomain(s) && Conforms(m)
    ensures !AnyFlips(Result(s, m), m)
    ensures var t := Result(Result(s, m), m); Result(t, m) == t
  {
    ResultWf(s, m);
    forall p | p in m.vals ensures !Flips(Result(s, m), m, p) {
      NoSecondFlip(s, m, p);
    }
    ReplayIsFixedPointIff(Result(s, m), m);
  }

  lemma NoSecondFlip(s: State, m: Manifest, p: Slot)
    requires InDomain(s) && Conforms(m) && p in m.vals
    ensures !Flips(Result(s, m), m, p)
  {
    if !StructTakeover(m, p) {
      SecondDecision(s, m, p);
      ResultVals(s, m, p);
    }
  }
}
