/** What the divergence extractor lists after a run of the consume pipeline. */
module Report {
  import opened Base
  import opened Trees
  import opened Schema
  import opened ServerSideApply
  import opened Pipeline
  import opened Overrides
  import BowOut
  import Consume
  import EndState
  import Paths
  import Replay
  import Walkers

  /** A run adds no leaf that neither the object nor the manifest had. */
  lemma AfterPrintable(s: State, m: Manifest, done: set<string>)
    requires InDomain(s) && Conforms(m) && OnlyLocal(done) && Printable(s.vals) && Printable(m.vals)
    ensures Printable(After(s, m, done).vals)
  {
    forall p | p in After(s, m, done).vals ensures Paths.PlainName(p.field) && ']' !in p.server {
      EndState.AfterVals(s, m, done, p);
      EndState.BodiesWf(s, m);
    }
  }

  /** w's claim on p has its entry in the list, at one place. */
  ghost predicate ReportedOnce(overrides: seq<OverrideEntry>, from: seq<Claim>, w: string, p: Slot, e: OverrideEntry) {
    |overrides| == |from| &&
    exists i :: 0 <= i < |from| && IsClaimOf(from[i], w, p) && overrides[i] == e
                && forall k | 0 <= k < |from| && IsClaimOf(from[k], w, p) :: k == i
  }

  predicate IsClaimOf(c: Claim, w: string, p: Slot) {
    c.manager == w && c.keys == SlotKeys(p)
  }

  /** Some claim on the leaf has its entry in the list. */
  ghost predicate Shown(t: State, m: Manifest, overrides: seq<OverrideEntry>, p: Slot) {
    exists w, e :: Contributes(t, m, w, p, e) && e in overrides
  }

  /** The decoded object and manifest, and the extractor's list for them. */
  ghost predicate Extracted(t: State, m: Manifest, live: Fields, manifest: Fields, orders: (seq<string>, seq<string>),
      managed: seq<BowOut.Managed>, overrides: seq<OverrideEntry>, from: seq<Claim>)
  {
    && Lists(managed, t.claims)
    && Enumerates(orders.0, t.vals) && live == SpecFields(t.vals, orders.0)
    && Enumerates(orders.1, m.vals) && manifest == SpecFields(m.vals, orders.1)
    && Reports(overrides, from, live, managed, manifest)
  }

  lemma ClaimReportedOnce(t: State, m: Manifest, live: Fields, manifest: Fields, orders: (seq<string>, seq<string>),
      managed: seq<BowOut.Managed>, overrides: seq<OverrideEntry>, from: seq<Claim>, w: string, p: Slot)
    requires WfState(t) && WfVals(m.vals) && Printable(t.vals)
    requires Extracted(t, m, live, manifest, orders, managed, overrides, from)
    requires w in Locals(t) && p in t.claims[w] && Reportable(t, m, p)
    ensures ReportedOnce(overrides, from, w, p, EntryOf(t, m, w, p))
  {
    var e := EntryOf(t, m, w, p);
    assert Contributes(t, m, w, p, e);
    ClaimContributes(t, m, live, manifest, orders, w, p, e);
    var c := SlotListed(t, managed, w, p);
    OneListed(t, managed, live, manifest, overrides, from, c, e);
  }

  /** Each manager has one entry in the object's managedFields, so its claim on a path is listed once. */
  lemma OneListed(t: State, managed: seq<BowOut.Managed>, live: Fields, manifest: Fields, overrides: seq<OverrideEntry>,
      from: seq<Claim>, c: Claim, e: OverrideEntry)
    requires Lists(managed, t.claims) && Reports(overrides, from, live, managed, manifest)
    requires ClaimListed(managed, c) && OverrideFor(live, manifest, PathOfClaim(c)) == Some(e)
    ensures exists i :: 0 <= i < |from| && from[i] == c && overrides[i] == e
    ensures forall k | 0 <= k < |from| && from[k].manager == c.manager && from[k].keys == c.keys :: from[k] == c
  {
    assert c in from;
    var i :| 0 <= i < |from| && from[i] == c;
    assert overrides[i] == e;
    forall k | 0 <= k < |from| && from[k].manager == c.manager && from[k].keys == c.keys ensures from[k] == c {
      assert from[k] in from && ClaimListed(managed, from[k]);
    }
  }

  /** A leaf that holds its intent has no entry in the list. */
  lemma AgreementNotListed(t: State, m: Manifest, live: Fields, manifest: Fields, orders: (seq<string>, seq<string>),
      managed: seq<BowOut.Managed>, overrides: seq<OverrideEntry>, from: seq<Claim>, p: Slot)
    requires WfState(t) && WfVals(m.vals) && Printable(t.vals) && WfSlot(p)
    requires Extracted(t, m, live, manifest, orders, managed, overrides, from) && !Reportable(t, m, p)
    ensures forall c | c in from :: c.keys != SlotKeys(p)
  {
    forall c | c in from ensures c.keys != SlotKeys(p) {
      if c.keys == SlotKeys(p) {
        ClaimsListedAreSlots(t, managed, c, p);
        assert p in Owned(t, c.manager);
        assert PathOfClaim(c) == Walkers.AdminPath(Paths.PathFrom("", SlotKeys(p)), c.manager);
        OverrideForSlot(t, m, live, manifest, orders, c.manager, p);
        assert false;
      }
    }
  }

  /** The report on one leaf of a state in which a diverging leaf is claimed. */
  lemma ReportAfter(t: State, m: Manifest, live: Fields, manifest: Fields, orders: (seq<string>, seq<string>),
      managed: seq<BowOut.Managed>, overrides: seq<OverrideEntry>, from: seq<Claim>, p: Slot)
    requires WfState(t) && WfVals(m.vals) && Printable(t.vals)
    requires Extracted(t, m, live, manifest, orders, managed, overrides, from)
    requires p in m.vals && p.group == IDRAC && HasIdracId(t, p.server)
    requires Get(t.vals, p) != Some(m.vals[p]) ==> LocallyClaimed(t, p)
    ensures Get(t.vals, p) != Some(m.vals[p]) <==> Shown(t, m, overrides, p)
    ensures Get(t.vals, p) != Some(m.vals[p]) ==>
              forall w | w in Locals(t) && p in t.claims[w] :: ReportedOnce(overrides, from, w, p, EntryOf(t, m, w, p))
    ensures Get(t.vals, p) == Some(m.vals[p]) ==> forall c | c in from :: c.keys != SlotKeys(p)
  {
    if Get(t.vals, p) != Some(m.vals[p]) {
      forall w | w in Locals(t) && p in t.claims[w] ensures ReportedOnce(overrides, from, w, p, EntryOf(t, m, w, p)) {
        ClaimReportedOnce(t, m, live, manifest, orders, managed, overrides, from, w, p);
      }
      DivergenceShown(t, m, overrides, from, p);
    } else {
      AgreementNotListed(t, m, live, manifest, orders, managed, overrides, from, p);
    }
  }

  lemma DivergenceShown(t: State, m: Manifest, overrides: seq<OverrideEntry>, from: seq<Claim>, p: Slot)
    requires LocallyClaimed(t, p) && Reportable(t, m, p)
    requires forall w | w in Locals(t) && p in t.claims[w] :: ReportedOnce(overrides, from, w, p, EntryOf(t, m, w, p))
    ensures Shown(t, m, overrides, p)
  {
    var w :| w in t.claims && BowOut.IsLocal(w) && p in t.claims[w];
    assert w in Locals(t);
    ReportedIsIn(overrides, from, w, p, EntryOf(t, m, w, p));
    assert Contributes(t, m, w, p, EntryOf(t, m, w, p));
  }

  lemma ReportedIsIn(overrides: seq<OverrideEntry>, from: seq<Claim>, w: string, p: Slot, e: OverrideEntry)
    requires ReportedOnce(overrides, from, w, p, e)
    ensures e in overrides
  {
  }

  lemma DivergedLeafIsClaimed(s: State, m: Manifest, done: set<string>, p: Slot)
    requires InDomain(s) && Conforms(m) && OnlyLocal(done)
    requires p in m.vals && p.group == IDRAC
    ensures HasIdracId(After(s, m, done), p.server) && Get(After(s, m, done).vals, p) != Some(m.vals[p]) ==>
              LocallyClaimed(After(s, m, done), p)
  {
    EndState.CarriedHolds(s, m, done, p, TakeoverBody(s, m));
    if p !in TakeoverBody(s, m) {
      EndState.LeftOutIsKept(s, m, p);
      EndState.KeptClaimsAfter(s, m, done, p);
    } else if BowedOut(s, m, p) && !StructTakeover(m, p) {
      assert p == IdracIdSlot(p.server);
      EndState.OverrideSurvivesIff(s, m, done, p);
    } else {
      EndState.CarriedWhole(s, m, p);
    }
  }

  /** No silent divergence: what the extractor lists after any run that gets past its applies, whatever becomes
      of its sweep. An iDRAC leaf of the manifest, on a server whose iDRAC orbId is set, differs from its
      intent exactly when the entry of one of its claims is listed; then each of its claims is listed, once.
      A takeover target is never listed. */
  lemma NoSilentDivergence(s: State, m: Manifest, retryMax: nat, faults: Consume.Faults, visits: seq<string>, live: Fields,
      manifest: Fields, orders: (seq<string>, seq<string>), managed: seq<BowOut.Managed>, overrides: seq<OverrideEntry>,
      from: seq<Claim>, p: Slot)
    requires InDomain(s) && Conforms(m) && Printable(s.vals) && Printable(m.vals) && retryMax > 0
    requires p in m.vals && p.group == IDRAC
    ensures var t := Consume.Outcome(s, m, retryMax, faults, visits);
            Consume.Applies(s, m, retryMax, faults) && Extracted(t, m, live, manifest, orders, managed, overrides, from)
            && HasIdracId(t, p.server) ==>
            && (Get(t.vals, p) != Some(m.vals[p]) <==> Shown(t, m, overrides, p))
            && (Get(t.vals, p) != Some(m.vals[p]) ==>
                  forall w | w in Locals(t) && p in t.claims[w] :: ReportedOnce(overrides, from, w, p, EntryOf(t, m, w, p)))
            && (IsTakeover(m, p) ==> forall c | c in from :: c.keys != SlotKeys(p))
  {
    Consume.OutcomeIsAfter(s, m, retryMax, faults, visits);
    var t := Consume.Outcome(s, m, retryMax, faults, visits);
    if Consume.Applies(s, m, retryMax, faults) && Extracted(t, m, live, manifest, orders, managed, overrides, from)
       && HasIdracId(t, p.server) {
      var done := Consume.ReleasedIn(s, m, retryMax, faults, visits);
      ReportAfterRun(s, m, done, live, manifest, orders, managed, overrides, from, p);
    }
  }

  lemma ReportAfterRun(s: State, m: Manifest, done: set<string>, live: Fields, manifest: Fields, orders: (seq<string>, seq<string>),
      managed: seq<BowOut.Managed>, overrides: seq<OverrideEntry>, from: seq<Claim>, p: Slot)
    requires InDomain(s) && Conforms(m) && OnlyLocal(done) && Printable(s.vals) && Printable(m.vals)
    requires p in m.vals && p.group == IDRAC && HasIdracId(After(s, m, done), p.server)
    requires Extracted(After(s, m, done), m, live, manifest, orders, managed, overrides, from)
    ensures var t := After(s, m, done);
            && (Get(t.vals, p) != Some(m.vals[p]) <==> Shown(t, m, overrides, p))
            && (Get(t.vals, p) != Some(m.vals[p]) ==>
                  forall w | w in Locals(t) && p in t.claims[w] :: ReportedOnce(overrides, from, w, p, EntryOf(t, m, w, p)))
            && (IsTakeover(m, p) ==> forall c | c in from :: c.keys != SlotKeys(p))
  {
    Replay.AfterInDomain(s, m, done);
    AfterPrintable(s, m, done);
    DivergedLeafIsClaimed(s, m, done, p);
    ReportAfter(After(s, m, done), m, live, manifest, orders, managed, overrides, from, p);
    if IsTakeover(m, p) {
      EndState.TakeoverTargetHolds(s, m, done, p);
    }
  }
}
