/** The consume server: one manifest applied to the object through filtering, bow-out, forced apply,
    takeover pass and release sweep; and the reclaim controller that replays the last manifest. */
module Consume {
  import opened Base
  import opened Schema
  import opened ServerSideApply
  import opened Pipeline
  import opened EndState
  import BowOut
  import Ignored
  import Takeover
  import Release
  import Trees
  import TypedSpec
  import Replay

  /** API failures of one run: the first read, how many leading apply attempts, the takeover apply, the
      read before the sweep, the release applies of some managers, the final status write. Refusals by
      the API server are not failures: the object and the body decide about them. */
  datatype Faults = Faults(read: bool, attempts: nat, takeover: bool, reread: bool, release: set<string>, status: bool)

  const NO_FAULTS := Faults(false, 0, false, false, {}, false)

  /** The controller's forced apply; a refused one changes nothing. */
  function Forced(s: State, body: Vals): State {
    var answer := Patched(s, CONTROLLER, body, true);
    if answer.Some? then answer.value else s
  }

  /** The object after the normal apply was tried up to retryMax times. */
  function AfterAttempts(s: State, m: Manifest, retryMax: nat, faults: Faults): State {
    if faults.attempts < retryMax then Forced(s, NormalBody(s, m)) else s
  }

  predicate AttemptsOk(s: State, m: Manifest, retryMax: nat, faults: Faults) {
    retryMax == 0 || (faults.attempts < retryMax && Patched(s, CONTROLLER, NormalBody(s, m), true).Some?)
  }

  predicate AnyTakeoverValid(m: Manifest) {
    exists t | t in m.takeover :: ValidTakeover(m, t)
  }

  /** The object after both applies; the takeover apply does not wait for the normal one to succeed. */
  function AfterApplies(s: State, m: Manifest, retryMax: nat, faults: Faults): State {
    var a := AfterAttempts(s, m, retryMax, faults);
    if AnyTakeoverValid(m) && !faults.takeover then Forced(a, TakeoverBody(s, m)) else a
  }

  predicate TakeoverOk(s: State, m: Manifest, retryMax: nat, faults: Faults) {
    m.takeover == [] ||
    (AllTakeoversValid(m) && !faults.takeover && Patched(AfterAttempts(s, m, retryMax, faults), CONTROLLER, TakeoverBody(s, m), true).Some?)
  }

  /** The run gets past its applies. */
  predicate Applies(s: State, m: Manifest, retryMax: nat, faults: Faults) {
    && m.datacenter != "" && !faults.read
    && AttemptsOk(s, m, retryMax, faults) && TakeoverOk(s, m, retryMax, faults)
  }

  /** The run returns without error. */
  predicate Succeeds(s: State, m: Manifest, retryMax: nat, faults: Faults) {
    Applies(s, m, retryMax, faults) && !faults.status
  }

  /** The object after a run. */
  function Outcome(s: State, m: Manifest, retryMax: nat, faults: Faults, visits: seq<string>): State {
    if m.datacenter == "" || faults.read then s
    else if Applies(s, m, retryMax, faults) && !faults.reread then
      var a := AfterApplies(s, m, retryMax, faults);
      Swept(a, m, Released(a, m, faults.release, visits))
    else AfterApplies(s, m, retryMax, faults)
  }

  /** The first n entries are all valid, or all are not. */
  ghost predicate FirstAre(m: Manifest, n: nat, valid: bool)
    requires n <= |m.takeover|
  {
    forall k | 0 <= k < n :: ValidTakeover(m, m.takeover[k]) == valid
  }

  lemma AllEntries(m: Manifest)
    ensures FirstAre(m, |m.takeover|, true) <==> AllTakeoversValid(m)
    ensures FirstAre(m, |m.takeover|, false) <==> !AnyTakeoverValid(m)
  {
  }

  lemma OneMoreEntry(m: Manifest, n: nat, valid: bool)
    requires n < |m.takeover|
    ensures FirstAre(m, n + 1, valid) <==> FirstAre(m, n, valid) && ValidTakeover(m, m.takeover[n]) == valid
  {
  }

  /** The patch once the entries from n on are injected as well. */
  ghost function InjectedFrom(out: Trees.Fields, full: Trees.Fields, entries: seq<Ignored.Directive>, n: nat): Trees.Fields
    requires n <= |entries|
  {
    Takeover.InjectedAll(out, full, entries[n..])
  }

  lemma InjectEnds(out: Trees.Fields, full: Trees.Fields, entries: seq<Ignored.Directive>)
    ensures InjectedFrom(out, full, entries, 0) == Takeover.InjectedAll(out, full, entries)
    ensures InjectedFrom(out, full, entries, |entries|) == out
  {
    assert entries[0..] == entries && entries[|entries|..] == [];
  }

  lemma InjectNext(out: Trees.Fields, full: Trees.Fields, entries: seq<Ignored.Directive>, n: nat, next: Trees.Fields, known: bool)
    requires n < |entries| && (next, known) == Takeover.Injected(out, full, entries[n])
    ensures InjectedFrom(out, full, entries, n) == InjectedFrom(next, full, entries, n + 1)
  {
    assert entries[n..][0] == entries[n] && entries[n..][1..] == entries[n + 1..];
  }

  /** visits lists every local manager, and no manager twice. */
  ghost predicate VisitsAll(visits: seq<string>, a: State) {
    Distinct(visits) && forall w | w in Locals(a) :: w in visits
  }

  ghost function ManagersOf(managed: seq<BowOut.Managed>): seq<string> {
    seq(|managed|, i requires 0 <= i < |managed| => managed[i].manager)
  }

  lemma ManagersVisitAll(s: State, managed: seq<BowOut.Managed>)
    requires Lists(managed, s.claims)
    ensures VisitsAll(ManagersOf(managed), s)
  {
    forall w | w in Locals(s) ensures w in ManagersOf(managed) {
      var k :| 0 <= k < |managed| && managed[k].manager == w;
      assert ManagersOf(managed)[k] == w;
    }
  }

  lemma ManagersNext(s: State, m: Manifest, down: set<string>, managed: seq<BowOut.Managed>, i: nat)
    requires i < |managed| && forall a, b | 0 <= a < b < |managed| :: managed[a].manager != managed[b].manager
    ensures Released(s, m, down, ManagersOf(managed[..i + 1])) ==
            ReleasedNext(s, m, down, Released(s, m, down, ManagersOf(managed[..i])), managed[i].manager)
    ensures managed[i].manager !in Released(s, m, down, ManagersOf(managed[..i]))
  {
    var next := ManagersOf(managed[..i + 1]);
    assert next[..|next| - 1] == ManagersOf(managed[..i]);
    ReleasedWithin(s, m, down, ManagersOf(managed[..i]));
    assert managed[i].manager !in ManagersOf(managed[..i]);
  }

  lemma AppliesTells(s: State, m: Manifest, retryMax: nat, faults: Faults, applied: bool, tookOver: bool)
    requires m.datacenter != "" && !faults.read
    requires applied == AttemptsOk(s, m, retryMax, faults) && tookOver == TakeoverOk(s, m, retryMax, faults)
    ensures (applied && tookOver) == Applies(s, m, retryMax, faults)
  {
  }

  lemma OutcomeIs(s: State, m: Manifest, retryMax: nat, faults: Faults, visits: seq<string>, applies: bool)
    requires m.datacenter != "" && !faults.read && applies == Applies(s, m, retryMax, faults)
    ensures Outcome(s, m, retryMax, faults, visits) ==
            var a := AfterApplies(s, m, retryMax, faults);
            if applies && !faults.reread then Swept(a, m, Released(a, m, faults.release, visits)) else a
  {
  }

  class ConsumeServer {
    const api: ApiServer
    const retryMax: nat
    var inFlight: set<string>
    var lastManifests: map<string, Manifest>

    constructor (api: ApiServer, retryMax: nat)
      ensures this.api == api && this.retryMax == retryMax && inFlight == {} && lastManifests == map[]
    {
      this.api, this.retryMax := api, retryMax;
      inFlight, lastManifests := {}, map[];
    }

    method ApplyManifest(m: Manifest, faults: Faults) returns (ok: bool)
      requires InDomain(api.Object()) && Conforms(m)
      modifies this, api
      ensures ok == Succeeds(old(api.Object()), m, retryMax, faults)
      ensures exists visits :: api.Object() == Outcome(old(api.Object()), m, retryMax, faults, visits)
                && (Applies(old(api.Object()), m, retryMax, faults) && !faults.reread ==>
                      VisitsAll(visits, AfterApplies(old(api.Object()), m, retryMax, faults)))
      ensures lastManifests == if m.datacenter == "" then old(lastManifests) else old(lastManifests)[m.datacenter := m]
      ensures inFlight == if m.datacenter == "" then old(inFlight) else old(inFlight) - {m.datacenter}
    {
      ghost var s := api.Object();
      ghost var visits: seq<string> := [];
      assert m.datacenter == "" || faults.read ==> Outcome(s, m, retryMax, faults, visits) == s;
      if m.datacenter == "" {
        return false;
      }
      inFlight := inFlight + {m.datacenter};
      lastManifests := lastManifests[m.datacenter := m];
      ok := false;
      if !faults.read {
        ok := ApplyRead(m, faults);
      }
      inFlight := inFlight - {m.datacenter};
    }

    /** The run from its first successful read of the object. */
    method ApplyRead(m: Manifest, faults: Faults) returns (ok: bool)
      requires InDomain(api.Object()) && Conforms(m) && m.datacenter != "" && !faults.read
      modifies api
      ensures ok == Succeeds(old(api.Object()), m, retryMax, faults)
      ensures exists visits :: api.Object() == Outcome(old(api.Object()), m, retryMax, faults, visits)
                && (Applies(old(api.Object()), m, retryMax, faults) && !faults.reread ==>
                      VisitsAll(visits, AfterApplies(old(api.Object()), m, retryMax, faults)))
    {
      ghost var s, a := api.Object(), AfterApplies(api.Object(), m, retryMax, faults);
      ghost var visits: seq<string> := [];

      // the patch
      var order := ListServers(m.vals);
      var full := SpecFields(m.vals, order);
      var patch := ComputePatch(m, full, order);

      // forced apply, retried on failure, and the takeover pass whatever became of it
      var applied := ApplyWithRetry(m, patch, faults.attempts, s);
      var tookOver := ProcessTakeover(m, full, order, patch, faults.takeover, s);
      AppliesTells(s, m, retryMax, faults, applied, tookOver);
      if applied && tookOver && !faults.reread {
        AppliesKeepDomain(s, m, retryMax, faults);
        ReconcileLocalClaims(m, faults.release);
        visits :| VisitsAll(visits, a) && api.Object() == Swept(a, m, Released(a, m, faults.release, visits));
      }
      OutcomeIs(s, m, retryMax, faults, visits, applied && tookOver);
      ok := applied && tookOver && !faults.status;
    }

    /** Read the object and compute the apply body. */
    method ComputePatch(m: Manifest, full: Trees.Fields, ghost order: seq<string>) returns (patch: Trees.Fields)
      requires InDomain(api.Object()) && Conforms(m) && Enumerates(order, m.vals) && full == SpecFields(m.vals, order)
      ensures Flatten(patch) == NormalBody(api.Object(), m)
    {
      var live, liveOrder := api.GetSpec();
      var managed := api.GetManagedFields();
      var claimed := Ignored.CollectLocalClaimedKeys(managed);
      var active := Ignored.FilterActiveIgnored(m.ignored, claimed);
      patch := BowOut.OmitAdminOwnedFields(full, live, managed, Ignored.RulesOf(m.takeover, active));
      patch := TypedSpec.Typed(patch);
      Ignored.FilteringIsConservative(full, live, managed, m.takeover, m.ignored);
      TypedSpec.PatchIsNormalBody(api.Object(), m, live, full, (liveOrder, order), managed);
    }

    /** Try the forced apply until it goes through; a failing call and a refusal both count as a failed attempt. */
    method ApplyWithRetry(m: Manifest, patch: Trees.Fields, failing: nat, ghost s: State) returns (ok: bool)
      requires api.Object() == s && Flatten(patch) == NormalBody(s, m)
      modifies api
      ensures ok == (retryMax == 0 || (failing < retryMax && Patched(s, CONTROLLER, NormalBody(s, m), true).Some?))
      ensures api.Object() == if failing < retryMax then Forced(s, NormalBody(s, m)) else s
    {
      ok := true;
      var attempt := 0;
      while attempt < retryMax
        invariant attempt <= retryMax && ok == (attempt == 0) && api.Object() == s
        invariant attempt > failing ==> Patched(s, CONTROLLER, NormalBody(s, m), true).None?
      {
        ok := false;
        if attempt >= failing {
          ok := api.Patch(CONTROLLER, patch, true);
        }
        if ok {
          break;
        }
        attempt := attempt + 1;
      }
    }

    /** Inject all entries into the patch, and count those that fail. */
    method InjectAll(m: Manifest, full: Trees.Fields, ghost order: seq<string>, patch: Trees.Fields)
      returns (out: Trees.Fields, errs: nat)
      requires Conforms(m) && Enumerates(order, m.vals) && full == SpecFields(m.vals, order)
      ensures out == Takeover.InjectedAll(patch, full, m.takeover) && errs <= |m.takeover|
      ensures errs == 0 <==> AllTakeoversValid(m)
      ensures errs == |m.takeover| <==> !AnyTakeoverValid(m)
    {
      out, errs := patch, 0;
      InjectEnds(patch, full, m.takeover);
      for i := 0 to |m.takeover|
        invariant InjectedFrom(patch, full, m.takeover, 0) == InjectedFrom(out, full, m.takeover, i)
        invariant errs <= i && (errs == 0 <==> FirstAre(m, i, true)) && (errs == i <==> FirstAre(m, i, false))
      {
        Takeover.InjectedIffValid(out, m, order, m.takeover[i]);
        OneMoreEntry(m, i, true);
        OneMoreEntry(m, i, false);
        var next, known := Takeover.InjectTakeoverField(out, full, m.takeover[i]);
        InjectNext(out, full, m.takeover, i, next, known);
        out := next;
        if !known {
          errs := errs + 1;
        }
      }
      InjectEnds(out, full, m.takeover);
      AllEntries(m);
    }

    /** Inject every takeover target into the patch and apply it by force, unless all entries fail. */
    method ProcessTakeover(m: Manifest, full: Trees.Fields, ghost order: seq<string>, patch: Trees.Fields, fault: bool, ghost s: State)
      returns (ok: bool)
      requires Conforms(m) && Enumerates(order, m.vals) && full == SpecFields(m.vals, order)
      requires Flatten(patch) == NormalBody(s, m)
      modifies api
      ensures ok == (m.takeover == [] || (AllTakeoversValid(m) && !fault && Patched(old(api.Object()), CONTROLLER, TakeoverBody(s, m), true).Some?))
      ensures api.Object() == if AnyTakeoverValid(m) && !fault then Forced(old(api.Object()), TakeoverBody(s, m)) else old(api.Object())
    {
      if |m.takeover| == 0 {
        return true;
      }
      var out, errs := InjectAll(m, full, order, patch);
      if errs == |m.takeover| || fault {
        return false;
      }
      forall p | WfSlot(p) ensures Trees.At(Trees.Obj(patch), Keys(p)) == Get(NormalBody(s, m), p) {
        FlattenReads(patch, p);
      }
      Takeover.InjectedIsTakeoverBody(s, m, patch, order);
      ok := api.Patch(CONTROLLER, out, true);
      ok := ok && errs == 0;
    }

    /** Re-apply, as each local manager, the claims it is to keep; an apply that fails or is refused is skipped. */
    method ReconcileLocalClaims(m: Manifest, down: set<string>)
      requires InDomain(api.Object())
      modifies api
      ensures exists visits :: VisitsAll(visits, old(api.Object()))
                && api.Object() == Swept(old(api.Object()), m, Released(old(api.Object()), m, down, visits))
    {
      ghost var s := api.Object();
      var live, order := api.GetSpec();
      var managed := api.GetManagedFields();
      var exclude := Release.IndexTakeovers(m.takeover);
      NothingSwept(s, m);
      assert ManagersOf(managed[..0]) == [];
      for i := 0 to |managed|
        invariant api.Object() == Swept(s, m, Released(s, m, down, ManagersOf(managed[..i])))
      {
        ManagersNext(s, m, down, managed, i);
        ReleaseAsManager(m, managed[i], down, live, exclude, s, order, Released(s, m, down, ManagersOf(managed[..i])));
      }
      assert managed[..|managed|] == managed;
      ManagersVisitAll(s, managed);
    }

    /** Re-apply one manager's reconstructed claims in that manager's name, without force. */
    method ReleaseAsManager(m: Manifest, entry: BowOut.Managed, down: set<string>, live: Trees.Fields, exclude: Release.Excluded,
        ghost s: State, ghost order: seq<string>, ghost done: set<string>)
      requires InDomain(s) && api.Object() == Swept(s, m, done)
      requires entry.manager in s.claims && entry.manager !in done && entry.spec == Some(ClaimTree(s.claims[entry.manager]))
      requires Enumerates(order, s.vals) && live == SpecFields(s.vals, order)
      requires forall server, f :: f in Release.ExcludedOf(exclude, server) <==> Ignored.Directive(server, f) in m.takeover
      modifies api
      ensures api.Object() == Swept(s, m, ReleasedNext(s, m, down, done, entry.manager))
    {
      if "local:" <= entry.manager && entry.spec.Some? {
        var newSpec, touched := Release.ReconstructApplyExcluding(live, entry.spec.value, exclude);
        Release.RebuiltIsSweepBody(s, m, entry.manager, order, exclude, newSpec);
        if entry.manager !in down {
          SweepStep(s, m, done, entry.manager);
          var released := api.Patch(entry.manager, newSpec, false);
        }
      }
    }

    /** The reclaim controller's reaction to a released claim; replayed tells whether it replayed. */
    method Reclaim(name: string, faults: Faults) returns (replayed: bool, ok: bool)
      requires InDomain(api.Object())
      requires forall n | n in lastManifests :: Conforms(lastManifests[n]) && lastManifests[n].datacenter == n
      modifies this, api
      ensures replayed == (name !in old(inFlight) && name in old(lastManifests))
      ensures replayed ==> ok == Succeeds(old(api.Object()), old(lastManifests)[name], retryMax, faults)
      ensures !replayed ==> api.Object() == old(api.Object())
      ensures replayed ==> exists visits ::
                api.Object() == Outcome(old(api.Object()), old(lastManifests)[name], retryMax, faults, visits)
      ensures lastManifests == old(lastManifests) && inFlight == old(inFlight)
    {
      replayed, ok := false, true;
      if name !in inFlight && name in lastManifests {
        replayed := true;
        ok := ApplyManifest(lastManifests[name], faults);
      }
    }
  }

  lemma ForcedKeepsDomain(s: State, body: Vals)
    requires InDomain(s) && WfVals(body)
    ensures InDomain(Forced(s, body)) && (Complete(s.vals) ==> Complete(Forced(s, body).vals))
  {
    Replay.ForcedApplyKeepsDomain(s, body);
  }

  lemma AppliesKeepDomain(s: State, m: Manifest, retryMax: nat, faults: Faults)
    requires InDomain(s) && Conforms(m)
    ensures InDomain(AfterApplies(s, m, retryMax, faults))
    ensures Complete(s.vals) ==> Complete(AfterApplies(s, m, retryMax, faults).vals)
  {
    BodiesWf(s, m);
    ForcedKeepsDomain(s, NormalBody(s, m));
    ForcedKeepsDomain(AfterAttempts(s, m, retryMax, faults), TakeoverBody(s, m));
  }

  /** Every run, whatever fails or is refused in it, keeps the object well formed, within the domain and
      complete. */
  lemma OutcomeKeepsDomain(s: State, m: Manifest, retryMax: nat, faults: Faults, visits: seq<string>)
    requires InDomain(s) && Complete(s.vals) && Conforms(m)
    ensures InDomain(Outcome(s, m, retryMax, faults, visits)) && Complete(Outcome(s, m, retryMax, faults, visits).vals)
  {
    AppliesKeepDomain(s, m, retryMax, faults);
    SweepKeepsDomain(AfterApplies(s, m, retryMax, faults), m, faults.release, visits);
    assert Outcome(s, m, retryMax, faults, visits) == s
        || Outcome(s, m, retryMax, faults, visits) == AfterApplies(s, m, retryMax, faults)
        || Outcome(s, m, retryMax, faults, visits) == Swept(AfterApplies(s, m, retryMax, faults), m,
                                                            Released(AfterApplies(s, m, retryMax, faults), m, faults.release, visits));
  }

  lemma SweepKeepsDomain(a: State, m: Manifest, down: set<string>, visits: seq<string>)
    requires InDomain(a) && Complete(a.vals)
    ensures InDomain(Swept(a, m, Released(a, m, down, visits))) && Complete(Swept(a, m, Released(a, m, down, visits)).vals)
  {
    Replay.SweptInDomain(a, m, Released(a, m, down, visits));
    ReleasedComplete(a, m, down, visits);
  }

  // ----- accepted and refused runs

  /** After the applies of a run that gets past them, the object is what both applies make of it. */
  lemma AppliedRun(s: State, m: Manifest, retryMax: nat, faults: Faults)
    requires retryMax > 0 && Applies(s, m, retryMax, faults)
    ensures AfterApplies(s, m, retryMax, faults) == AfterTakeover(s, m)
  {
    if m.takeover != [] {
      assert m.takeover[0] in m.takeover;
    }
  }

  /** Without failing calls and with valid takeover entries, a run succeeds exactly when the API server
      accepts the manifest on this object; a refused run changes nothing, whatever else fails. */
  lemma SucceedsIffAccepted(s: State, m: Manifest, retryMax: nat, faults: Faults, visits: seq<string>)
    requires InDomain(s) && Conforms(m) && retryMax > 0
    ensures m.datacenter != "" && AllTakeoversValid(m) ==> (Succeeds(s, m, retryMax, NO_FAULTS) <==> Accepts(s, m))
    ensures !Accepts(s, m) ==> !Succeeds(s, m, retryMax, faults) && Outcome(s, m, retryMax, faults, visits) == s
  {
    AcceptedIff(s, m);
    if Accepts(s, m) {
      AcceptedSucceeds(s, m, retryMax);
    } else {
      RefusedFails(s, m, retryMax, faults, visits);
      RefusedFails(s, m, retryMax, NO_FAULTS, visits);
    }
  }

  lemma AcceptedSucceeds(s: State, m: Manifest, retryMax: nat)
    requires retryMax > 0 && Patched(s, CONTROLLER, NormalBody(s, m), true).Some?
    requires Patched(AfterNormal(s, m), CONTROLLER, TakeoverBody(s, m), true).Some?
    ensures m.datacenter != "" && AllTakeoversValid(m) ==> Succeeds(s, m, retryMax, NO_FAULTS)
  {
    assert AfterAttempts(s, m, retryMax, NO_FAULTS) == AfterNormal(s, m);
  }

  lemma RefusedFails(s: State, m: Manifest, retryMax: nat, faults: Faults, visits: seq<string>)
    requires retryMax > 0 && Patched(s, CONTROLLER, NormalBody(s, m), true).None?
    requires Patched(s, CONTROLLER, TakeoverBody(s, m), true).None?
    ensures !Succeeds(s, m, retryMax, faults) && Outcome(s, m, retryMax, faults, visits) == s
  {
    assert AfterAttempts(s, m, retryMax, faults) == s && !AttemptsOk(s, m, retryMax, faults);
    assert AfterApplies(s, m, retryMax, faults) == s;
  }

  /** The calls that a run's outcome depends on go through. */
  predicate Clean(faults: Faults, retryMax: nat) {
    !faults.read && faults.attempts < retryMax && !faults.takeover && !faults.reread && faults.release == {}
  }

  /** A manifest that the pipeline can carry out completely on this object. */
  ghost predicate CarriedOut(s: State, m: Manifest) {
    m.datacenter != "" && AllTakeoversValid(m) && Covers(m, s)
  }

  /** A run with a covering manifest and valid takeover entries, in which the calls go through, reaches
      Result, in whatever order the sweep visits the managers. */
  lemma CleanRun(s: State, m: Manifest, retryMax: nat, faults: Faults, visits: seq<string>)
    requires InDomain(s) && Conforms(m) && CarriedOut(s, m) && Clean(faults, retryMax)
    requires VisitsAll(visits, AfterTakeover(s, m))
    ensures Applies(s, m, retryMax, faults) && Outcome(s, m, retryMax, faults, visits) == Result(s, m)
  {
    CoveredIsAccepted(s, m);
    AcceptedIff(s, m);
    AppliedRun(s, m, retryMax, faults);
    var a := AfterTakeover(s, m);
    forall done | done <= Locals(a) ensures Complete(Swept(a, m, done).vals) {
      CoveredSweepIsComplete(s, m, done);
    }
    AllReleased(a, m, {}, visits);
    assert (set w | w in visits && w in Locals(a)) - {} == Locals(a);
  }

  /** The takeover apply alone reaches what both applies reach: a takeover is not lost when every attempt
      of the normal apply fails. */
  lemma TakeoverSurvivesFailedApply(s: State, m: Manifest, retryMax: nat, faults: Faults)
    requires InDomain(s) && Conforms(m) && LeafTakeovers(m) && AnyTakeoverValid(m) && !faults.takeover && Accepts(s, m)
    ensures AfterApplies(s, m, retryMax, faults) == AfterNormal(s, m)
  {
    TakeoverPassAddsNothing(s, m);
    AcceptedIff(s, m);
    ReapplyIsIdentity(s, CONTROLLER, NormalBody(s, m));
  }

  // ----- every run that gets past its applies

  /** The managers the sweep of a run releases when it visits managers in the given order. */
  function ReleasedIn(s: State, m: Manifest, retryMax: nat, faults: Faults, visits: seq<string>): set<string> {
    if faults.reread then {} else Released(AfterApplies(s, m, retryMax, faults), m, faults.release, visits)
  }

  /** A run that gets past its applies ends as the end-state theorems say for the managers it released,
      also when the read before the sweep fails and when releases fail or are refused. */
  lemma OutcomeIsAfter(s: State, m: Manifest, retryMax: nat, faults: Faults, visits: seq<string>)
    requires InDomain(s) && Conforms(m) && retryMax > 0
    ensures OnlyLocal(ReleasedIn(s, m, retryMax, faults, visits))
    ensures Applies(s, m, retryMax, faults) ==>
              Outcome(s, m, retryMax, faults, visits) == After(s, m, ReleasedIn(s, m, retryMax, faults, visits))
  {
    ReleasedWithin(AfterApplies(s, m, retryMax, faults), m, faults.release, visits);
    if Applies(s, m, retryMax, faults) {
      AppliedRun(s, m, retryMax, faults);
      NobodyReleased(s, m);
    }
  }

  lemma NobodyReleased(s: State, m: Manifest)
    requires InDomain(s) && Conforms(m)
    ensures After(s, m, {}) == AfterTakeover(s, m)
  {
    Replay.AppliesInDomain(s, m);
    NothingSwept(AfterTakeover(s, m), m);
  }

  /** A leaf of the manifest that no local manager claims ends at its intent under the controller alone. */
  lemma UnclaimedAfterRun(s: State, m: Manifest, retryMax: nat, faults: Faults, visits: seq<string>, p: Slot)
    requires InDomain(s) && Conforms(m) && retryMax > 0
    requires p in m.vals && !LocallyClaimed(s, p)
    ensures var t := Outcome(s, m, retryMax, faults, visits);
            Applies(s, m, retryMax, faults) ==>
            Get(t.vals, p) == Some(m.vals[p]) && p in Owned(t, CONTROLLER) && !LocallyClaimed(t, p)
  {
    OutcomeIsAfter(s, m, retryMax, faults, visits);
    UnclaimedFollowsIntent(s, m, ReleasedIn(s, m, retryMax, faults, visits), p);
  }

  /** A bowed-out leaf keeps its value and every local claim, and the controller has none, unless the leaf is
      required or a struct-level takeover entry covers it. */
  lemma OverrideAfterRun(s: State, m: Manifest, retryMax: nat, faults: Faults, visits: seq<string>, p: Slot)
    requires InDomain(s) && Conforms(m) && retryMax > 0
    requires BowedOut(s, m, p) && !Required(p) && !StructTakeover(m, p)
    ensures var t := Outcome(s, m, retryMax, faults, visits);
            Applies(s, m, retryMax, faults) ==>
            && Get(t.vals, p) == Get(s.vals, p) != None && p !in Owned(t, CONTROLLER)
            && forall w | BowOut.IsLocal(w) :: p in Owned(t, w) <==> p in Owned(s, w)
  {
    OutcomeIsAfter(s, m, retryMax, faults, visits);
    OverrideSurvives(s, m, ReleasedIn(s, m, retryMax, faults, visits), p);
  }

  /** A claimed leaf that agrees with its intent, and is neither ignored nor a takeover target, is shared. */
  lemma AgreementAfterRun(s: State, m: Manifest, retryMax: nat, faults: Faults, visits: seq<string>, p: Slot)
    requires InDomain(s) && Conforms(m) && retryMax > 0
    requires p in m.vals && p != IdSlot(p.server) && p != TagSlot(p.server) && !IsTakeover(m, p)
    requires LocallyClaimed(s, p) && Get(s.vals, p) == Some(m.vals[p]) && BowOut.TakeoverKey(p.server, p.field) !in Ignored.DirectiveKeys(m.ignored)
    ensures var t := Outcome(s, m, retryMax, faults, visits);
            Applies(s, m, retryMax, faults) ==>
            && Get(t.vals, p) == Some(m.vals[p]) && p in Owned(t, CONTROLLER)
            && forall w | BowOut.IsLocal(w) :: p in Owned(t, w) <==> p in Owned(s, w)
  {
    OutcomeIsAfter(s, m, retryMax, faults, visits);
    AgreementIsShared(s, m, ReleasedIn(s, m, retryMax, faults, visits), p);
  }

  /** A takeover target of the manifest ends at its intent under the controller, whatever becomes of the
      sweep, and no manager whose release went through claims it any more. */
  lemma TakeoverAfterRun(s: State, m: Manifest, retryMax: nat, faults: Faults, visits: seq<string>, p: Slot)
    requires InDomain(s) && Conforms(m) && retryMax > 0
    requires IsTakeover(m, p) && p in m.vals && p != IdSlot(p.server)
    ensures var t := Outcome(s, m, retryMax, faults, visits);
            Applies(s, m, retryMax, faults) ==>
            && Get(t.vals, p) == Some(m.vals[p]) && p in Owned(t, CONTROLLER)
            && forall w | w in ReleasedIn(s, m, retryMax, faults, visits) :: p !in Owned(t, w)
  {
    OutcomeIsAfter(s, m, retryMax, faults, visits);
    TakeoverTargetHolds(s, m, ReleasedIn(s, m, retryMax, faults, visits), p);
  }
}
