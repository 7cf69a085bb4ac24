/** Objects and manifests on which the pipeline does less than its comments promise: one server x, and
    local managers by any names. */
module Failures {
  import opened Base
  import opened Schema
  import opened ServerSideApply
  import opened Pipeline
  import opened EndState
  import BowOut
  import Consume
  import Ignored
  import Trees

  /** The leaves the schema requires of server x. */
  function Whole(x: string): set<Slot> {
    {IdSlot(x), TagSlot(x), HostnameSlot(x), OobIpSlot(x), IdracIdSlot(x)}
  }

  function LeafValue(p: Slot, tag: string): Trees.Scalar {
    if p == IdSlot(p.server) then Trees.Str(p.server) else if p == TagSlot(p.server) then Trees.Str(tag) else Trees.Str("v")
  }

  function ServerLeaves(x: string, tag: string): Vals {
    map p | p in Whole(x) :: LeafValue(p, tag)
  }

  lemma WholeIsWf(x: string, p: Slot)
    requires x != "" && p in Whole(x)
    ensures p.server == x && WfSlot(p) && (p.group == "" || p.group == IDRAC) && Needs(p) <= Whole(x)
  {
  }

  lemma LeavesWf(x: string, tag: string)
    requires x != ""
    ensures WfVals(ServerLeaves(x, tag)) && Complete(ServerLeaves(x, tag))
  {
    forall p | p in ServerLeaves(x, tag)
      ensures p.server == x && WfSlot(p) && (p.group == "" || p.group == IDRAC) && Needs(p) <= Whole(x)
    {
      WholeIsWf(x, p);
    }
  }

  /** An object of server x with two owners. */
  function TwoOwners(vals: Vals, a: string, sa: set<Slot>, b: string, sb: set<Slot>): State {
    State(vals, map[a := sa, b := sb])
  }

  lemma OwnersAre(vals: Vals, a: string, sa: set<Slot>, b: string, sb: set<Slot>)
    requires a != b
    ensures forall w :: Owned(TwoOwners(vals, a, sa, b, sb), w) == if w == a then sa else if w == b then sb else {}
    ensures TwoOwners(vals, a, sa, b, sb).claims.Keys == {a, b}
  {
  }

  /** s has the owners a and b, who own sa and sb. */
  ghost predicate OwnedBy(s: State, x: string, a: string, sa: set<Slot>, b: string, sb: set<Slot>) {
    && a != b && s.claims.Keys == {a, b} && Owned(s, a) == sa && Owned(s, b) == sb
    && (forall w | w != a && w != b :: Owned(s, w) == {})
    && s.vals.Keys == sa + sb && IdSlot(x) in sa && IdSlot(x) in sb
    && forall p | p in s.vals :: p.server == x
  }

  lemma OwnedByInDomain(s: State, x: string, a: string, sa: set<Slot>, b: string, sb: set<Slot>)
    requires OwnedBy(s, x, a, sa, b, sb) && WfVals(s.vals)
    requires (a == CONTROLLER || BowOut.IsLocal(a)) && BowOut.IsLocal(b)
    requires forall p | p in s.vals :: p.group == "" || p.group == IDRAC
    ensures InDomain(s)
  {
    forall p | p in s.vals ensures HasOwner(s, p) {
      assert p in Owned(s, a) || p in Owned(s, b);
    }
    forall w, p | p in Owned(s, w) ensures p in s.vals && IdSlot(p.server) in Owned(s, w) {
      assert w == a || w == b;
    }
    forall w | w in s.claims ensures s.claims[w] != {} && (w == CONTROLLER || BowOut.IsLocal(w)) && s.claims[w] <= s.vals.Keys {
      assert s.claims[w] == Owned(s, w) && (w == a || w == b);
    }
  }

  lemma ClaimedByLocal(s: State, x: string, a: string, sa: set<Slot>, b: string, sb: set<Slot>, p: Slot)
    requires OwnedBy(s, x, a, sa, b, sb) && a == CONTROLLER && BowOut.IsLocal(b)
    ensures LocallyClaimed(s, p) <==> p in sb
  {
    ControllerIsNotLocal();
    LocallyClaimedMeans(s, p);
  }

  // ----- a blanked override

  /** An operator has overridden the service tag; the controller owns the other leaves. */
  function TagOverridden(x: string, admin: string): State {
    TwoOwners(ServerLeaves(x, "LOCAL"), CONTROLLER, Whole(x) - {TagSlot(x)}, admin, {IdSlot(x), TagSlot(x)})
  }

  function TagIntent(x: string): Manifest {
    Manifest("dc", ServerLeaves(x, "CLOUD"), [], [])
  }

  ghost predicate IsTagOverridden(s: State, x: string, admin: string) {
    && OwnedBy(s, x, CONTROLLER, Whole(x) - {TagSlot(x)}, admin, {IdSlot(x), TagSlot(x)})
    && s.vals == ServerLeaves(x, "LOCAL") && InDomain(s) && Complete(s.vals)
  }

  lemma TagOverriddenIs(x: string, admin: string)
    requires x != "" && BowOut.IsLocal(admin)
    ensures IsTagOverridden(TagOverridden(x, admin), x, admin)
  {
    var s := TagOverridden(x, admin);
    ControllerIsNotLocal();
    LeavesWf(x, "LOCAL");
    OwnersAre(s.vals, CONTROLLER, Whole(x) - {TagSlot(x)}, admin, {IdSlot(x), TagSlot(x)});
    assert Whole(x) == Whole(x) - {TagSlot(x)} + {IdSlot(x), TagSlot(x)};
    forall p | p in s.vals ensures p.server == x && (p.group == "" || p.group == IDRAC) {
      WholeIsWf(x, p);
    }
    assert IdSlot(x) != TagSlot(x);
    OwnedByInDomain(s, x, CONTROLLER, Whole(x) - {TagSlot(x)}, admin, {IdSlot(x), TagSlot(x)});
  }

  lemma IntentConforms(m: Manifest, x: string, tag: string)
    requires x != "" && m.vals == ServerLeaves(x, tag)
    ensures Conforms(m)
  {
    LeavesWf(x, tag);
    forall p | p in m.vals ensures p.server == x && p.group != MAINTENANCE {
      WholeIsWf(x, p);
    }
  }

  lemma WholeCovers(m: Manifest, s: State, x: string)
    requires Whole(x) <= m.vals.Keys && forall p | p in m.vals :: p.server == x
    requires forall w, p | w in s.claims && p in s.claims[w] :: p.server == x
    ensures Covers(m, s)
  {
  }

  lemma TagIsBowedOut(s: State, m: Manifest, x: string, admin: string)
    requires x != "" && IsTagOverridden(s, x, admin) && BowOut.IsLocal(admin) && m == TagIntent(x)
    ensures Conforms(m) && BowedOut(s, m, TagSlot(x))
  {
    IntentConforms(m, x, "CLOUD");
    ClaimedByLocal(s, x, CONTROLLER, Whole(x) - {TagSlot(x)}, admin, {IdSlot(x), TagSlot(x)}, TagSlot(x));
    TagsDiffer(x);
    assert Ignored.DirectiveKeys([]) == {};
  }

  lemma TagsDiffer(x: string)
    ensures TagSlot(x) in Whole(x) && TagSlot(x) != IdSlot(x)
    ensures Get(ServerLeaves(x, "LOCAL"), TagSlot(x)) == Some(Trees.Str("LOCAL"))
    ensures Get(ServerLeaves(x, "CLOUD"), TagSlot(x)) == Some(Trees.Str("CLOUD"))
  {
  }

  lemma TagIsCovered(s: State, m: Manifest, x: string, admin: string)
    requires x != "" && IsTagOverridden(s, x, admin) && m == TagIntent(x)
    ensures Covers(m, s)
  {
    forall p | p in m.vals ensures p.server == x {
      WholeIsWf(x, p);
    }
    forall w, p | w in s.claims && p in s.claims[w] ensures p.server == x {
      assert p in Owned(s, w) && p in s.vals;
    }
    WholeCovers(m, s, x);
  }

  /** The API server accepts the run, and the run replaces the operator's tag by the empty string and
      evicts the operator, so the tag is neither the override nor the intent. */
  lemma BlankedTag(x: string, admin: string)
    requires x != "" && BowOut.IsLocal(admin)
    ensures var s, m := TagOverridden(x, admin), TagIntent(x);
            && InDomain(s) && Complete(s.vals) && Conforms(m) && Accepts(s, m)
            && Get(Result(s, m).vals, TagSlot(x)) == Some(Trees.Str("")) && !LocallyClaimed(Result(s, m), TagSlot(x))
  {
    var s, m := TagOverridden(x, admin), TagIntent(x);
    TagOverriddenIs(x, admin);
    TagIsBowedOut(s, m, x, admin);
    TagIsCovered(s, m, x, admin);
    CoveredIsAccepted(s, m);
    TagIsBlanked(s, m, x);
  }

  lemma TagIsBlanked(s: State, m: Manifest, x: string)
    requires InDomain(s) && Conforms(m) && BowedOut(s, m, TagSlot(x))
    ensures Get(Result(s, m).vals, TagSlot(x)) == Some(Trees.Str("")) && !LocallyClaimed(Result(s, m), TagSlot(x))
  {
    EveryoneIsLocal(s, m);
    OverrideSurvivesIff(s, m, Everyone(s, m), TagSlot(x));
    ClaimedAfter(s, m, TagSlot(x));
  }

  // ----- a departed server

  /** A manifest that no longer has any server. */
  function Emptied(): Manifest {
    Manifest("dc", map[], [], [])
  }

  /** Server x has left the manifest while the operator still claims its tag: the API server refuses the
      dispatch, and the object stays as it is. */
  lemma DepartedServer(x: string, admin: string, retryMax: nat, faults: Consume.Faults, visits: seq<string>)
    requires x != "" && BowOut.IsLocal(admin) && retryMax > 0
    ensures var s, m := TagOverridden(x, admin), Emptied();
            && InDomain(s) && Complete(s.vals) && Conforms(m) && !Accepts(s, m)
            && !Consume.Succeeds(s, m, retryMax, faults) && Consume.Outcome(s, m, retryMax, faults, visits) == s
  {
    var s, m := TagOverridden(x, admin), Emptied();
    TagOverriddenIs(x, admin);
    HostnameUnclaimed(s, x, admin);
    DepartedServerBlocks(s, m, TagSlot(x));
    Consume.SucceedsIffAccepted(s, m, retryMax, faults, visits);
  }

  lemma HostnameUnclaimed(s: State, x: string, admin: string)
    requires IsTagOverridden(s, x, admin) && BowOut.IsLocal(admin)
    ensures LocallyClaimed(s, TagSlot(x)) && !LocallyClaimed(s, HostnameSlot(x)) && HostnameSlot(x) in Needs(TagSlot(x))
  {
    ClaimedByLocal(s, x, CONTROLLER, Whole(x) - {TagSlot(x)}, admin, {IdSlot(x), TagSlot(x)}, TagSlot(x));
    ClaimedByLocal(s, x, CONTROLLER, Whole(x) - {TagSlot(x)}, admin, {IdSlot(x), TagSlot(x)}, HostnameSlot(x));
  }

  // ----- a struct-level takeover

  function SshSlot(x: string): Slot {
    Slot(x, IDRAC, "sshEnabled")
  }

  function WithSsh(x: string, on: bool): Vals {
    ServerLeaves(x, "T1") + map[SshSlot(x) := Trees.Bool(on)]
  }

  /** An operator has switched ssh on. */
  function SshOverridden(x: string, admin: string): State {
    TwoOwners(WithSsh(x, true), CONTROLLER, Whole(x), admin, {IdSlot(x), SshSlot(x)})
  }

  /** The manifest wants it off, and a takeover entry names the whole iDRAC block. */
  function SshIntent(x: string): Manifest {
    Manifest("dc", WithSsh(x, false), [Ignored.Directive(x, IDRAC)], [])
  }

  lemma SshWf(x: string, on: bool)
    requires x != ""
    ensures WfVals(WithSsh(x, on)) && Complete(WithSsh(x, on)) && WithSsh(x, on).Keys == Whole(x) + {SshSlot(x)}
    ensures forall p | p in WithSsh(x, on) :: p.server == x && (p.group == "" || p.group == IDRAC)
  {
    var vals := WithSsh(x, on);
    LeavesWf(x, "T1");
    SshIsNew(x);
    forall p | p in vals ensures p.server == x && WfSlot(p) && (p.group == "" || p.group == IDRAC) && Needs(p) <= vals.Keys {
      if p != SshSlot(x) {
        WholeIsWf(x, p);
      }
    }
    forall p | p in vals ensures IdSlot(p.server) in vals && vals[IdSlot(p.server)] == Trees.Str(p.server) {
      assert IdSlot(x) in ServerLeaves(x, "T1");
    }
  }

  lemma SshIsNew(x: string)
    requires x != ""
    ensures SshSlot(x) !in Whole(x) && WfSlot(SshSlot(x)) && !Required(SshSlot(x)) && Needs(SshSlot(x)) <= Whole(x)
  {
    assert "sshEnabled"[0] == 's' && "orbId"[0] == 'o';
  }

  ghost predicate IsSshOverridden(s: State, x: string, admin: string) {
    && OwnedBy(s, x, CONTROLLER, Whole(x), admin, {IdSlot(x), SshSlot(x)})
    && s.vals == WithSsh(x, true) && InDomain(s) && Complete(s.vals)
  }

  lemma SshOverriddenIs(x: string, admin: string)
    requires x != "" && BowOut.IsLocal(admin)
    ensures IsSshOverridden(SshOverridden(x, admin), x, admin)
  {
    var s := SshOverridden(x, admin);
    ControllerIsNotLocal();
    SshWf(x, true);
    OwnersAre(s.vals, CONTROLLER, Whole(x), admin, {IdSlot(x), SshSlot(x)});
    assert Whole(x) + {SshSlot(x)} == Whole(x) + {IdSlot(x), SshSlot(x)};
    OwnedByInDomain(s, x, CONTROLLER, Whole(x), admin, {IdSlot(x), SshSlot(x)});
  }

  lemma SshConforms(m: Manifest, x: string)
    requires x != "" && m.vals == WithSsh(x, false)
    ensures Conforms(m)
  {
    SshWf(x, false);
  }

  lemma SshNotATarget(x: string)
    ensures BowOut.TakeoverKey(x, "sshEnabled") !in Ignored.DirectiveKeys([Ignored.Directive(x, IDRAC)])
  {
    assert "sshEnabled"[0] != IDRAC[0];
    if BowOut.TakeoverKey(x, "sshEnabled") == BowOut.TakeoverKey(x, IDRAC) {
      Ignored.TakeoverKeyInjective(x, "sshEnabled", x, IDRAC);
    }
  }

  lemma SshIsBowedOut(s: State, m: Manifest, x: string, admin: string)
    requires x != "" && IsSshOverridden(s, x, admin) && BowOut.IsLocal(admin) && m == SshIntent(x)
    ensures BowedOut(s, m, SshSlot(x)) && LocallyClaimed(s, SshSlot(x)) && StructTakeover(m, SshSlot(x)) && !IsTakeover(m, SshSlot(x))
    ensures Get(s.vals, SshSlot(x)) == Some(Trees.Bool(true)) && Get(m.vals, SshSlot(x)) == Some(Trees.Bool(false))
  {
    ClaimedByLocal(s, x, CONTROLLER, Whole(x), admin, {IdSlot(x), SshSlot(x)}, SshSlot(x));
    SshNotATarget(x);
    NotATakeover(m, SshSlot(x));
    assert Ignored.Directive(x, IDRAC) in m.takeover;
  }

  /** The normal apply leaves the operator's ssh alone, and the takeover apply overrides it after all. */
  lemma ReinjectedSsh(x: string, admin: string)
    requires x != "" && BowOut.IsLocal(admin)
    ensures var s, m := SshOverridden(x, admin), SshIntent(x);
            && InDomain(s) && Complete(s.vals) && Conforms(m) && TakeoverReinjects(s, m)
            && Get(AfterNormal(s, m).vals, SshSlot(x)) == Some(Trees.Bool(true))
            && Get(Result(s, m).vals, SshSlot(x)) == Some(Trees.Bool(false))
            && !LocallyClaimed(Result(s, m), SshSlot(x))
  {
    var s, m := SshOverridden(x, admin), SshIntent(x);
    SshOverriddenIs(x, admin);
    SshConforms(m, x);
    SshIsBowedOut(s, m, x, admin);
    SshIsNew(x);
    SshReinjected(s, m, SshSlot(x));
  }

  lemma SshReinjected(s: State, m: Manifest, p: Slot)
    requires InDomain(s) && Conforms(m) && BowedOut(s, m, p) && !Required(p) && StructTakeover(m, p) && !IsTakeover(m, p)
    requires LocallyClaimed(s, p) && Get(s.vals, p) != Get(m.vals, p)
    ensures TakeoverReinjects(s, m) && Get(AfterNormal(s, m).vals, p) == Get(s.vals, p)
    ensures Get(Result(s, m).vals, p) == Get(m.vals, p) && !LocallyClaimed(Result(s, m), p)
  {
    AppliedVals(s, CONTROLLER, NormalBody(s, m), p);
    OthersAreLocal(s, p);
    EveryoneIsLocal(s, m);
    StructTakeoverHolds(s, m, Everyone(s, m), p);
  }

  // ----- a sweep whose result depends on its order

  /** Two operators each claim every leaf of a server that has left the manifest. */
  function SharedServer(x: string, v: string, w: string): State {
    TwoOwners(ServerLeaves(x, "T1"), v, Whole(x), w, Whole(x))
  }

  ghost predicate IsShared(s: State, x: string, v: string, w: string) {
    && OwnedBy(s, x, v, Whole(x), w, Whole(x)) && InDomain(s) && Complete(s.vals)
    && BowOut.IsLocal(v) && BowOut.IsLocal(w) && Locals(s) == {v, w}
  }

  lemma SharedServerIs(x: string, v: string, w: string)
    requires x != "" && v != w && BowOut.IsLocal(v) && BowOut.IsLocal(w)
    ensures IsShared(SharedServer(x, v, w), x, v, w)
  {
    var s := SharedServer(x, v, w);
    LeavesWf(x, "T1");
    OwnersAre(s.vals, v, Whole(x), w, Whole(x));
    forall p | p in s.vals ensures p.server == x && (p.group == "" || p.group == IDRAC) {
      WholeIsWf(x, p);
    }
    OwnedByInDomain(s, x, v, Whole(x), w, Whole(x));
  }

  lemma SharedIsSymmetric(s: State, x: string, v: string, w: string)
    requires IsShared(s, x, v, w)
    ensures IsShared(s, x, w, v)
  {
  }

  /** While one of the two keeps its claims, the entry stays complete. */
  lemma OneKeepsAll(s: State, m: Manifest, x: string, v: string, w: string)
    requires IsShared(s, x, v, w)
    ensures Complete(Swept(s, m, {v}).vals)
  {
    forall p ensures Get(Swept(s, m, {v}).vals, p) == Get(s.vals, p) {
      SweptVals(s, m, {v}, p);
      if p in s.vals {
        assert p in OwnedSwept(s, m, {v}, w);
      }
    }
    SameLookups(Swept(s, m, {v}).vals, s.vals);
  }

  lemma KeptOfWhole(m: Manifest, x: string)
    requires m.takeover == []
    ensures HostnameSlot(x) in Kept(m, Whole(x)) && TagSlot(x) !in Kept(m, Whole(x)) && TagSlot(x) in Needs(HostnameSlot(x))
  {
    assert HostnameSlot(x) in Whole(x) && Meaningful(m, HostnameSlot(x));
  }

  /** When both are released, nobody holds the service tag any more. */
  lemma BothLoseTag(s: State, m: Manifest, x: string, v: string, w: string)
    requires IsShared(s, x, v, w) && m.takeover == []
    ensures !Complete(Swept(s, m, {v, w}).vals)
  {
    var done := {v, w};
    KeptOfWhole(m, x);
    SweptVals(s, m, done, HostnameSlot(x));
    SweptVals(s, m, done, TagSlot(x));
    assert HostnameSlot(x) in OwnedSwept(s, m, done, v);
    forall u ensures TagSlot(x) !in OwnedSwept(s, m, done, u) {
      TagGivenUp(s, m, x, v, w, u);
    }
    MissingNeed(Swept(s, m, done).vals, HostnameSlot(x), TagSlot(x));
  }

  lemma TagGivenUp(s: State, m: Manifest, x: string, v: string, w: string, u: string)
    requires OwnedBy(s, x, v, Whole(x), w, Whole(x)) && TagSlot(x) !in Kept(m, Whole(x))
    ensures TagSlot(x) !in OwnedSwept(s, m, {v, w}, u)
  {
  }

  lemma MissingNeed(vals: Vals, p: Slot, q: Slot)
    requires p in vals && q in Needs(p) && q !in vals
    ensures !Complete(vals)
  {
  }

  /** Whoever comes first is released, and the other one is refused. */
  lemma FirstIsReleased(s: State, m: Manifest, x: string, v: string, w: string)
    requires IsShared(s, x, v, w) && m.takeover == []
    ensures Released(s, m, {}, [v, w]) == {v}
  {
    assert [v, w][..1] == [v] && [v][..0] == [];
    assert {} + {v} == {v} && {v} + {w} == {v, w};
    OneKeepsAll(s, m, x, v, w);
    BothLoseTag(s, m, x, v, w);
    assert Released(s, m, {}, [v]) == ReleasedNext(s, m, {}, {}, v);
  }

  lemma NothingApplied(s: State, m: Manifest, retryMax: nat)
    requires InDomain(s) && Complete(s.vals) && Owned(s, CONTROLLER) == {} && m == Emptied() && retryMax > 0
    ensures Consume.Applies(s, m, retryMax, Consume.NO_FAULTS) && Consume.AfterApplies(s, m, retryMax, Consume.NO_FAULTS) == s
  {
    assert NormalBody(s, m) == map[];
    FaithfulApplyIsIdentity(s, CONTROLLER, map[]);
    EmptyPatch(s);
  }

  lemma EmptyPatch(s: State)
    requires Applied(s, CONTROLLER, map[]) == s && Complete(s.vals)
    ensures Patched(s, CONTROLLER, map[], true) == Some(s)
  {
  }

  lemma EmptiedConforms(m: Manifest)
    requires m == Emptied()
    ensures Conforms(m) && m.takeover == []
  {
  }

  /** The same successful run leaves different objects when its sweep visits the managers in different
      order: s is the server that both operators share. */
  lemma SweepOrderMatters(x: string, v: string, w: string, retryMax: nat) returns (s: State, m: Manifest)
    requires x != "" && v != w && BowOut.IsLocal(v) && BowOut.IsLocal(w) && retryMax > 0
    ensures InDomain(s) && Complete(s.vals) && Conforms(m) && Consume.Succeeds(s, m, retryMax, Consume.NO_FAULTS)
    ensures Locals(Consume.AfterApplies(s, m, retryMax, Consume.NO_FAULTS)) == {v, w}
    ensures Consume.Outcome(s, m, retryMax, Consume.NO_FAULTS, [v, w]) != Consume.Outcome(s, m, retryMax, Consume.NO_FAULTS, [w, v])
  {
    s := SomeSharedServer(x, v, w);
    m := Emptied();
    EmptiedConforms(m);
    OrdersDiffer(s, m, x, v, w, retryMax);
  }

  lemma SomeSharedServer(x: string, v: string, w: string) returns (s: State)
    requires x != "" && v != w && BowOut.IsLocal(v) && BowOut.IsLocal(w)
    ensures s == SharedServer(x, v, w) && IsShared(s, x, v, w)
  {
    s := SharedServer(x, v, w);
    SharedServerIs(x, v, w);
  }

  lemma OrdersDiffer(s: State, m: Manifest, x: string, v: string, w: string, retryMax: nat)
    requires IsShared(s, x, v, w) && m == Emptied() && retryMax > 0
    ensures Consume.Succeeds(s, m, retryMax, Consume.NO_FAULTS)
    ensures Locals(Consume.AfterApplies(s, m, retryMax, Consume.NO_FAULTS)) == {v, w}
    ensures Consume.Outcome(s, m, retryMax, Consume.NO_FAULTS, [v, w]) != Consume.Outcome(s, m, retryMax, Consume.NO_FAULTS, [w, v])
  {
    ControllerIsNotLocal();
    NothingApplied(s, m, retryMax);
    OneOrder(s, m, x, v, w, retryMax);
    SharedIsSymmetric(s, x, v, w);
    OneOrder(s, m, x, w, v, retryMax);
    KeptOfWhole(m, x);
    assert TagSlot(x) in Whole(x);
  }

  lemma OneOrder(s: State, m: Manifest, x: string, v: string, w: string, retryMax: nat)
    requires IsShared(s, x, v, w) && m == Emptied() && retryMax > 0
    requires Consume.Applies(s, m, retryMax, Consume.NO_FAULTS) && Consume.AfterApplies(s, m, retryMax, Consume.NO_FAULTS) == s
    ensures var t := Consume.Outcome(s, m, retryMax, Consume.NO_FAULTS, [v, w]);
            Owned(t, v) == Kept(m, Whole(x)) && Owned(t, w) == Whole(x)
  {
    FirstIsReleased(s, m, x, v, w);
    Consume.OutcomeIs(s, m, retryMax, Consume.NO_FAULTS, [v, w], true);
    SweptOwned(s, m, {v}, v);
    SweptOwned(s, m, {v}, w);
  }
}
