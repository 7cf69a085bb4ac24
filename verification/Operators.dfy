/** Which managers count as local operators: exactly those named "local:" and an id, whoever the id is. */
module Operators {
  import opened Base
  import opened Trees
  import opened Schema
  import opened ServerSideApply
  import opened Pipeline
  import BowOut
  import Consume
  import EndState
  import Failures
  import Ignored
  import Overrides
  import Reclaim
  import TypedSpec
  import Walkers

  function LocalName(id: string): string {
    "local:" + id
  }

  lemma LocalIff(w: string)
    ensures BowOut.IsLocal(w) <==> exists id :: w == LocalName(id)
    ensures BowOut.IsLocal(w) <==> |w| >= 6 && w[..6] == "local:"
  {
    if |w| >= 6 && w[..6] == "local:" {
      assert w == LocalName(w[6..]);
    }
    if id :| w == LocalName(id) {
      assert w[..6] == "local:";
    }
  }

  /** The i-th managedFields entry is an operator's and claims spec fields. */
  ghost predicate OperatorEntry(managed: seq<BowOut.Managed>, i: int) {
    0 <= i < |managed| && managed[i].spec.Some? && exists id :: managed[i].manager == LocalName(id)
  }

  /** The bow-out walks the trees of exactly the operators. */
  lemma WalkedIff(managed: seq<BowOut.Managed>, t: Claims)
    ensures t in BowOut.LocalTrees(managed) <==> exists i :: OperatorEntry(managed, i) && managed[i].spec == Some(t)
  {
    TypedSpec.LocalTreesListed(managed, t);
    forall i | 0 <= i < |managed| ensures BowOut.IsLocal(managed[i].manager) <==> exists id :: managed[i].manager == LocalName(id) {
      LocalIff(managed[i].manager);
    }
    if i :| 0 <= i < |managed| && BowOut.IsLocal(managed[i].manager) && managed[i].spec == Some(t) {
      assert OperatorEntry(managed, i);
    }
  }

  lemma {:induction false} KeyOfSomeTree(trees: seq<Claims>, k: string)
    ensures k in Ignored.KeysOfTrees(trees) <==> exists t | t in trees :: k in Ignored.ClaimedKeys(t, "")
  {
    if trees != [] {
      KeyOfSomeTree(trees[1..], k);
      assert trees[0] in trees && forall t :: t in trees <==> t == trees[0] || t in trees[1..];
    }
  }

  /** The directive keys collected are those of the operators' trees. */
  lemma KeyCollectedIff(managed: seq<BowOut.Managed>, k: string)
    ensures k in Ignored.KeysOfTrees(BowOut.LocalTrees(managed)) <==>
            exists i :: OperatorEntry(managed, i) && k in Ignored.ClaimedKeys(managed[i].spec.value, "")
  {
    KeyOfSomeTree(BowOut.LocalTrees(managed), k);
    if t :| t in BowOut.LocalTrees(managed) && k in Ignored.ClaimedKeys(t, "") {
      WalkedIff(managed, t);
      var i :| OperatorEntry(managed, i) && managed[i].spec == Some(t);
    }
    if i :| OperatorEntry(managed, i) && k in Ignored.ClaimedKeys(managed[i].spec.value, "") {
      WalkedIff(managed, managed[i].spec.value);
    }
  }

  /** The reporter lists, and the reclaim trigger watches, the paths of exactly the operators. */
  lemma PathListedIff(managed: seq<BowOut.Managed>, c: Overrides.Claim)
    ensures Overrides.ClaimListed(managed, c) <==>
            && OperatorEntry(managed, c.entry) && managed[c.entry].manager == c.manager
            && c.keys in Walkers.FieldPaths(Overrides.Root(managed[c.entry].spec.value))
  {
    LocalIff(c.manager);
  }

  lemma PathWatchedIff(managed: seq<BowOut.Managed>, p: Path)
    ensures p in Reclaim.CollectedPaths(BowOut.LocalTrees(managed)) <==>
            exists i :: OperatorEntry(managed, i) && p in Walkers.LeafPaths(managed[i].spec.value)
  {
    Reclaim.CollectedIn(BowOut.LocalTrees(managed), p);
    if t :| t in BowOut.LocalTrees(managed) && p in Walkers.LeafPaths(t) {
      WalkedIff(managed, t);
      var i :| OperatorEntry(managed, i) && managed[i].spec == Some(t);
    }
    if i :| OperatorEntry(managed, i) && p in Walkers.LeafPaths(managed[i].spec.value) {
      WalkedIff(managed, managed[i].spec.value);
    }
  }

  /** The sweep visits exactly the operators that claim anything. */
  lemma VisitedIff(s: State, m: Manifest, done: set<string>, w: string)
    ensures w in Locals(s) <==> w in s.claims && exists id :: w == LocalName(id)
    ensures ReleasedNext(s, m, {}, done, w) != done <==>
            w !in done && w in s.claims && (exists id :: w == LocalName(id)) && Complete(Swept(s, m, done + {w}).vals)
  {
    LocalIff(w);
    assert w !in done ==> done + {w} != done;
  }

  // ----- any operator's override

  /** The manifest that wants ssh off, without directives. */
  function SshOff(x: string): Manifest {
    Manifest("dc", Failures.WithSsh(x, false), [], [])
  }

  /** Whoever the operator is, the ssh override survives every run that gets past its applies, with the claim
      and without one of the controller. */
  lemma AnyOperatorKeepsSsh(x: string, id: string, retryMax: nat, faults: Consume.Faults, visits: seq<string>)
    requires x != "" && retryMax > 0
    ensures var s, m, ssh := Failures.SshOverridden(x, LocalName(id)), SshOff(x), Failures.SshSlot(x);
            var t := Consume.Outcome(s, m, retryMax, faults, visits);
            && InDomain(s) && Complete(s.vals) && Conforms(m) && Accepts(s, m)
            && (Consume.Applies(s, m, retryMax, faults) ==>
                  Get(t.vals, ssh) == Some(Bool(true)) && ssh in Owned(t, LocalName(id)) && ssh !in Owned(t, CONTROLLER))
  {
    var s, m := Failures.SshOverridden(x, LocalName(id)), SshOff(x);
    LocalIff(LocalName(id));
    Failures.SshOverriddenIs(x, LocalName(id));
    Failures.SshConforms(m, x);
    SshAccepted(s, m, x, LocalName(id));
    SshKept(s, m, x, LocalName(id), retryMax, faults, visits);
  }

  lemma SshAccepted(s: State, m: Manifest, x: string, w: string)
    requires x != "" && Failures.IsSshOverridden(s, x, w) && m == SshOff(x) && Conforms(m)
    ensures Accepts(s, m)
  {
    Failures.SshWf(x, false);
    forall v, p | v in s.claims && p in s.claims[v] ensures p.server == x {
      assert p in Owned(s, v) && p in s.vals;
    }
    Failures.WholeCovers(m, s, x);
    EndState.CoveredIsAccepted(s, m);
  }

  lemma SshKept(s: State, m: Manifest, x: string, w: string, retryMax: nat, faults: Consume.Faults, visits: seq<string>)
    requires x != "" && BowOut.IsLocal(w) && Failures.IsSshOverridden(s, x, w) && m == SshOff(x) && Conforms(m) && retryMax > 0
    ensures var t, ssh := Consume.Outcome(s, m, retryMax, faults, visits), Failures.SshSlot(x);
            Consume.Applies(s, m, retryMax, faults) ==>
            Get(t.vals, ssh) == Some(Bool(true)) && ssh in Owned(t, w) && ssh !in Owned(t, CONTROLLER)
  {
    var ssh := Failures.SshSlot(x);
    Failures.SshIsNew(x);
    Failures.ClaimedByLocal(s, x, CONTROLLER, Failures.Whole(x), w, {IdSlot(x), ssh}, ssh);
    SshWithheld(s, m, x);
    Consume.OverrideAfterRun(s, m, retryMax, faults, visits, ssh);
  }

  lemma SshWithheld(s: State, m: Manifest, x: string)
    requires LocallyClaimed(s, Failures.SshSlot(x)) && s.vals == Failures.WithSsh(x, true) && m == SshOff(x)
    ensures BowedOut(s, m, Failures.SshSlot(x)) && !StructTakeover(m, Failures.SshSlot(x))
    ensures Get(s.vals, Failures.SshSlot(x)) == Some(Bool(true))
  {
    assert Ignored.DirectiveKeys([]) == {};
  }

  // ----- the controller's name

  /** A manifest of one complete server. */
  function NewServer(x: string, tag: string): Manifest {
    Manifest("dc", Failures.ServerLeaves(x, tag), [], [])
  }

  /** The first dispatch of a server succeeds and leaves all its leaves as intended, owned by the manager
      "configbundle-controller". */
  lemma FirstDispatch(x: string, tag: string, retryMax: nat, visits: seq<string>, p: Slot)
    requires x != "" && retryMax > 0 && p in Failures.Whole(x)
    ensures var s, m := State(map[], map[]), NewServer(x, tag);
            var t := Consume.Outcome(s, m, retryMax, Consume.NO_FAULTS, visits);
            && Consume.Succeeds(s, m, retryMax, Consume.NO_FAULTS)
            && Get(t.vals, p) == Get(m.vals, p) != None && p in Owned(t, "configbundle-controller")
  {
    var s, m := State(map[], map[]), NewServer(x, tag);
    Failures.IntentConforms(m, x, tag);
    EmptyInDomain(s);
    forall q | q in m.vals ensures q.server == x {
      Failures.WholeIsWf(x, q);
    }
    Failures.WholeCovers(m, s, x);
    EndState.CoveredIsAccepted(s, m);
    Consume.SucceedsIffAccepted(s, m, retryMax, Consume.NO_FAULTS, visits);
    Consume.UnclaimedAfterRun(s, m, retryMax, Consume.NO_FAULTS, visits, p);
  }

  lemma EmptyInDomain(s: State)
    requires s == State(map[], map[])
    ensures InDomain(s) && forall p :: !LocallyClaimed(s, p)
  {
  }
}
