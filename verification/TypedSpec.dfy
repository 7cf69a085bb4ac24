/** The round trip of a decoded patch through the typed spec, and what it makes of the leaves that
    the bow-out removed. */
module TypedSpec {
  import opened Base
  import opened Trees
  import opened BowOut
  import opened BowOutLeaves
  import opened Schema
  import opened ServerSideApply
  import opened Pipeline
  import Ignored

  function WithDefault(e: Fields, f: string): Fields {
    if f in e && e[f].Leaf? then e else e[f := Leaf(Str(""))]
  }

  function IdracOf(e: Fields): Fields {
    if IDRAC in e && e[IDRAC].Obj? then e[IDRAC].fields else map[]
  }

  /** A server entry decoded into its struct: required strings and the iDRAC block are always there. */
  function Filled(e: Fields): Fields {
    WithDefault(WithDefault(e, "orbId"), "serviceTag")[IDRAC := Obj(WithDefault(IdracOf(e), "orbId"))]
  }

  function FilledItems(items: seq<Json>): seq<Json> {
    if items == [] then []
    else [if items[0].Obj? then Obj(Filled(items[0].fields)) else items[0]] + FilledItems(items[1..])
  }

  function Typed(spec: Fields): Fields {
    if SERVERS in spec && spec[SERVERS].List? then spec[SERVERS := List(FilledItems(spec[SERVERS].items))] else spec
  }

  lemma {:induction false} FindFilled(items: seq<Json>, id: string)
    requires id != ""
    ensures Find(FilledItems(items), id) ==
            match Find(items, id) case None => None case Some(e) => Some(Filled(e))
  {
    if items != [] {
      assert FilledItems(items)[1..] == FilledItems(items[1..]);
      FindFilled(items[1..], id);
    }
  }

  /** Decoding into the struct keeps every scalar and adds the empty string for required ones. */
  lemma TypedReads(spec: Fields, p: Slot)
    requires WfSlot(p)
    ensures At(Obj(Typed(spec)), Keys(p)) ==
            if At(Obj(spec), Keys(p)).Some? then At(Obj(spec), Keys(p))
            else if Required(p) && Find(ServerItems(spec), p.server).Some? then Some(Str(""))
            else None
  {
    AtSlot(spec, p);
    AtSlot(Typed(spec), p);
    FindFilled(ServerItems(spec), p.server);
    if Find(ServerItems(spec), p.server).Some? {
      var i := FindIndex(ServerItems(spec), p.server);
    }
  }

  /** The entry of a server is in the spec exactly when its list key is. */
  lemma EntryPresent(spec: Fields, id: string)
    ensures Find(ServerItems(spec), id).Some? <==> At(Obj(spec), Keys(IdSlot(id))).Some?
  {
    AtSlot(spec, IdSlot(id));
    if Find(ServerItems(spec), id).Some? {
      var i := FindIndex(ServerItems(spec), id);
    }
  }

  lemma KeysShape(p: Slot)
    ensures EndsInField(Keys(p)) && Keys(p)[|Keys(p)| - 1].name == p.field
    ensures ScopeOf(Keys(p), "") == p.server
    ensures WfSlot(p) ==> (IsListKey(Keys(p)) <==> p == IdSlot(p.server))
  {
    var ks := Keys(p);
    assert ks[1..][0] == Entry(p.server) && ks[1..][1..] == ks[2..];
    assert ScopeOf(ks, "") == ScopeOf(ks[1..], "") == ScopeOf(ks[2..], p.server);
    ScopeBelowEntry(ks[2..], p.server);
  }

  lemma {:induction false} ScopeBelowEntry(p: Path, scope: string)
    requires forall k | k in p :: k.Field?
    ensures ScopeOf(p, scope) == scope
    decreases |p|
  {
    if p != [] {
      assert p[0] in p;
      ScopeBelowEntry(p[1..], scope);
    }
  }

  lemma {:induction false} LocalTreesListed(managed: seq<Managed>, t: Claims)
    ensures t in LocalTrees(managed) <==>
            exists i :: 0 <= i < |managed| && IsLocal(managed[i].manager) && managed[i].spec == Some(t)
  {
    if managed != [] {
      LocalTreesListed(managed[1..], t);
      if i :| 0 <= i < |managed| && IsLocal(managed[i].manager) && managed[i].spec == Some(t) {
        assert i > 0 ==> managed[1..][i - 1] == managed[i];
      }
      if i :| 0 <= i < |managed[1..]| && IsLocal(managed[1..][i].manager) && managed[1..][i].spec == Some(t) {
        assert managed[i + 1] == managed[1..][i];
      }
    }
  }

  lemma TreesOfLocals(s: State, managed: seq<Managed>, t: Claims)
    requires Lists(managed, s.claims)
    ensures t in LocalTrees(managed) <==> exists w :: w in s.claims && IsLocal(w) && t == ClaimTree(s.claims[w])
  {
    LocalTreesListed(managed, t);
    if w :| w in s.claims && IsLocal(w) && t == ClaimTree(s.claims[w]) {
      var i :| 0 <= i < |managed| && managed[i].manager == w;
    }
  }

  lemma ClaimsWf(s: State, w: string)
    requires WfState(s) && w in s.claims
    ensures WfClaims(s.claims[w]) && s.claims[w] != {}
  {
    forall p | p in s.claims[w] ensures WfSlot(p) {
      assert p in Owned(s, w);
    }
  }

  /** Some local tree claims the slot exactly when a local manager does. */
  lemma ClaimedInTrees(s: State, managed: seq<Managed>, p: Slot)
    requires WfState(s) && Lists(managed, s.claims) && WfSlot(p)
    ensures (exists t :: t in LocalTrees(managed) && ClaimedAt(t, Keys(p))) <==> LocallyClaimed(s, p)
    ensures forall t | t in LocalTrees(managed) :: Uncovered(t, Keys(p))
  {
    forall t | t in LocalTrees(managed) ensures Uncovered(t, Keys(p)) && (ClaimedAt(t, Keys(p)) ==> LocallyClaimed(s, p)) {
      TreesOfLocals(s, managed, t);
      var w :| w in s.claims && IsLocal(w) && t == ClaimTree(s.claims[w]);
      ClaimsWf(s, w);
      TreeReads(s.claims[w], p);
      TreeCoversNoStruct(s.claims[w], p);
    }
    if LocallyClaimed(s, p) {
      var w :| w in s.claims && IsLocal(w) && p in s.claims[w];
      ClaimsWf(s, w);
      TreeReads(s.claims[w], p);
      TreesOfLocals(s, managed, ClaimTree(s.claims[w]));
    }
  }

  /** The walk's rule for a path and the leaf rule for its slot are the same rule. */
  lemma RuleMatches(s: State, m: Manifest, p: Slot)
    requires WfSlot(p)
    ensures EndsInField(Keys(p))
    ensures LeafAfter(Keys(p), LocallyClaimed(s, p), Get(m.vals, p), Get(s.vals, p), "", Ignored.RulesOf(m.takeover, m.ignored)) ==
            if BowedOut(s, m, p) then None else Get(m.vals, p)
  {
    KeysShape(p);
  }

  /** The bow-out walk over the decoded object, read at one slot. */
  lemma PatchReads(s: State, m: Manifest, live: Fields, intent: Fields, orders: (seq<string>, seq<string>),
      managed: seq<Managed>, p: Slot)
    requires WfState(s) && Conforms(m) && Lists(managed, s.claims) && WfSlot(p)
    requires Enumerates(orders.0, s.vals) && live == SpecFields(s.vals, orders.0)
    requires Enumerates(orders.1, m.vals) && intent == SpecFields(m.vals, orders.1)
    ensures At(Obj(BowAll(intent, live, LocalTrees(managed), Ignored.RulesOf(m.takeover, m.ignored))), Keys(p)) ==
            if BowedOut(s, m, p) then None else Get(m.vals, p)
  {
    SpecKeyed(s.vals, orders.0);
    SpecKeyed(m.vals, orders.1);
    SpecReads(s.vals, orders.0, p);
    SpecReads(m.vals, orders.1, p);
    ClaimedInTrees(s, managed, p);
    RuleMatches(s, m, p);
    BowAllAt(intent, live, LocalTrees(managed), Keys(p), Ignored.RulesOf(m.takeover, m.ignored));
  }

  /** The patch that the consume pipeline sends carries exactly the leaves of the normal body. */
  lemma PatchIsNormalBody(s: State, m: Manifest, live: Fields, intent: Fields, orders: (seq<string>, seq<string>),
      managed: seq<Managed>)
    requires WfState(s) && Conforms(m) && Lists(managed, s.claims)
    requires Enumerates(orders.0, s.vals) && live == SpecFields(s.vals, orders.0)
    requires Enumerates(orders.1, m.vals) && intent == SpecFields(m.vals, orders.1)
    ensures Flatten(Typed(BowAll(intent, live, LocalTrees(managed), Ignored.RulesOf(m.takeover, m.ignored)))) == NormalBody(s, m)
  {
    var patch := BowAll(intent, live, LocalTrees(managed), Ignored.RulesOf(m.takeover, m.ignored));
    forall p ensures Get(Flatten(Typed(patch)), p) == Get(NormalBody(s, m), p) {
      FlattenReads(Typed(patch), p);
      if WfSlot(p) {
        TypedReads(patch, p);
        EntryPresent(patch, p.server);
        PatchReads(s, m, live, intent, orders, managed, p);
        PatchReads(s, m, live, intent, orders, managed, IdSlot(p.server));
        RequiredPresent(m, p);
      }
    }
    SameLookups(Flatten(Typed(patch)), NormalBody(s, m));
  }

  lemma RequiredPresent(m: Manifest, p: Slot)
    requires Conforms(m)
    ensures Required(p) && IdSlot(p.server) in m.vals ==> p in m.vals
  {
    assert IdSlot(p.server).server == p.server;
  }
}
