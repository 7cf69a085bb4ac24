/** The bow-out walk, leaf by leaf: a leaf leaves the apply body exactly when some tree claims it
    and the directives or a differing live value withhold it. */
module BowOutLeaves {
  import opened Base
  import opened Trees
  import opened BowOut

  /** The orbId of the innermost list entry on the way to p. */
  function ScopeOf(p: Path, scope: string): string
    decreases |p|
  {
    if p == [] then scope else ScopeOf(p[1..], if p[0].Entry? then p[0].orbId else scope)
  }

  /** p ends in the key field of a list entry. */
  predicate IsListKey(p: Path) {
    |p| >= 2 && p[|p| - 2].Entry? && p[|p| - 1] == Field("orbId")
  }

  predicate EndsInField(p: Path) {
    p != [] && p[|p| - 1].Field?
  }

  /** No object or list entry that encloses p is claimed as a whole. */
  ghost predicate Uncovered(c: Claims, p: Path) {
    forall k | 0 <= k < |p| :: !ClaimedAt(c, p[..k])
  }

  /** The per-leaf rule, given the values intended and live at p. */
  predicate LeafWithheld(p: Path, intended: Option<Scalar>, live: Option<Scalar>, scope: string, r: Rules)
    requires EndsInField(p)
  {
    var key := TakeoverKey(ScopeOf(p, scope), p[|p| - 1].name);
    key in r.ignored || (key !in r.takeover && intended != live)
  }

  /** What one tree leaves of the scalar at p. */
  function LeafAfter(p: Path, claimed: bool, intended: Option<Scalar>, live: Option<Scalar>, scope: string, r: Rules): Option<Scalar>
    requires EndsInField(p)
  {
    if claimed && !IsListKey(p) && LeafWithheld(p, intended, live, scope, r) then None else intended
  }

  lemma {:induction false} LiveEntryIsFind(live: seq<Json>, id: string)
    requires KeyedItems(live)
    ensures LiveEntry(live, id) == if Find(live, id).Some? then Find(live, id).value else map[]
  {
    if live != [] && id != "" {
      var last := |live| - 1;
      if EntryId(live[last]) == Some(id) {
        FindUnique(live, last);
      } else {
        LiveEntryIsFind(live[..last], id);
        var r := Find(live[..last], id);
        if r.Some? {
          var k := FindIndex(live[..last], id);
          FindUnique(live, k);
        } else {
          FindPrefixNone(live, id);
        }
      }
    } else if Find(live, id).Some? {
      var k := FindIndex(live, id);
    }
  }

  lemma FindPrefixNone(live: seq<Json>, id: string)
    requires live != [] && EntryId(live[|live| - 1]) != Some(id) && Find(live[..|live| - 1], id).None?
    ensures Find(live, id).None?
  {
    var init := live[..|live| - 1];
    forall k | 0 <= k < |live| ensures EntryId(live[k]) != Some(id) {
      if k < |init| {
        FindNone(init, id, k);
        assert init[k] == live[k];
      }
    }
    FindAbsent(live, id);
  }

  lemma BowItemKeepsId(item: Json, live: seq<Json>, c: Claims, r: Rules)
    ensures BowItem(item, live, c, r) == [] || exists o :: BowItem(item, live, c, r) == [o] && EntryId(o) == EntryId(item)
  {
    var out := BowItem(item, live, c, r);
    if out != [] {
      var id := EntryId(item);
      if id.Some? && Entry(id.value) in c.kids {
        var e := BowEntry(item.fields, LiveEntry(live, id.value), c.kids[Entry(id.value)], id.value, r);
        assert e["orbId"] == Leaf(Str(id.value));
        assert out == [Obj(e)] && EntryId(Obj(e)) == id;
      } else {
        assert out == [item];
      }
    }
  }

  lemma HeadIsOnly(items: seq<Json>)
    requires KeyedItems(items) && items != []
    ensures Find(items[1..], EntryId(items[0]).value).None?
  {
    var id := EntryId(items[0]).value;
    forall k | 0 <= k < |items| - 1 ensures EntryId(items[1..][k]) != Some(id) {
      assert items[1..][k] == items[k + 1];
    }
    FindAbsent(items[1..], id);
  }

  lemma {:induction false} FindBow(items: seq<Json>, live: seq<Json>, c: Claims, r: Rules, id: string)
    requires KeyedItems(items)
    ensures Find(BowList(items, live, c, r), id) ==
            match Find(items, id)
            case None => None
            case Some(e) =>
              if Entry(id) !in c.kids then Some(e)
              else if IsLeafClaim(c.kids[Entry(id)]) then None
              else Some(BowEntry(e, LiveEntry(live, id), c.kids[Entry(id)], id, r))
  {
    if items != [] {
      var head, rest := BowItem(items[0], live, c, r), BowList(items[1..], live, c, r);
      assert forall k :: 1 <= k < |items| ==> items[k] == items[1..][k - 1];
      FindBow(items[1..], live, c, r, id);
      BowItemKeepsId(items[0], live, c, r);
      if head == [] {
        assert head + rest == rest;
        HeadIsOnly(items);
      } else {
        assert (head + rest)[1..] == rest;
      }
    }
  }

  /** The rule at a path of one field. */
  lemma BowMapAtOne(m: Fields, live: Fields, c: Claims, f: string, scope: string, r: Rules)
    requires f in m
    ensures At(Obj(BowMap(m, live, c, scope, r)), [Field(f)]) ==
            LeafAfter([Field(f)], ClaimedAt(c, [Field(f)]), At(Obj(m), [Field(f)]), At(Obj(live), [Field(f)]), scope, r)
  {
    var p := [Field(f)];
    GoalAt(m, live, c, scope, r, f);
    assert p[1..] == [] && ScopeOf(p, scope) == scope;
    LookupField(m, p);
    LookupField(live, p);
    LookupField(BowMap(m, live, c, scope, r), p);
    assert ClaimedAt(c, p) <==> Field(f) in c.kids && IsLeafClaim(c.kids[Field(f)]);
  }

  /** Going down one field that is not claimed as a whole. */
  lemma BowMapBelow(m: Fields, live: Fields, c: Claims, p: Path, scope: string, r: Rules)
    requires p != [] && p[0].Field? && p[0].name in m && p[0] in c.kids && !IsLeafClaim(c.kids[p[0]])
    ensures var f := p[0].name;
            && At(Obj(BowMap(m, live, c, scope, r)), p) == At(BowJson(m[f], Get(live, f), c.kids[p[0]], scope, r), p[1..])
            && At(Obj(m), p) == At(m[f], p[1..])
            && At(Obj(live), p) == LiveAt(Get(live, f), p[1..])
            && ClaimedAt(c, p) == ClaimedAt(c.kids[p[0]], p[1..])
  {
    GoalAt(m, live, c, scope, r, p[0].name);
  }

  /** One tree over one object: every scalar ends as the per-leaf rule says. */
  lemma {:induction false} BowMapAt(m: Fields, live: Fields, c: Claims, p: Path, scope: string, r: Rules)
    requires Keyed(Obj(m)) && Keyed(Obj(live))
    requires EndsInField(p) && Uncovered(c, p)
    ensures At(Obj(BowMap(m, live, c, scope, r)), p) ==
            LeafAfter(p, ClaimedAt(c, p), At(Obj(m), p), At(Obj(live), p), scope, r)
    decreases |p|, 0
  {
    if p[0].Field? && p[0].name in m {
      var f, q := p[0].name, p[1..];
      GoalAt(m, live, c, scope, r, f);
      if |p| == 1 {
        BowMapAtOne(m, live, c, f, scope, r);
        assert p == [Field(f)];
      } else if Field(f) !in c.kids {
        assert !ClaimedAt(c, p);
      } else {
        var sub, lv := c.kids[Field(f)], Get(live, f);
        UncoveredBelow(c, p);
        assert !ClaimedAt(sub, q[..0]);
        PathBelow(p, scope);
        BowMapBelow(m, live, c, p, scope, r);
        BowJsonAt(m[f], lv, sub, q, scope, r);
      }
    }
  }

  lemma {:induction false} BowJsonAt(j: Json, live: Option<Json>, c: Claims, q: Path, scope: string, r: Rules)
    requires Keyed(j) && (live.Some? ==> Keyed(live.value))
    requires EndsInField(q) && Uncovered(c, q) && (q[0].Entry? ==> |q| >= 2)
    ensures At(BowJson(j, live, c, scope, r), q) == LeafAfter(q, ClaimedAt(c, q), At(j, q), LiveAt(live, q), scope, r)
    decreases |q|, 1
  {
    match j {
      case Leaf(_) =>
        BelowLeaf(j, q);
      case Obj(m) =>
        if q[0].Field? {
          BowMapAt(m, ObjectOf(live), c, q, scope, r);
          LiveObject(live, q);
        } else {
          assert Lookup(Obj(BowMap(m, ObjectOf(live), c, scope, r)), q) == None == Lookup(j, q);
        }
      case List(items) =>
        if q[0].Entry? {
          BowItemAt(items, live, c, q, scope, r);
        } else {
          assert Lookup(List(BowList(items, ItemsOf(live), c, r)), q) == None == Lookup(j, q);
        }
    }
  }

  lemma LiveObject(live: Option<Json>, q: Path)
    requires q != [] && q[0].Field?
    ensures At(Obj(ObjectOf(live)), q) == LiveAt(live, q)
  {
  }

  function LiveAt(live: Option<Json>, p: Path): Option<Scalar> {
    if live.Some? then At(live.value, p) else None
  }

  /** Dropping the first key of a longer path keeps its directive key and its kind. */
  lemma PathBelow(p: Path, scope: string)
    requires |p| >= 2
    ensures p[0].Field? ==> IsListKey(p) == IsListKey(p[1..]) && ScopeOf(p, scope) == ScopeOf(p[1..], scope)
    ensures p[0].Entry? && p[1..] != [Field("orbId")] ==>
              IsListKey(p) == IsListKey(p[1..]) && ScopeOf(p, scope) == ScopeOf(p[1..], p[0].orbId)
  {
  }

  lemma ItemBelow(items: seq<Json>, p: Path)
    requires p != [] && p[0].Entry?
    ensures At(List(items), p) == match Find(items, p[0].orbId) case None => None case Some(e) => At(Obj(e), p[1..])
  {
  }

  lemma LiveItemBelow(live: Option<Json>, p: Path)
    requires |p| >= 2 && p[0].Entry? && (live.Some? ==> Keyed(live.value))
    ensures LiveAt(live, p) == At(Obj(LiveEntry(ItemsOf(live), p[0].orbId)), p[1..])
  {
    LiveEntryIsFind(ItemsOf(live), p[0].orbId);
    ItemBelow(ItemsOf(live), p);
    assert Lookup(Obj(map[]), p[1..]) == None;
  }

  lemma {:induction false} BowItemAt(items: seq<Json>, live: Option<Json>, c: Claims, p: Path, scope: string, r: Rules)
    requires Keyed(List(items)) && (live.Some? ==> Keyed(live.value))
    requires |p| >= 2 && p[0].Entry? && EndsInField(p) && Uncovered(c, p)
    ensures At(List(BowList(items, ItemsOf(live), c, r)), p) ==
            LeafAfter(p, ClaimedAt(c, p), At(List(items), p), LiveAt(live, p), scope, r)
    decreases |p|, 0
  {
    var id, q := p[0].orbId, p[1..];
    FindBow(items, ItemsOf(live), c, r, id);
    var found := Find(items, id);
    if found.Some? && Entry(id) in c.kids {
      var e, sub := found.value, c.kids[Entry(id)];
      KeyedFound(items, id);
      UncoveredBelow(c, p);
      assert !ClaimedAt(sub, q[..0]);
      var liveEntry := LiveEntry(ItemsOf(live), id);
      KeyedFind(ItemsOf(live), id);
      BowEntryAt(e, liveEntry, sub, q, id, r);
      PathBelow(p, scope);
      ItemBelow(items, p);
      LiveItemBelow(live, p);
    }
  }

  lemma {:induction false} BowEntryAt(e: Fields, live: Fields, c: Claims, q: Path, id: string, r: Rules)
    requires Keyed(Obj(e)) && Keyed(Obj(live)) && IdOf(e) == Some(id)
    requires EndsInField(q) && Uncovered(c, q)
    ensures At(Obj(BowEntry(e, live, c, id, r)), q) ==
            if q == [Field("orbId")] then At(Obj(e), q)
            else LeafAfter(q, ClaimedAt(c, q), At(Obj(e), q), At(Obj(live), q), id, r)
    decreases |q|, 1
  {
    var after, bowed := BowEntry(e, live, c, id, r), BowMap(e, live, c, id, r);
    if q[0] == Field("orbId") {
      assert after["orbId"] == e["orbId"] == Leaf(Str(id));
      if |q| > 1 {
        BelowLeaf(e["orbId"], q[1..]);
      } else {
        assert q[1..] == [] && q == [Field("orbId")];
      }
    } else {
      assert Lookup(Obj(after), q) == Lookup(Obj(bowed), q);
      BowMapAt(e, live, c, q, id, r);
    }
  }

  lemma UncoveredBelow(c: Claims, p: Path)
    requires p != [] && p[0] in c.kids && Uncovered(c, p)
    ensures Uncovered(c.kids[p[0]], p[1..])
  {
    forall k | 0 <= k < |p| - 1 ensures !ClaimedAt(c.kids[p[0]], p[1..][..k]) {
      assert p[..k + 1][1..] == p[1..][..k];
      assert !ClaimedAt(c, p[..k + 1]);
    }
  }

  lemma BelowLeaf(j: Json, p: Path)
    requires j.Leaf? && p != []
    ensures Lookup(j, p) == None
  {
  }

  lemma KeyedFound(items: seq<Json>, id: string)
    requires Keyed(List(items)) && Find(items, id).Some?
    ensures Keyed(Obj(Find(items, id).value)) && IdOf(Find(items, id).value) == Some(id)
  {
    var e := Find(items, id).value;
    var i := FindIndex(items, id);
    assert Keyed(items[i]);
  }

  lemma KeyedFind(items: seq<Json>, id: string)
    requires Keyed(List(items))
    ensures Keyed(Obj(LiveEntry(items, id)))
  {
    LiveEntryIsFind(items, id);
    if Find(items, id).Some? {
      KeyedFound(items, id);
    }
  }

  /** The walk keeps list entries keyed. */
  lemma {:induction false} BowKeyed(m: Fields, live: Fields, c: Claims, scope: string, r: Rules)
    requires Keyed(Obj(m))
    ensures Keyed(Obj(BowMap(m, live, c, scope, r)))
    decreases c
  {
    forall f | f in BowMap(m, live, c, scope, r) ensures Keyed(BowMap(m, live, c, scope, r)[f]) {
      if Field(f) in c.kids && !IsLeafClaim(c.kids[Field(f)]) {
        var sub := c.kids[Field(f)];
        match m[f] {
          case Leaf(_) =>
          case Obj(m1) => BowKeyed(m1, ObjectOf(Get(live, f)), sub, scope, r);
          case List(items) => BowListKeyed(items, ItemsOf(Get(live, f)), sub, r);
        }
      }
    }
  }

  lemma {:induction false} BowListKeyed(items: seq<Json>, live: seq<Json>, c: Claims, r: Rules)
    requires Keyed(List(items))
    ensures Keyed(List(BowList(items, live, c, r)))
    ensures forall o | o in BowList(items, live, c, r) :: exists i :: 0 <= i < |items| && EntryId(items[i]) == EntryId(o)
    decreases c, |items|
  {
    if items != [] {
      var head, rest := BowItem(items[0], live, c, r), BowList(items[1..], live, c, r);
      assert forall k :: 1 <= k < |items| ==> items[k] == items[1..][k - 1];
      BowListKeyed(items[1..], live, c, r);
      BowItemKeepsId(items[0], live, c, r);
      var id := EntryId(items[0]).value;
      if Entry(id) in c.kids && !IsLeafClaim(c.kids[Entry(id)]) {
        BowKeyed(items[0].fields, LiveEntry(live, id), c.kids[Entry(id)], id, r);
      }
      JoinedKeyed(items, head, rest);
    }
  }

  lemma JoinedKeyed(items: seq<Json>, head: seq<Json>, rest: seq<Json>)
    requires items != [] && KeyedItems(items) && Keyed(List(rest)) && (head == [] || exists o :: head == [o] && EntryId(o) == EntryId(items[0]))
    requires forall o | o in head :: Keyed(o)
    requires forall o | o in rest :: exists i :: 0 <= i < |items[1..]| && EntryId(items[1..][i]) == EntryId(o)
    ensures Keyed(List(head + rest))
    ensures forall o | o in head + rest :: exists i :: 0 <= i < |items| && EntryId(items[i]) == EntryId(o)
  {
    forall o | o in rest ensures EntryId(o) != EntryId(items[0]) && exists i :: 0 <= i < |items| && EntryId(items[i]) == EntryId(o) {
      var i :| 0 <= i < |items[1..]| && EntryId(items[1..][i]) == EntryId(o);
      assert items[i + 1] == items[1..][i];
    }
    forall o | o in head ensures EntryId(o) == EntryId(items[0]) {
    }
  }

  /** All trees together: a scalar leaves the body exactly when some tree claims it and it is withheld. */
  lemma {:induction false} BowAllAt(m: Fields, live: Fields, trees: seq<Claims>, p: Path, r: Rules)
    requires Keyed(Obj(m)) && Keyed(Obj(live)) && EndsInField(p)
    requires forall t | t in trees :: Uncovered(t, p)
    ensures At(Obj(BowAll(m, live, trees, r)), p) ==
            LeafAfter(p, exists t :: t in trees && ClaimedAt(t, p), At(Obj(m), p), At(Obj(live), p), "", r)
    ensures Keyed(Obj(BowAll(m, live, trees, r)))
    decreases |trees|
  {
    if trees != [] {
      assert trees[0] in trees;
      BowMapAt(m, live, trees[0], p, "", r);
      BowKeyed(m, live, trees[0], "", r);
      BowAllAt(BowMap(m, live, trees[0], "", r), live, trees[1..], p, r);
      assert forall t :: t in trees <==> t == trees[0] || t in trees[1..];
    }
  }
}
