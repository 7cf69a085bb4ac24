/** The bow-out walk does not depend on the order in which managers are visited. */
module BowOutOrder {
  import opened Base
  import opened Trees
  import opened BowOut

  /** Every leaf claim of c that meets the spec meets a scalar (or a whole list entry). */
  ghost predicate OnScalars(j: Json, c: Claims)
    decreases c, 0
  {
    match j
    case Leaf(_) => true
    case Obj(m) => forall f | f in m && Field(f) in c.kids :: OnScalarsBelow(m[f], c.kids[Field(f)])
    case List(items) =>
      forall o, id | o in items && EntryId(o) == Some(id) && Entry(id) in c.kids ::
        IsLeafClaim(c.kids[Entry(id)]) || OnScalars(o, c.kids[Entry(id)])
  }

  ghost predicate OnScalarsBelow(j: Json, c: Claims)
    decreases c, 1
  {
    if IsLeafClaim(c) then j.Leaf? else OnScalars(j, c)
  }

  /** One pass over m leaves a spec on which the other tree still meets scalars only. */
  lemma {:induction false} OnScalarsKept(m: Fields, live: Fields, c: Claims, d: Claims, scope: string, r: Rules)
    requires OnScalars(Obj(m), c) && OnScalars(Obj(m), d)
    ensures OnScalars(Obj(BowMap(m, live, c, scope, r)), d)
    decreases c
  {
    var after := BowMap(m, live, c, scope, r);
    forall f | f in after && Field(f) in d.kids ensures OnScalarsBelow(after[f], d.kids[Field(f)]) {
      GoalAt(m, live, c, scope, r, f);
      assert OnScalarsBelow(m[f], d.kids[Field(f)]);
      if !IsLeafClaim(d.kids[Field(f)]) && Field(f) in c.kids && !IsLeafClaim(c.kids[Field(f)]) {
        var sub := c.kids[Field(f)];
        assert OnScalarsBelow(m[f], sub);
        match m[f] {
          case Leaf(_) =>
          case Obj(m1) => OnScalarsKept(m1, ObjectOf(Get(live, f)), sub, d.kids[Field(f)], scope, r);
          case List(items) => OnScalarsKeptItems(items, ItemsOf(Get(live, f)), sub, d.kids[Field(f)], r);
        }
      }
    }
  }

  lemma {:induction false} OnScalarsKeptItems(items: seq<Json>, live: seq<Json>, c: Claims, d: Claims, r: Rules)
    requires OnScalars(List(items), c) && OnScalars(List(items), d)
    ensures OnScalars(List(BowList(items, live, c, r)), d)
    decreases c, |items|
  {
    if items != [] {
      assert items[0] in items && forall o :: o in items[1..] ==> o in items;
      OnScalarsKeptItems(items[1..], live, c, d, r);
      OnScalarsKeptItem(items[0], live, c, d, r);
      forall o, id | o in BowList(items, live, c, r) && EntryId(o) == Some(id) && Entry(id) in d.kids
        ensures IsLeafClaim(d.kids[Entry(id)]) || OnScalars(o, d.kids[Entry(id)])
      {
        if o !in BowItem(items[0], live, c, r) {
          assert o in BowList(items[1..], live, c, r);
        }
      }
    }
  }

  lemma {:induction false} OnScalarsKeptItem(item: Json, live: seq<Json>, c: Claims, d: Claims, r: Rules)
    requires OnScalars(List([item]), c) && OnScalars(List([item]), d)
    ensures forall o, id | o in BowItem(item, live, c, r) && EntryId(o) == Some(id) && Entry(id) in d.kids ::
              IsLeafClaim(d.kids[Entry(id)]) || OnScalars(o, d.kids[Entry(id)])
    decreases c, 0
  {
    var id := EntryId(item);
    assert item in [item];
    if id.Some? && Entry(id.value) in c.kids && !IsLeafClaim(c.kids[Entry(id.value)]) {
      var sub := c.kids[Entry(id.value)];
      var e := BowEntry(item.fields, LiveEntry(live, id.value), sub, id.value, r);
      assert e["orbId"] == Leaf(Str(id.value));
      if Entry(id.value) in d.kids && !IsLeafClaim(d.kids[Entry(id.value)]) {
        OnScalarsKept(item.fields, LiveEntry(live, id.value), sub, d.kids[Entry(id.value)], id.value, r);
      }
    }
  }

  lemma {:induction false} BowListConcat(a: seq<Json>, b: seq<Json>, live: seq<Json>, c: Claims, r: Rules)
    ensures BowList(a + b, live, c, r) == BowList(a, live, c, r) + BowList(b, live, c, r)
    decreases |a|
  {
    if a == [] {
      assert a + b == b;
    } else {
      assert (a + b)[1..] == a[1..] + b;
      BowListConcat(a[1..], b, live, c, r);
    }
  }

  /** Two trees commute on a spec whose claimed leaves are scalars. */
  lemma {:induction false} BowMapCommutes(m: Fields, live: Fields, c: Claims, d: Claims, scope: string, r: Rules)
    requires OnScalars(Obj(m), c) && OnScalars(Obj(m), d)
    ensures BowMap(BowMap(m, live, c, scope, r), live, d, scope, r) == BowMap(BowMap(m, live, d, scope, r), live, c, scope, r)
    decreases c
  {
    var mc, md := BowMap(m, live, c, scope, r), BowMap(m, live, d, scope, r);
    var mcd, mdc := BowMap(mc, live, d, scope, r), BowMap(md, live, c, scope, r);
    forall f ensures Get(mcd, f) == Get(mdc, f) {
      GoalAt(m, live, c, scope, r, f);
      GoalAt(m, live, d, scope, r, f);
      GoalAt(mc, live, d, scope, r, f);
      GoalAt(md, live, c, scope, r, f);
      if f in m && Field(f) in c.kids && Field(f) in d.kids {
        var cs, ds := c.kids[Field(f)], d.kids[Field(f)];
        assert OnScalarsBelow(m[f], cs) && OnScalarsBelow(m[f], ds);
        if !IsLeafClaim(cs) && !IsLeafClaim(ds) {
          match m[f] {
            case Leaf(_) =>
            case Obj(m1) => BowMapCommutes(m1, ObjectOf(Get(live, f)), cs, ds, scope, r);
            case List(items) => BowListCommutes(items, ItemsOf(Get(live, f)), cs, ds, r);
          }
        }
      }
    }
    SameLookups(mcd, mdc);
  }

  lemma {:induction false} BowListCommutes(items: seq<Json>, live: seq<Json>, c: Claims, d: Claims, r: Rules)
    requires OnScalars(List(items), c) && OnScalars(List(items), d)
    ensures BowList(BowList(items, live, c, r), live, d, r) == BowList(BowList(items, live, d, r), live, c, r)
    decreases c, |items|
  {
    if items != [] {
      assert items[0] in items && forall o :: o in items[1..] ==> o in items;
      BowListConcat(BowItem(items[0], live, c, r), BowList(items[1..], live, c, r), live, d, r);
      BowListConcat(BowItem(items[0], live, d, r), BowList(items[1..], live, d, r), live, c, r);
      BowListCommutes(items[1..], live, c, d, r);
      BowItemCommutes(items[0], live, c, d, r);
    }
  }

  lemma {:induction false} BowItemCommutes(item: Json, live: seq<Json>, c: Claims, d: Claims, r: Rules)
    requires OnScalars(List([item]), c) && OnScalars(List([item]), d)
    ensures BowList(BowItem(item, live, c, r), live, d, r) == BowList(BowItem(item, live, d, r), live, c, r)
    decreases c, 0
  {
    assert item in [item];
    Singleton(item, live, c, r);
    Singleton(item, live, d, r);
    var id := EntryId(item);
    if id.Some? && Entry(id.value) in c.kids && Entry(id.value) in d.kids {
      var cs, ds := c.kids[Entry(id.value)], d.kids[Entry(id.value)];
      var lv := LiveEntry(live, id.value);
      if !IsLeafClaim(cs) {
        EntryKeepsId(item.fields, lv, cs, id.value, r);
        Singleton(Obj(BowEntry(item.fields, lv, cs, id.value, r)), live, d, r);
      }
      if !IsLeafClaim(ds) {
        EntryKeepsId(item.fields, lv, ds, id.value, r);
        Singleton(Obj(BowEntry(item.fields, lv, ds, id.value, r)), live, c, r);
      }
      if !IsLeafClaim(cs) && !IsLeafClaim(ds) {
        BowMapCommutes(item.fields, lv, cs, ds, id.value, r);
        KeyThenBow(BowMap(item.fields, lv, cs, id.value, r), lv, ds, id.value, r);
        KeyThenBow(BowMap(item.fields, lv, ds, id.value, r), lv, cs, id.value, r);
      }
    } else if id.Some? && Entry(id.value) in c.kids && !IsLeafClaim(c.kids[Entry(id.value)]) {
      EntryKeepsId(item.fields, LiveEntry(live, id.value), c.kids[Entry(id.value)], id.value, r);
      Singleton(Obj(BowEntry(item.fields, LiveEntry(live, id.value), c.kids[Entry(id.value)], id.value, r)), live, d, r);
    } else if id.Some? && Entry(id.value) in d.kids && !IsLeafClaim(d.kids[Entry(id.value)]) {
      EntryKeepsId(item.fields, LiveEntry(live, id.value), d.kids[Entry(id.value)], id.value, r);
      Singleton(Obj(BowEntry(item.fields, LiveEntry(live, id.value), d.kids[Entry(id.value)], id.value, r)), live, c, r);
    }
  }

  lemma Singleton(item: Json, live: seq<Json>, c: Claims, r: Rules)
    ensures BowList([item], live, c, r) == BowItem(item, live, c, r)
    ensures BowList([], live, c, r) == []
  {
    assert [item][1..] == [];
  }

  lemma EntryKeepsId(e: Fields, live: Fields, c: Claims, id: string, r: Rules)
    ensures EntryId(Obj(BowEntry(e, live, c, id, r))) == Some(id)
  {
    assert BowEntry(e, live, c, id, r)["orbId"] == Leaf(Str(id));
  }

  /** Restoring the list key between two passes changes nothing that the final restore does not. */
  lemma KeyThenBow(e: Fields, live: Fields, c: Claims, id: string, r: Rules)
    ensures BowEntry(e["orbId" := Leaf(Str(id))], live, c, id, r) == BowEntry(e, live, c, id, r)
  {
    var keyed := e["orbId" := Leaf(Str(id))];
    var a, b := BowEntry(keyed, live, c, id, r), BowEntry(e, live, c, id, r);
    forall f ensures Get(a, f) == Get(b, f) {
      if f != "orbId" {
        GoalAt(keyed, live, c, id, r, f);
        GoalAt(e, live, c, id, r, f);
        assert Get(keyed, f) == Get(e, f);
      }
    }
    SameLookups(a, b);
  }

  /** A tree at any position may as well be visited first. */
  lemma {:induction false} VisitFirst(m: Fields, live: Fields, trees: seq<Claims>, i: nat, r: Rules)
    requires i < |trees|
    requires forall t | t in trees :: OnScalars(Obj(m), t)
    ensures BowAll(m, live, trees, r) == BowAll(BowMap(m, live, trees[i], "", r), live, trees[..i] + trees[i + 1..], r)
    decreases |trees|
  {
    var rest := trees[..i] + trees[i + 1..];
    if i == 0 {
      assert rest == trees[1..];
    } else {
      var m0 := BowMap(m, live, trees[0], "", r);
      forall t | t in trees ensures OnScalars(Obj(m0), t) {
        OnScalarsKept(m, live, trees[0], t, "", r);
      }
      VisitFirst(m0, live, trees[1..], i - 1, r);
      BowMapCommutes(m, live, trees[0], trees[i], "", r);
      assert rest[0] == trees[0] && rest[1..] == trees[1..][..i - 1] + trees[1..][i..];
    }
  }

  lemma Occurrence<T>(a: seq<T>, b: seq<T>) returns (i: nat)
    requires a != [] && multiset(a) == multiset(b)
    ensures i < |b| && b[i] == a[0]
    ensures multiset(a[1..]) == multiset(b[..i] + b[i + 1..])
  {
    assert a[0] in multiset(b);
    i :| i < |b| && b[i] == a[0];
    TailMultiset(a);
    RemovedMultiset(b, i);
  }

  /** Any order of the same claim trees leaves the same spec. */
  lemma {:induction false} OrderIrrelevant(m: Fields, live: Fields, a: seq<Claims>, b: seq<Claims>, r: Rules)
    requires multiset(a) == multiset(b)
    requires forall t | t in a :: OnScalars(Obj(m), t)
    ensures BowAll(m, live, a, r) == BowAll(m, live, b, r)
    decreases |a|
  {
    if a == [] {
      assert |b| == |multiset(b)| == |multiset(a)| == 0;
    } else {
      var i := Occurrence(a, b);
      var b' := b[..i] + b[i + 1..];
      forall t | t in b ensures OnScalars(Obj(m), t) {
        assert t in multiset(b);
      }
      VisitFirst(m, live, b, i, r);
      var m0 := BowMap(m, live, a[0], "", r);
      forall t | t in a ensures OnScalars(Obj(m0), t) {
        OnScalarsKept(m, live, a[0], t, "", r);
      }
      OrderIrrelevant(m0, live, a[1..], b', r);
    }
  }
}
