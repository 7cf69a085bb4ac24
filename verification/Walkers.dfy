/** The three walks over claim trees: the flat leaf paths of the reclaim controller, the printed
    paths of the divergence reporter, and the directive keys of the consume pipeline. */
module Walkers {
  import opened Trees
  import BowOut
  import BowOutLeaves
  import Ignored
  import Paths

  /** The paths from a node to the leaf claims below it. */
  function LeafPaths(c: Claims): set<Path>
    decreases c, 0
  {
    set k, q | k in c.kids && q in TailsOf(c.kids[k]) :: [k] + q
  }

  function TailsOf(c: Claims): set<Path>
    decreases c, 1
  {
    if IsLeafClaim(c) then {[]} else LeafPaths(c)
  }

  /** Leaf paths are exactly the places of leaf claims. */
  lemma {:induction false} LeafPathsAreClaims(c: Claims, p: Path)
    ensures p in LeafPaths(c) <==> p != [] && ClaimedAt(c, p)
    decreases |p|
  {
    if p != [] && p[0] in c.kids {
      var sub, q := c.kids[p[0]], p[1..];
      assert p == [p[0]] + q;
      if !IsLeafClaim(sub) {
        LeafPathsAreClaims(sub, q);
      }
      assert q in TailsOf(sub) ==> p in LeafPaths(c);
    }
    if p in LeafPaths(c) {
      var k, q :| k in c.kids && q in TailsOf(c.kids[k]) && p == [k] + q;
      assert p[0] == k && p[1..] == q;
    }
  }

  function Prefixed(prefix: Path, paths: set<Path>): set<Path> {
    set q | q in paths :: prefix + q
  }

  /** The flat walk of the reclaim controller. */
  method WalkLeaves(node: Claims, prefix: Path, seen: set<Path>) returns (out: set<Path>)
    ensures out == seen + Prefixed(prefix, LeafPaths(node))
    decreases node, 0
  {
    out := seen;
    var todo := node.kids.Keys;
    ghost var done: set<Key> := {};
    PathsUnderAll(node);
    while todo != {}
      invariant todo <= node.kids.Keys && done + todo == node.kids.Keys
      invariant out == seen + Prefixed(prefix, PathsUnder(node, done))
      decreases |todo|
    {
      var k :| k in todo;
      out := WalkLeaf(k, node.kids[k], prefix, out);
      PathsUnderOneMore(node, done, k, prefix);
      todo, done := todo - {k}, done + {k};
    }
  }

  method WalkLeaf(k: Key, sub: Claims, prefix: Path, seen: set<Path>) returns (out: set<Path>)
    ensures out == seen + Prefixed(prefix + [k], TailsOf(sub))
    decreases sub, 1
  {
    if IsLeafClaim(sub) {
      out := seen + {prefix + [k]};
      assert Prefixed(prefix + [k], {[]}) == {prefix + [k]} by {
        assert prefix + [k] + [] == prefix + [k];
      }
    } else {
      out := WalkLeaves(sub, prefix + [k], seen);
    }
  }

  ghost function PathsUnder(c: Claims, part: set<Key>): set<Path> {
    set k, q | k in part && k in c.kids && q in TailsOf(c.kids[k]) :: [k] + q
  }

  lemma PathsUnderAll(c: Claims)
    ensures PathsUnder(c, {}) == {} && PathsUnder(c, c.kids.Keys) == LeafPaths(c)
  {
  }

  lemma PathsUnderOneMore(c: Claims, part: set<Key>, k: Key, prefix: Path)
    requires k in c.kids
    ensures Prefixed(prefix, PathsUnder(c, part + {k})) ==
            Prefixed(prefix, PathsUnder(c, part)) + Prefixed(prefix + [k], TailsOf(c.kids[k]))
  {
    forall q | q in TailsOf(c.kids[k]) ensures prefix + [k] + q == prefix + ([k] + q) && [k] + q in PathsUnder(c, part + {k}) {
    }
    forall p | p in PathsUnder(c, part + {k})
      ensures prefix + p in Prefixed(prefix, PathsUnder(c, part)) + Prefixed(prefix + [k], TailsOf(c.kids[k]))
    {
      var j, q :| j in part + {k} && j in c.kids && q in TailsOf(c.kids[j]) && p == [j] + q;
      assert prefix + ([j] + q) == prefix + [j] + q;
    }
  }

  // ----- the printed walk of the divergence reporter

  datatype AdminPath = AdminPath(path: string, manager: string)

  predicate HasMark(p: Path) {
    Mark in p
  }

  /** The leaf paths without presence markers. */
  function FieldPaths(c: Claims): set<Path> {
    set p | p in LeafPaths(c) && !HasMark(p)
  }

  /** What the printed walk emits: one path per leaf, in some order. */
  ghost predicate Emits(out: seq<AdminPath>, keys: seq<Path>, prefix: string, manager: string, paths: set<Path>) {
    && |out| == |keys|
    && (forall i | 0 <= i < |out| :: out[i] == AdminPath(Paths.PathFrom(prefix, keys[i]), manager))
    && (forall i, k | 0 <= i < k < |keys| :: keys[i] != keys[k])
    && (forall p :: p in keys <==> p in paths)
  }

  /** Emit the leaf paths below node; a node whose children are all leaves is emitted by a look-ahead. */
  method WalkFields(node: Claims, prefix: string, manager: string) returns (out: seq<AdminPath>)
    requires prefix != "" || Field("") !in node.kids
    ensures exists keys :: Emits(out, keys, prefix, manager, FieldPaths(node))
    decreases node
  {
    out := [];
    ghost var keys: seq<Path> := [];
    var todo := node.kids.Keys;
    ghost var done: set<Key> := {};
    while todo != {}
      invariant todo <= node.kids.Keys && done == node.kids.Keys - todo
      invariant Emits(out, keys, prefix, manager, FieldsUnder(node, done))
      decreases |todo|
    {
      var key :| key in todo;
      var path := Paths.FieldKeyToPath(prefix, key);
      var child := node.kids[key];
      ghost var before := done;
      todo, done := todo - {key}, done + {key};
      var more: seq<AdminPath> := [];
      ghost var moreKeys: seq<Path> := [];
      if path == "" {
        MarkedAdds(node, before, key);
      } else {
        if IsLeafClaim(child) {
          more, moreKeys := [AdminPath(path, manager)], [[]];
        } else {
          var hasSubfields := exists k | k in child.kids :: !IsLeafClaim(child.kids[k]);
          if hasSubfields {
            more := WalkFields(child, path, manager);
          } else {
            more := EmitLeaves(child, path, manager);
          }
          moreKeys :| Emits(more, moreKeys, path, manager, FieldPaths(child));
        }
        EmitUnder(node, before, key, prefix, manager, out, keys, more, moreKeys);
      }
      out, keys := out + more, keys + Under(key, moreKeys);
    }
    assert FieldsUnder(node, done) == FieldPaths(node) by {
      PathsUnderAll(node);
      assert done == node.kids.Keys;
    }
    assert Emits(out, keys, prefix, manager, FieldPaths(node));
  }

  /** The look-ahead branch: every child is a leaf. */
  method EmitLeaves(child: Claims, path: string, manager: string) returns (out: seq<AdminPath>)
    requires path != "" && !IsLeafClaim(child)
    requires forall k | k in child.kids :: IsLeafClaim(child.kids[k])
    ensures exists keys :: Emits(out, keys, path, manager, FieldPaths(child))
  {
    out := [];
    ghost var keys: seq<Path> := [];
    var todo := child.kids.Keys;
    while todo != {}
      invariant todo <= child.kids.Keys
      invariant Emits(out, keys, path, manager, set k | k in child.kids && k !in todo && !k.Mark? :: [k])
      decreases |todo|
    {
      var k :| k in todo;
      todo := todo - {k};
      var leafPath := Paths.FieldKeyToPath(path, k);
      if leafPath != "" {
        assert Paths.PathFrom(path, [k]) == leafPath;
        assert [k] !in keys;
        out, keys := out + [AdminPath(leafPath, manager)], keys + [[k]];
      }
    }
    FlatFieldPaths(child);
    assert Emits(out, keys, path, manager, FieldPaths(child));
  }

  ghost function FieldsUnder(c: Claims, part: set<Key>): set<Path> {
    set p | p in PathsUnder(c, part) && !HasMark(p)
  }

  /** The key paths of a child, seen from its parent. */
  ghost function Under(k: Key, keys: seq<Path>): seq<Path> {
    seq(|keys|, i requires 0 <= i < |keys| => [k] + keys[i])
  }

  function FieldTails(c: Claims): set<Path> {
    set p | p in TailsOf(c) && !HasMark(p)
  }

  lemma MarkedAdds(c: Claims, part: set<Key>, k: Key)
    requires k in c.kids && k.Mark?
    ensures FieldsUnder(c, part + {k}) == FieldsUnder(c, part)
  {
  }

  /** Below a node whose children are all leaves, the paths are the unmarked children. */
  lemma FlatFieldPaths(c: Claims)
    requires forall k | k in c.kids :: IsLeafClaim(c.kids[k])
    ensures FieldPaths(c) == set k | k in c.kids && !k.Mark? :: [k]
  {
    forall p | p in FieldPaths(c) ensures p in (set k | k in c.kids && !k.Mark? :: [k]) {
      var k, q :| k in c.kids && q in TailsOf(c.kids[k]) && p == [k] + q;
      assert p == [k];
      assert k in p;
    }
    forall k | k in c.kids && !k.Mark? ensures [k] in FieldPaths(c) {
      assert [] in TailsOf(c.kids[k]) && [k] + [] == [k];
    }
  }

  lemma EmitUnder(c: Claims, part: set<Key>, k: Key, prefix: string, manager: string,
      out: seq<AdminPath>, keys: seq<Path>, more: seq<AdminPath>, moreKeys: seq<Path>)
    requires k in c.kids && k !in part && !k.Mark?
    requires Emits(out, keys, prefix, manager, FieldsUnder(c, part))
    requires Emits(more, moreKeys, Paths.FieldKeyToPath(prefix, k), manager, FieldTails(c.kids[k]))
    ensures Emits(out + more, keys + Under(k, moreKeys), prefix, manager, FieldsUnder(c, part + {k}))
  {
    var outs, all := out + more, keys + Under(k, moreKeys);
    forall i | 0 <= i < |outs| ensures outs[i] == AdminPath(Paths.PathFrom(prefix, all[i]), manager) {
      if i >= |keys| {
        var q := moreKeys[i - |keys|];
        assert all[i] == [k] + q && ([k] + q)[1..] == q;
        assert Paths.PathFrom(prefix, [k] + q) == Paths.PathFrom(Paths.FieldKeyToPath(prefix, k), q);
      }
    }
    forall p | p in keys ensures p != [] && p[0] != k {
      assert p in FieldsUnder(c, part);
    }
    forall i, j | 0 <= i < j < |all| ensures all[i] != all[j] {
      if i >= |keys| {
        assert all[i][1..] == moreKeys[i - |keys|] && all[j][1..] == moreKeys[j - |keys|];
      } else if j >= |keys| {
        assert all[i] in keys && all[j][0] == k;
      }
    }
    forall p ensures p in all <==> p in FieldsUnder(c, part + {k}) {
      UnderPaths(c, part, k, keys, moreKeys, p);
    }
  }

  lemma UnderPaths(c: Claims, part: set<Key>, k: Key, keys: seq<Path>, moreKeys: seq<Path>, p: Path)
    requires k in c.kids && k !in part && !k.Mark?
    requires (forall q :: q in keys <==> q in FieldsUnder(c, part)) && forall q :: q in moreKeys <==> q in FieldTails(c.kids[k])
    ensures p in keys + Under(k, moreKeys) <==> p in FieldsUnder(c, part + {k})
  {
    if p in Under(k, moreKeys) {
      var i :| 0 <= i < |moreKeys| && p == Under(k, moreKeys)[i];
      assert moreKeys[i] in moreKeys && p == [k] + moreKeys[i];
      assert HasMark(p) <==> HasMark(moreKeys[i]);
    }
    if p in FieldsUnder(c, part + {k}) && p !in FieldsUnder(c, part) {
      var j, q :| j in part + {k} && j in c.kids && q in TailsOf(c.kids[j]) && p == [j] + q;
      assert j == k;
      assert HasMark(q) ==> Mark in p;
      assert q in FieldTails(c.kids[k]);
      var i :| 0 <= i < |moreKeys| && moreKeys[i] == q;
      assert Under(k, moreKeys)[i] == p;
    }
  }

  // ----- the walks agree

  predicate HasKey(p: Path, scope: string, key: string) {
    BowOutLeaves.EndsInField(p) && BowOut.TakeoverKey(BowOutLeaves.ScopeOf(p, scope), p[|p| - 1].name) == key
  }

  /** The directive keys the consume pipeline collects are those of the field leaves: the same leaves
      the reporter prints and the reclaim controller flattens, markers and whole entries set aside. */
  lemma {:induction false} WalksAgree(c: Claims, scope: string, key: string)
    ensures key in Ignored.ClaimedKeys(c, scope) <==> exists p :: p in FieldPaths(c) && HasKey(p, scope, key)
    decreases c, 0
  {
    if key in Ignored.ClaimedKeys(c, scope) {
      var k :| k in c.kids && key in Ignored.KeysBelow(k, c.kids[k], scope);
      KeyHasPath(c, k, scope, key);
    }
    if p :| p in FieldPaths(c) && HasKey(p, scope, key) {
      var k, q :| k in c.kids && q in TailsOf(c.kids[k]) && p == [k] + q;
      PathHasKey(c, k, q, scope, key);
    }
  }

  lemma {:induction false} KeyHasPath(c: Claims, k: Key, scope: string, key: string)
    requires k in c.kids && key in Ignored.KeysBelow(k, c.kids[k], scope)
    ensures exists p :: p in FieldPaths(c) && HasKey(p, scope, key)
    decreases c.kids[k], 1
  {
    var sub := c.kids[k];
    if IsLeafClaim(sub) {
      assert [] in TailsOf(sub) && [k] + [] == [k];
      assert [k][1..] == [] && BowOutLeaves.ScopeOf([k], scope) == scope;
      assert [k] in FieldPaths(c) && HasKey([k], scope, key);
    } else {
      var inner := if k.Entry? then k.orbId else scope;
      WalksAgree(sub, inner, key);
      var q :| q in FieldPaths(sub) && HasKey(q, inner, key);
      assert ([k] + q)[1..] == q && HasMark([k] + q) == HasMark(q);
      assert q in TailsOf(sub) && [k] + q in FieldPaths(c);
      assert HasKey([k] + q, scope, key);
    }
  }

  lemma {:induction false} PathHasKey(c: Claims, k: Key, q: Path, scope: string, key: string)
    requires k in c.kids && q in TailsOf(c.kids[k])
    requires !HasMark([k] + q) && HasKey([k] + q, scope, key)
    ensures key in Ignored.ClaimedKeys(c, scope)
    decreases c.kids[k], 1
  {
    var sub := c.kids[k];
    assert k in [k] + q && ([k] + q)[1..] == q;
    if IsLeafClaim(sub) {
      assert q == [] && BowOutLeaves.ScopeOf([k] + q, scope) == scope;
      assert key in Ignored.KeysBelow(k, sub, scope);
    } else {
      var inner := if k.Entry? then k.orbId else scope;
      assert HasMark(q) == HasMark([k] + q);
      LeafPathsAreClaims(sub, q);
      assert HasKey(q, inner, key) && q in FieldPaths(sub);
      WalksAgree(sub, inner, key);
      assert key in Ignored.KeysBelow(k, sub, scope);
    }
  }
}
