/** Stale Ignore directives: which keys the local managers claim, and why dropping the directives
    that name no claimed key changes nothing in the bow-out. */
module Ignored {
  import opened Base
  import opened Trees
  import opened BowOut

  /** A takeover or ignore directive: one field of one server. */
  datatype Directive = Directive(server: string, field: string)

  /** Every "server|field" key of a leaf claim in the tree. */
  function ClaimedKeys(c: Claims, scope: string): set<string>
    decreases c, 0
  {
    set k, s | k in c.kids && s in KeysBelow(k, c.kids[k], scope) :: s
  }

  function KeysBelow(k: Key, sub: Claims, scope: string): set<string>
    decreases sub, 1
  {
    match k
    case Field(f) => if IsLeafClaim(sub) then {TakeoverKey(scope, f)} else ClaimedKeys(sub, scope)
    case Entry(id) => if IsLeafClaim(sub) then {} else ClaimedKeys(sub, id)
    case Mark => {}
  }

  function KeysOfTrees(trees: seq<Claims>): set<string> {
    if trees == [] then {} else ClaimedKeys(trees[0], "") + KeysOfTrees(trees[1..])
  }

  function DirectiveKeys(entries: seq<Directive>): set<string> {
    set e | e in entries :: TakeoverKey(e.server, e.field)
  }

  /** Takeover wins when both lists name a key. */
  function RulesOf(takeover: seq<Directive>, ignored: seq<Directive>): Rules {
    Rules(DirectiveKeys(takeover), DirectiveKeys(ignored) - DirectiveKeys(takeover))
  }

  /** The part of ClaimedKeys that comes from the given children. */
  ghost function KeysFrom(c: Claims, part: set<Key>, scope: string): set<string> {
    set k, s | k in part && k in c.kids && s in KeysBelow(k, c.kids[k], scope) :: s
  }

  lemma KeysFromOneMore(c: Claims, part: set<Key>, k: Key, scope: string)
    requires k in c.kids
    ensures KeysFrom(c, part + {k}, scope) == KeysFrom(c, part, scope) + KeysBelow(k, c.kids[k], scope)
  {
  }

  lemma KeysFromAll(c: Claims, scope: string)
    ensures KeysFrom(c, {}, scope) == {}
    ensures KeysFrom(c, c.kids.Keys, scope) == ClaimedKeys(c, scope)
  {
  }

  method WalkLocalClaims(node: Claims, scope: string, seen: set<string>) returns (out: set<string>)
    ensures out == seen + ClaimedKeys(node, scope)
    decreases node, 0
  {
    out := seen;
    var todo := node.kids.Keys;
    ghost var done := {};
    KeysFromAll(node, scope);
    while todo != {}
      invariant todo <= node.kids.Keys && done + todo == node.kids.Keys
      invariant out == seen + KeysFrom(node, done, scope)
      decreases |todo|
    {
      var k :| k in todo;
      out := WalkLocalClaim(k, node.kids[k], scope, out);
      KeysFromOneMore(node, done, k, scope);
      todo, done := todo - {k}, done + {k};
    }
  }

  method WalkLocalClaim(k: Key, sub: Claims, scope: string, seen: set<string>) returns (out: set<string>)
    ensures out == seen + KeysBelow(k, sub, scope)
    decreases sub, 1
  {
    out := seen;
    match k {
      case Field(f) =>
        if IsLeafClaim(sub) {
          out := out + {TakeoverKey(scope, f)};
        } else {
          out := WalkLocalClaims(sub, scope, out);
        }
      case Entry(id) =>
        if !IsLeafClaim(sub) {
          out := WalkLocalClaims(sub, id, out);
        }
      case Mark =>
    }
  }

  method CollectLocalClaimedKeys(managed: seq<Managed>) returns (out: set<string>)
    ensures out == KeysOfTrees(LocalTrees(managed))
  {
    out := {};
    for i := 0 to |managed|
      invariant KeysOfTrees(LocalTrees(managed)) == out + KeysOfTrees(LocalTrees(managed[i..]))
    {
      var entry := managed[i];
      assert managed[i..][1..] == managed[i + 1..];
      if "local:" <= entry.manager && entry.spec.Some? {
        assert LocalTrees(managed[i..])[1..] == LocalTrees(managed[i + 1..]);
        out := WalkLocalClaims(entry.spec.value, "", out);
      }
    }
  }

  function ActiveOnly(entries: seq<Directive>, claimed: set<string>): seq<Directive> {
    if entries == [] then []
    else
      var rest := ActiveOnly(entries[1..], claimed);
      if TakeoverKey(entries[0].server, entries[0].field) in claimed then [entries[0]] + rest else rest
  }

  method FilterActiveIgnored(entries: seq<Directive>, claimed: set<string>) returns (kept: seq<Directive>)
    ensures kept == ActiveOnly(entries, claimed)
  {
    kept := [];
    for i := 0 to |entries|
      invariant ActiveOnly(entries, claimed) == kept + ActiveOnly(entries[i..], claimed)
    {
      assert entries[i..][1..] == entries[i + 1..];
      if TakeoverKey(entries[i].server, entries[i].field) in claimed {
        kept := kept + [entries[i]];
      }
    }
  }

  /** The directives that survive are exactly those whose key is claimed. */
  lemma {:induction false} ActiveOnlyKeeps(entries: seq<Directive>, claimed: set<string>)
    ensures forall e :: e in ActiveOnly(entries, claimed) <==> e in entries && TakeoverKey(e.server, e.field) in claimed
  {
    if entries != [] {
      ActiveOnlyKeeps(entries[1..], claimed);
      assert forall e :: e in entries <==> e == entries[0] || e in entries[1..];
    }
  }

  /** The walk consults only keys that the claim collection emitted. */
  lemma {:induction false} OnlyClaimedKeysMatter(m: Fields, live: Fields, c: Claims, scope: string, r: Rules, q: Rules)
    requires r.takeover == q.takeover
    requires forall k | k in ClaimedKeys(c, scope) :: k in r.ignored <==> k in q.ignored
    ensures BowMap(m, live, c, scope, r) == BowMap(m, live, c, scope, q)
    decreases c
  {
    var a, b := BowMap(m, live, c, scope, r), BowMap(m, live, c, scope, q);
    forall f ensures Get(a, f) == Get(b, f) {
      GoalAt(m, live, c, scope, r, f);
      GoalAt(m, live, c, scope, q, f);
      if f in m && Field(f) in c.kids {
        var sub := c.kids[Field(f)];
        assert forall s :: s in KeysBelow(Field(f), sub, scope) ==> s in ClaimedKeys(c, scope);
        if !IsLeafClaim(sub) {
          match m[f] {
            case Leaf(_) =>
            case Obj(m1) => OnlyClaimedKeysMatter(m1, ObjectOf(Get(live, f)), sub, scope, r, q);
            case List(items) => OnlyClaimedKeysMatterInList(items, ItemsOf(Get(live, f)), sub, scope, r, q);
          }
        }
      }
    }
    SameLookups(a, b);
  }

  lemma {:induction false} OnlyClaimedKeysMatterInList(items: seq<Json>, live: seq<Json>, c: Claims, scope: string, r: Rules, q: Rules)
    requires r.takeover == q.takeover
    requires forall k | k in ClaimedKeys(c, scope) :: k in r.ignored <==> k in q.ignored
    ensures BowList(items, live, c, r) == BowList(items, live, c, q)
    decreases c, |items|
  {
    if items != [] {
      OnlyClaimedKeysMatterInList(items[1..], live, c, scope, r, q);
      var id := EntryId(items[0]);
      if id.Some? && Entry(id.value) in c.kids && !IsLeafClaim(c.kids[Entry(id.value)]) {
        var sub := c.kids[Entry(id.value)];
        assert forall s :: s in KeysBelow(Entry(id.value), sub, scope) ==> s in ClaimedKeys(c, scope);
        OnlyClaimedKeysMatter(items[0].fields, LiveEntry(live, id.value), sub, id.value, r, q);
      }
      assert BowItem(items[0], live, c, r) == BowItem(items[0], live, c, q);
    }
  }

  lemma {:induction false} OnlyCollectedKeysMatter(m: Fields, live: Fields, trees: seq<Claims>, r: Rules, q: Rules)
    requires r.takeover == q.takeover
    requires forall k | k in KeysOfTrees(trees) :: k in r.ignored <==> k in q.ignored
    ensures BowAll(m, live, trees, r) == BowAll(m, live, trees, q)
    decreases |trees|
  {
    if trees != [] {
      OnlyClaimedKeysMatter(m, live, trees[0], "", r, q);
      OnlyCollectedKeysMatter(BowMap(m, live, trees[0], "", r), live, trees[1..], r, q);
    }
  }

  /** Dropping stale Ignore directives never changes which leaves the controller bows out of. */
  lemma FilteringIsConservative(m: Fields, live: Fields, managed: seq<Managed>, takeover: seq<Directive>, ignored: seq<Directive>)
    ensures var trees := LocalTrees(managed);
            BowAll(m, live, trees, RulesOf(takeover, ActiveOnly(ignored, KeysOfTrees(trees)))) ==
            BowAll(m, live, trees, RulesOf(takeover, ignored))
  {
    var trees := LocalTrees(managed);
    var active := ActiveOnly(ignored, KeysOfTrees(trees));
    ActiveOnlyKeeps(ignored, KeysOfTrees(trees));
    OnlyCollectedKeysMatter(m, live, trees, RulesOf(takeover, active), RulesOf(takeover, ignored));
  }

  /** Directive keys name one (server, field) pair as long as field names hold no '|'. */
  lemma TakeoverKeyInjective(s: string, f: string, s': string, f': string)
    requires '|' !in f && '|' !in f'
    requires TakeoverKey(s, f) == TakeoverKey(s', f')
    ensures s == s' && f == f'
  {
    if |s| < |s'| {
      SeparatorInTail(s, f, s', f');
    } else if |s'| < |s| {
      SeparatorInTail(s', f', s, f);
    }
    var k := TakeoverKey(s, f);
    assert s == k[..|s|] && f == k[|s| + 1..];
    assert s' == TakeoverKey(s', f')[..|s'|] && f' == TakeoverKey(s', f')[|s'| + 1..];
  }

  lemma SeparatorInTail(s: string, f: string, s': string, f': string)
    requires |s| < |s'| && TakeoverKey(s, f) == TakeoverKey(s', f')
    ensures '|' in f
  {
    var k := TakeoverKey(s, f);
    assert k == TakeoverKey(s', f') && k[|s'|] == '|';
    assert f[|s'| - |s| - 1] == k[|s'|];
  }
}
