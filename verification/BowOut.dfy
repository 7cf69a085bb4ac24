/** The bow-out walk: which leaves of an intended spec the controller leaves out of its own
    apply because a local manager holds them. The specification functions say what the walk
    leaves; the methods perform it by deleting in place, taking map keys in any order. */
module BowOut {
  import opened Base
  import opened Trees

  /** Key of one (server, field) directive; the server is empty at top level. */
  function TakeoverKey(server: string, field: string): string {
    server + "|" + field
  }

  datatype Rules = Rules(takeover: set<string>, ignored: set<string>)

  /** The decision for one leaf claim: true when the leaf leaves the apply body. */
  predicate Withheld(intent: Fields, live: Fields, f: string, scope: string, r: Rules) {
    var key := TakeoverKey(scope, f);
    key in r.ignored || (key !in r.takeover && Get(intent, f) != Get(live, f))
  }

  function ObjectOf(j: Option<Json>): Fields {
    if j.Some? && j.value.Obj? then j.value.fields else map[]
  }

  function ItemsOf(j: Option<Json>): seq<Json> {
    if j.Some? && j.value.List? then j.value.items else []
  }

  function BowMap(intent: Fields, live: Fields, c: Claims, scope: string, r: Rules): Fields
    decreases c, 0, 0
  {
    map f | f in intent && !(Field(f) in c.kids && IsLeafClaim(c.kids[Field(f)]) && Withheld(intent, live, f, scope, r))
      :: if Field(f) in c.kids && !IsLeafClaim(c.kids[Field(f)])
         then BowJson(intent[f], Get(live, f), c.kids[Field(f)], scope, r)
         else intent[f]
  }

  function BowJson(intent: Json, live: Option<Json>, c: Claims, scope: string, r: Rules): Json
    decreases c, 2, 0
  {
    match intent
    case Leaf(_) => intent
    case Obj(m) => Obj(BowMap(m, ObjectOf(live), c, scope, r))
    case List(items) => List(BowList(items, ItemsOf(live), c, r))
  }

  function BowList(items: seq<Json>, live: seq<Json>, c: Claims, r: Rules): seq<Json>
    decreases c, 1, |items|
  {
    if items == [] then [] else BowItem(items[0], live, c, r) + BowList(items[1..], live, c, r)
  }

  /** One list item: dropped when the whole entry is claimed, else bowed out with its key kept. */
  function BowItem(item: Json, live: seq<Json>, c: Claims, r: Rules): seq<Json>
    decreases c, 0, 0
  {
    var id := EntryId(item);
    if id.None? || Entry(id.value) !in c.kids then [item]
    else if IsLeafClaim(c.kids[Entry(id.value)]) then []
    else [Obj(BowEntry(item.fields, LiveEntry(live, id.value), c.kids[Entry(id.value)], id.value, r))]
  }

  function BowEntry(e: Fields, live: Fields, c: Claims, id: string, r: Rules): Fields
    decreases c, 1, 0
  {
    BowMap(e, live, c, id, r)["orbId" := Leaf(Str(id))]
  }

  /** Index of live entries by orbId: the last one with a given non-empty id wins. */
  function LiveEntry(live: seq<Json>, id: string): Fields {
    if live == [] || id == "" then map[]
    else if EntryId(live[|live| - 1]) == Some(id) then live[|live| - 1].fields
    else LiveEntry(live[..|live| - 1], id)
  }

  /** A managedFields entry: the writer and its subtree under f:spec, if it claims any spec field. */
  datatype Managed = Managed(manager: string, spec: Option<Claims>)

  predicate IsLocal(manager: string) {
    "local:" <= manager
  }

  /** The spec claim trees of the local managers, in managedFields order. */
  function LocalTrees(managed: seq<Managed>): seq<Claims> {
    if managed == [] then []
    else
      var rest := LocalTrees(managed[1..]);
      if IsLocal(managed[0].manager) && managed[0].spec.Some? then [managed[0].spec.value] + rest else rest
  }

  /** The walk over all managers' claim trees, one after the other. */
  function BowAll(intent: Fields, live: Fields, trees: seq<Claims>, r: Rules): Fields
    decreases |trees|
  {
    if trees == [] then intent
    else BowAll(BowMap(intent, live, trees[0], "", r), live, trees[1..], r)
  }

  /** What the walk leaves at one field. */
  function BowField(intent: Fields, live: Fields, c: Claims, scope: string, r: Rules, f: string): Option<Json>
    decreases c, 3, 0
  {
    if f !in intent || Field(f) !in c.kids then Get(intent, f)
    else if IsLeafClaim(c.kids[Field(f)]) then
      if Withheld(intent, live, f, scope, r) then None else Some(intent[f])
    else Some(BowJson(intent[f], Get(live, f), c.kids[Field(f)], scope, r))
  }

  lemma GoalAt(intent: Fields, live: Fields, c: Claims, scope: string, r: Rules, f: string)
    ensures Get(BowMap(intent, live, c, scope, r), f) == BowField(intent, live, c, scope, r, f)
  {
  }

  method DeleteOwnedPaths(intentMap: Fields, liveMap: Fields, owned: Claims, scope: string, r: Rules)
    returns (out: Fields)
    ensures out == BowMap(intentMap, liveMap, owned, scope, r)
    decreases owned, 0, 0
  {
    out := intentMap;
    var todo := owned.kids.Keys;
    ghost var goal := BowMap(intentMap, liveMap, owned, scope, r);
    while todo != {}
      invariant todo <= owned.kids.Keys
      invariant forall f :: Get(out, f) == if Field(f) in todo then Get(intentMap, f) else Get(goal, f)
      decreases |todo|
    {
      var ownedKey :| ownedKey in todo;
      var before := out;
      todo := todo - {ownedKey};
      if ownedKey.Field? {
        var field := ownedKey.name;
        var sub := owned.kids[ownedKey];
        assert Get(before, field) == Get(intentMap, field);
        GoalAt(intentMap, liveMap, owned, scope, r, field);
        if IsLeafClaim(sub) {
          var key := TakeoverKey(scope, field);
          if key in r.ignored {
            out := out - {field};
          } else if key in r.takeover {
          } else if Get(out, field) != Get(liveMap, field) {
            out := out - {field};
          }
        } else if field in out {
          match out[field] {
            case Obj(m) =>
              var m' := DeleteOwnedPaths(m, ObjectOf(Get(liveMap, field)), sub, scope, r);
              out := out[field := Obj(m')];
            case List(items) =>
              var items' := FilterOwnedFromList(items, ItemsOf(Get(liveMap, field)), sub, r);
              out := out[field := List(items')];
            case Leaf(_) =>
          }
        }
        assert Get(out, field) == Get(goal, field);
        assert forall f :: f != field ==> Get(out, f) == Get(before, f);
      }
    }
    SameLookups(out, goal);
  }

  method IndexByOrbId(live: seq<Json>) returns (liveByOrbId: map<string, Fields>)
    ensures forall id :: (if id in liveByOrbId then liveByOrbId[id] else map[]) == LiveEntry(live, id)
  {
    liveByOrbId := map[];
    for i := 0 to |live|
      invariant forall id :: (if id in liveByOrbId then liveByOrbId[id] else map[]) == LiveEntry(live[..i], id)
    {
      assert live[..i + 1][..i] == live[..i];
      var id := EntryId(live[i]);
      if id.Some? && id.value != "" {
        liveByOrbId := liveByOrbId[id.value := live[i].fields];
      }
    }
    assert live[..|live|] == live;
  }

  method FilterOwnedFromList(target: seq<Json>, live: seq<Json>, owned: Claims, r: Rules)
    returns (out: seq<Json>)
    ensures out == BowList(target, live, owned, r)
    decreases owned, 1, 0
  {
    var liveByOrbId := IndexByOrbId(live);
    out := [];
    for i := 0 to |target|
      invariant BowList(target, live, owned, r) == out + BowList(target[i..], live, owned, r)
    {
      var item := target[i];
      var id := EntryId(item);
      var kept := [item];
      ghost var rest := BowList(target[i + 1..], live, owned, r);
      if id.Some? && Entry(id.value) in owned.kids {
        var sub := owned.kids[Entry(id.value)];
        if IsLeafClaim(sub) {
          kept := [];
        } else {
          var liveEntry := if id.value in liveByOrbId then liveByOrbId[id.value] else map[];
          var entry := DeleteOwnedPaths(item.fields, liveEntry, sub, id.value, r);
          kept := [Obj(entry["orbId" := Leaf(Str(id.value))])];
        }
      }
      assert kept == BowItem(item, live, owned, r);
      assert target[i..][0] == item && target[i..][1..] == target[i + 1..];
      assert BowList(target[i..], live, owned, r) == kept + rest;
      Associative(out, kept, rest);
      out := out + kept;
    }
  }

  method OmitAdminOwnedFields(intent: Fields, live: Fields, managed: seq<Managed>, r: Rules)
    returns (patch: Fields)
    ensures patch == BowAll(intent, live, LocalTrees(managed), r)
  {
    patch := intent;
    for i := 0 to |managed|
      invariant BowAll(intent, live, LocalTrees(managed), r) == BowAll(patch, live, LocalTrees(managed[i..]), r)
    {
      var entry := managed[i];
      assert managed[i..][1..] == managed[i + 1..];
      if "local:" <= entry.manager && entry.spec.Some? {
        assert LocalTrees(managed[i..])[1..] == LocalTrees(managed[i + 1..]);
        patch := DeleteOwnedPaths(patch, live, entry.spec.value, "", r);
      }
    }
  }
}
