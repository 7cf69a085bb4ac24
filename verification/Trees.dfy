/** Decoded JSON values, decoded managedFields trees, and paths into both. */
module Trees {
  import opened Base

  datatype Scalar = Bool(b: bool) | Str(s: string) | Num(n: int)

  datatype Json =
    | Leaf(v: Scalar)
    | Obj(fields: map<string, Json>)
    | List(items: seq<Json>)

  type Fields = map<string, Json>

  /** A key of a FieldsV1 tree: "f:name", k:{"orbId":"id"}, or a marker such as ".". */
  datatype Key = Field(name: string) | Entry(orbId: string) | Mark

  /** A FieldsV1 subtree; a node without children is a leaf claim. */
  datatype Claims = Claims(kids: map<Key, Claims>)

  const LEAF_CLAIM := Claims(map[])

  predicate IsLeafClaim(c: Claims) {
    c.kids == map[]
  }

  type Path = seq<Key>

  /** True when the tree holds a leaf claim exactly at p. */
  predicate ClaimedAt(c: Claims, p: Path)
    decreases |p|
  {
    if p == [] then IsLeafClaim(c)
    else p[0] in c.kids && ClaimedAt(c.kids[p[0]], p[1..])
  }

  /** The string under "orbId" of an object, when there is one. */
  function EntryId(j: Json): Option<string> {
    if j.Obj? then IdOf(j.fields) else None
  }

  function IdOf(e: Fields): Option<string> {
    if "orbId" in e && e["orbId"].Leaf? && e["orbId"].v.Str? then Some(e["orbId"].v.s) else None
  }

  /** The first list entry that carries the given orbId. */
  function Find(items: seq<Json>, id: string): Option<Fields> {
    if items == [] then None
    else if EntryId(items[0]) == Some(id) then Some(items[0].fields)
    else Find(items[1..], id)
  }

  lemma {:induction false} FindIndex(items: seq<Json>, id: string) returns (i: nat)
    requires Find(items, id).Some?
    ensures i < |items| && items[i] == Obj(Find(items, id).value) && EntryId(items[i]) == Some(id)
  {
    if EntryId(items[0]) == Some(id) {
      i := 0;
    } else {
      i := FindIndex(items[1..], id);
      i := i + 1;
    }
  }

  lemma {:induction false} FindNone(items: seq<Json>, id: string, i: nat)
    requires Find(items, id).None? && i < |items|
    ensures EntryId(items[i]) != Some(id)
  {
    if i > 0 {
      FindNone(items[1..], id, i - 1);
    }
  }

  lemma {:induction false} FindAbsent(items: seq<Json>, id: string)
    requires forall i | 0 <= i < |items| :: EntryId(items[i]) != Some(id)
    ensures Find(items, id).None?
  {
    if items != [] {
      assert forall i | 0 <= i < |items[1..]| :: items[1..][i] == items[i + 1];
      FindAbsent(items[1..], id);
    }
  }

  function Lookup(j: Json, p: Path): Option<Json>
    decreases |p|
  {
    if p == [] then Some(j)
    else match p[0]
      case Field(f) => if j.Obj? && f in j.fields then Lookup(j.fields[f], p[1..]) else None
      case Entry(id) =>
        if j.List? then
          var e := Find(j.items, id);
          if e.Some? then Lookup(Obj(e.value), p[1..]) else None
        else None
      case Mark => None
  }

  /** The scalar stored at p, if p leads to one. */
  function At(j: Json, p: Path): Option<Scalar> {
    var found := Lookup(j, p);
    if found.Some? && found.value.Leaf? then Some(found.value.v) else None
  }

  lemma LookupField(m: Fields, p: Path)
    requires |p| == 1 && p[0].Field?
    ensures Lookup(Obj(m), p) == Get(m, p[0].name)
  {
    assert p[1..] == [];
  }

  /** Every list below j holds entries with pairwise different, non-empty orbIds (list-map keys). */
  ghost predicate Keyed(j: Json) {
    match j
    case Leaf(_) => true
    case Obj(m) => forall f | f in m :: Keyed(m[f])
    case List(items) =>
      && (forall i | 0 <= i < |items| :: Keyed(items[i]))
      && KeyedItems(items)
  }

  ghost predicate KeyedItems(items: seq<Json>) {
    && (forall i | 0 <= i < |items| :: EntryId(items[i]).Some? && EntryId(items[i]).value != "")
    && (forall i, k | 0 <= i < k < |items| :: EntryId(items[i]) != EntryId(items[k]))
  }

  /** In a keyed list the entry found for an id is the only one with that id. */
  lemma FindUnique(items: seq<Json>, i: nat)
    requires KeyedItems(items) && i < |items|
    ensures Find(items, EntryId(items[i]).value) == Some(items[i].fields)
  {
    var id := EntryId(items[i]).value;
    if Find(items, id).None? {
      FindNone(items, id, i);
    } else {
      var k := FindIndex(items, id);
      assert k == i;
    }
  }
}
