/** The scalar leaves of a ConfigBundle spec, and how a set of leaf values or a set of leaf claims
    reads as a decoded spec and as a decoded FieldsV1 tree. */
module Schema {
  import opened Base
  import opened Trees

  const SERVERS := "servers"
  const IDRAC := "idracSettings"
  const NODE := "kubernetesNode"
  const MAINTENANCE := "maintenance"

  predicate IsGroup(g: string) {
    g == IDRAC || g == NODE || g == MAINTENANCE
  }

  /** One scalar leaf of one server: directly on the server (group "") or inside a nested struct. */
  datatype Slot = Slot(server: string, group: string, field: string)

  predicate WfSlot(p: Slot) {
    && p.server != ""
    && '|' !in p.field
    && (if p.group == "" then !IsGroup(p.field) else IsGroup(p.group))
  }

  function IdSlot(server: string): Slot {
    Slot(server, "", "orbId")
  }

  function TagSlot(server: string): Slot {
    Slot(server, "", "serviceTag")
  }

  function IdracIdSlot(server: string): Slot {
    Slot(server, IDRAC, "orbId")
  }

  function HostnameSlot(server: string): Slot {
    Slot(server, "", "hostname")
  }

  function OobIpSlot(server: string): Slot {
    Slot(server, "", "oobIP")
  }

  function EnabledSlot(server: string): Slot {
    Slot(server, MAINTENANCE, "enabled")
  }

  /** The leaves the schema requires wherever p is present: those of every server entry, and those of
      p's nested struct. */
  function Needs(p: Slot): set<Slot> {
    {IdSlot(p.server), TagSlot(p.server), HostnameSlot(p.server), OobIpSlot(p.server)} +
    if p.group == IDRAC then {IdracIdSlot(p.server)} else if p.group == MAINTENANCE then {EnabledSlot(p.server)} else {}
  }

  predicate NeededName(present: string, group: string, field: string) {
    || (group == "" && field in {"orbId", "serviceTag", "hostname", "oobIP"})
    || (group == present == "idracSettings" && field == "orbId")
    || (group == present == "maintenance" && field == "enabled")
  }

  /** The required leaves by name. */
  lemma NeedsAre(p: Slot, q: Slot)
    ensures q in Needs(p) <==> q.server == p.server && NeededName(p.group, q.group, q.field)
  {
  }

  function Keys(p: Slot): Path {
    [Field(SERVERS), Entry(p.server)] + (if p.group == "" then [Field(p.field)] else [Field(p.group), Field(p.field)])
  }

  type Vals = map<Slot, Scalar>

  /** No required leaf is missing. */
  predicate Complete(vals: Vals) {
    forall p | p in vals :: Needs(p) <= vals.Keys
  }

  function ServersOf(slots: set<Slot>): set<string> {
    set p | p in slots :: p.server
  }

  ghost predicate WfLeaves(vals: Vals) {
    forall p | p in vals :: WfSlot(p)
  }

  /** Every leaf is well formed and sits on a server whose list key is present and truthful. */
  ghost predicate WfVals(vals: Vals) {
    WfLeaves(vals) && forall p | p in vals :: IdSlot(p.server) in vals && vals[IdSlot(p.server)] == Str(p.server)
  }

  function GroupFields(vals: Vals, server: string, group: string): Fields {
    map f | f in (set p | p in vals && p.server == server && p.group == group :: p.field) :: Leaf(vals[Slot(server, group, f)])
  }

  /** The server entry that holds these leaves. */
  function EntryFields(vals: Vals, server: string): Fields {
    GroupFields(vals, server, "") +
    map g | g in (set p | p in vals && p.server == server && p.group != "" :: p.group) :: Obj(GroupFields(vals, server, g))
  }

  function ItemsFor(vals: Vals, order: seq<string>): seq<Json> {
    seq(|order|, i requires 0 <= i < |order| => Obj(EntryFields(vals, order[i])))
  }

  /** The decoded spec that holds these leaves, with the servers listed in the given order. */
  function SpecFields(vals: Vals, order: seq<string>): Fields {
    if order == [] then map[] else map[SERVERS := List(ItemsFor(vals, order))]
  }

  ghost predicate Distinct<T>(s: seq<T>) {
    forall i, k | 0 <= i < k < |s| :: s[i] != s[k]
  }

  /** order lists every server of vals once. */
  ghost predicate Enumerates(order: seq<string>, vals: Vals) {
    Distinct(order) && forall id :: id in order <==> id in ServersOf(vals.Keys)
  }

  method ListServers(vals: Vals) returns (order: seq<string>)
    ensures Enumerates(order, vals)
  {
    var todo := ServersOf(vals.Keys);
    order := [];
    while todo != {}
      invariant Distinct(order)
      invariant forall id :: id in ServersOf(vals.Keys) <==> id in order || id in todo
      invariant forall id | id in order :: id !in todo
      decreases |todo|
    {
      var id :| id in todo;
      todo, order := todo - {id}, order + [id];
    }
  }

  // ----- reading a spec built from leaves

  lemma EntryHasId(vals: Vals, id: string)
    requires WfVals(vals) && id in ServersOf(vals.Keys)
    ensures IdOf(EntryFields(vals, id)) == Some(id) && id != ""
  {
    var p :| p in vals && p.server == id;
    assert IdSlot(id) in vals;
    var e := EntryFields(vals, id);
    assert "orbId" in GroupFields(vals, id, "");
    assert !IsGroup("orbId");
    assert e["orbId"] == Leaf(Str(id));
  }

  lemma {:induction false} FindEntry(vals: Vals, order: seq<string>, id: string)
    requires WfVals(vals) && forall x | x in order :: x in ServersOf(vals.Keys)
    ensures Find(ItemsFor(vals, order), id) == if id in order then Some(EntryFields(vals, id)) else None
    decreases |order|
  {
    var items := ItemsFor(vals, order);
    if order != [] {
      EntryHasId(vals, order[0]);
      assert items[0] == Obj(EntryFields(vals, order[0]));
      assert items[1..] == ItemsFor(vals, order[1..]);
      FindEntry(vals, order[1..], id);
    }
  }

  /** The scalar of a slot inside one entry. */
  function AtEntry(e: Fields, group: string, field: string): Option<Scalar> {
    var owner := if group == "" then e else if group in e && e[group].Obj? then e[group].fields else map[];
    if field in owner && owner[field].Leaf? then Some(owner[field].v) else None
  }

  /** The list of server entries of a spec. */
  function ServerItems(spec: Fields): seq<Json> {
    if SERVERS in spec && spec[SERVERS].List? then spec[SERVERS].items else []
  }

  /** Reading a slot of a spec: find its server entry, then the field. */
  lemma AtSlot(spec: Fields, p: Slot)
    ensures At(Obj(spec), Keys(p)) ==
            var e := Find(ServerItems(spec), p.server);
            if e.Some? then AtEntry(e.value, p.group, p.field) else None
  {
    var ks := Keys(p);
    var j := Obj(spec);
    assert ks[0] == Field(SERVERS) && ks[1] == Entry(p.server);
    assert ks[1..][0] == ks[1] && ks[1..][1..] == ks[2..];
    if SERVERS in spec && spec[SERVERS].List? && Find(ServerItems(spec), p.server).Some? {
      var e := Find(ServerItems(spec), p.server).value;
      assert Lookup(j, ks) == Lookup(spec[SERVERS], ks[1..]) == Lookup(Obj(e), ks[2..]);
      LookupInEntry(e, p.group, p.field);
      assert ks[2..] == if p.group == "" then [Field(p.field)] else [Field(p.group), Field(p.field)];
    } else {
      assert Lookup(j, ks) == if SERVERS in spec then Lookup(spec[SERVERS], ks[1..]) else None;
    }
  }

  lemma LookupInEntry(e: Fields, group: string, field: string)
    ensures At(Obj(e), if group == "" then [Field(field)] else [Field(group), Field(field)]) == AtEntry(e, group, field)
  {
    if group == "" {
      LookupField(e, [Field(field)]);
    } else {
      var ks := [Field(group), Field(field)];
      assert ks[1..] == [Field(field)];
      assert Lookup(Obj(e), ks) == if group in e then Lookup(e[group], [Field(field)]) else None;
      if group in e && e[group].Obj? {
        LookupField(e[group].fields, [Field(field)]);
      }
    }
  }

  /** No server-level leaf is named like a nested struct. */
  lemma NoGroupLeaf(vals: Vals, server: string, group: string)
    requires WfLeaves(vals) && IsGroup(group)
    ensures group !in GroupFields(vals, server, "")
  {
    forall p | p in vals && p.group == "" ensures p.field != group {
      assert WfSlot(p);
    }
  }

  lemma EntryAt(vals: Vals, p: Slot)
    requires WfLeaves(vals) && WfSlot(p)
    ensures AtEntry(EntryFields(vals, p.server), p.group, p.field) == Get(vals, p)
  {
    var e := EntryFields(vals, p.server);
    if p.group == "" {
      assert Slot(p.server, "", p.field) == p;
    } else {
      assert Slot(p.server, p.group, p.field) == p;
      if p in vals {
        assert p.group in e && e[p.group] == Obj(GroupFields(vals, p.server, p.group));
      } else {
        NoGroupLeaf(vals, p.server, p.group);
      }
    }
  }

  /** A spec built from leaves reads back as those leaves. */
  lemma SpecReads(vals: Vals, order: seq<string>, p: Slot)
    requires WfVals(vals) && WfSlot(p) && Enumerates(order, vals)
    ensures At(Obj(SpecFields(vals, order)), Keys(p)) == Get(vals, p)
  {
    AtSlot(SpecFields(vals, order), p);
    FindEntry(vals, order, p.server);
    EntryAt(vals, p);
    if p in vals {
      assert p.server in ServersOf(vals.Keys);
    }
  }

  lemma SpecKeyed(vals: Vals, order: seq<string>)
    requires WfVals(vals) && Enumerates(order, vals)
    ensures Keyed(Obj(SpecFields(vals, order)))
  {
    var items := ItemsFor(vals, order);
    forall i | 0 <= i < |items| ensures EntryId(items[i]) == Some(order[i]) && order[i] != "" && Keyed(items[i]) {
      EntryHasId(vals, order[i]);
      var e := EntryFields(vals, order[i]);
      assert items[i] == Obj(e);
      forall f | f in e ensures Keyed(e[f]) {
        if e[f].Obj? {
          assert forall h | h in e[f].fields :: Keyed(e[f].fields[h]);
        }
      }
    }
    assert KeyedItems(items);
    assert Keyed(List(items));
  }

  // ----- reading a body back as leaves

  function EntrySlots(j: Json): set<Slot> {
    var id := EntryId(j);
    if id.None? then {}
    else
      (set f | f in j.fields :: Slot(id.value, "", f)) +
      (set g, f | g in j.fields && j.fields[g].Obj? && f in j.fields[g].fields :: Slot(id.value, g, f))
  }

  function ItemSlots(items: seq<Json>): set<Slot> {
    if items == [] then {} else EntrySlots(items[0]) + ItemSlots(items[1..])
  }

  /** The scalar leaves a body sets; what the schema does not know is pruned. */
  function Flatten(spec: Fields): Vals {
    map p | p in ItemSlots(ServerItems(spec)) && WfSlot(p) && At(Obj(spec), Keys(p)).Some? :: At(Obj(spec), Keys(p)).value
  }

  lemma {:induction false} FoundSlots(items: seq<Json>, p: Slot)
    requires Find(items, p.server).Some? && AtEntry(Find(items, p.server).value, p.group, p.field).Some?
    ensures p in ItemSlots(items)
  {
    if EntryId(items[0]) == Some(p.server) {
      assert p == Slot(p.server, p.group, p.field);
      assert p in EntrySlots(items[0]);
    } else {
      FoundSlots(items[1..], p);
    }
  }

  /** Flattening keeps exactly the scalars a slot leads to. */
  lemma FlattenReads(spec: Fields, p: Slot)
    ensures Get(Flatten(spec), p) == if WfSlot(p) then At(Obj(spec), Keys(p)) else None
  {
    AtSlot(spec, p);
    if At(Obj(spec), Keys(p)).Some? {
      FoundSlots(ServerItems(spec), p);
    }
  }

  /** Encoding leaves as a spec and flattening it is the identity. */
  lemma FlattenSpec(vals: Vals, order: seq<string>)
    requires WfVals(vals) && Enumerates(order, vals)
    ensures Flatten(SpecFields(vals, order)) == vals
  {
    var spec := SpecFields(vals, order);
    forall p ensures Get(Flatten(spec), p) == Get(vals, p) {
      FlattenReads(spec, p);
      if WfSlot(p) {
        SpecReads(vals, order, p);
      }
    }
    SameLookups(Flatten(spec), vals);
  }

  // ----- claim sets as FieldsV1 trees

  function GroupClaims(slots: set<Slot>, server: string, group: string): map<Key, Claims> {
    map f | f in (set p | p in slots && p.server == server && p.group == group :: p.field) :: Field(f) := LEAF_CLAIM
  }

  /** Keys below one server entry: its own leaves, its nested structs, and the presence marker. */
  function EntryKeys(slots: set<Slot>, server: string): set<Key> {
    (set p | p in slots && p.server == server :: Field(if p.group == "" then p.field else p.group))
    + (if IdSlot(server) in slots then {Mark} else {})
  }

  function EntryClaims(slots: set<Slot>, server: string): Claims {
    Claims(map k | k in EntryKeys(slots, server) ::
             if k.Field? && IsGroup(k.name) then Claims(GroupClaims(slots, server, k.name)) else LEAF_CLAIM)
  }

  function ServerClaims(slots: set<Slot>): Claims {
    Claims(map id | id in ServersOf(slots) :: Entry(id) := EntryClaims(slots, id))
  }

  /** The FieldsV1 subtree under f:spec that records these leaf claims. */
  function ClaimTree(slots: set<Slot>): Claims {
    Claims(map[Field(SERVERS) := ServerClaims(slots)])
  }

  ghost predicate WfClaims(slots: set<Slot>) {
    forall p | p in slots :: WfSlot(p)
  }

  lemma ServerNodeNotLeaf(slots: set<Slot>, p: Slot)
    requires p in slots
    ensures Entry(p.server) in ServerClaims(slots).kids
    ensures !IsLeafClaim(ServerClaims(slots)) && !IsLeafClaim(EntryClaims(slots, p.server))
  {
    assert p.server in ServersOf(slots);
    assert Entry(p.server) in ServerClaims(slots).kids;
    assert Field(if p.group == "" then p.field else p.group) in EntryClaims(slots, p.server).kids;
  }

  /** The tree claims exactly the slots of the set, and no struct or entry that encloses one. */
  lemma TreeReads(slots: set<Slot>, p: Slot)
    requires slots != {} && WfClaims(slots) && WfSlot(p)
    ensures ClaimedAt(ClaimTree(slots), Keys(p)) <==> p in slots
    ensures p.server in ServersOf(slots) ==> Entry(p.server) in ServerClaims(slots).kids && !IsLeafClaim(ServerClaims(slots).kids[Entry(p.server)])
  {
    var ks := Keys(p);
    assert ks[1..][0] == Entry(p.server) && ks[1..][1..] == ks[2..];
    var top := ServerClaims(slots);
    assert ClaimedAt(ClaimTree(slots), ks) == ClaimedAt(top, ks[1..]);
    if p.server in ServersOf(slots) {
      var q :| q in slots && q.server == p.server;
      ServerNodeNotLeaf(slots, q);
      assert ClaimedAt(top, ks[1..]) == ClaimedAt(EntryClaims(slots, p.server), ks[2..]);
      EntryTreeReads(slots, p);
    } else {
      assert Entry(p.server) !in top.kids;
    }
  }

  lemma GroupClaimsRead(slots: set<Slot>, server: string, group: string, k: Key)
    ensures k in GroupClaims(slots, server, group) <==> k.Field? && Slot(server, group, k.name) in slots
  {
    if k.Field? {
      var p := Slot(server, group, k.name);
      assert p in slots ==> p.field in (set q | q in slots && q.server == server && q.group == group :: q.field);
      forall q | q in slots && q.server == server && q.group == group && q.field == k.name ensures q == p {
      }
    }
  }

  /** No struct or entry enclosing a slot is claimed as a whole. */
  lemma TreeCoversNoStruct(slots: set<Slot>, p: Slot)
    requires slots != {} && WfClaims(slots) && WfSlot(p)
    ensures forall k | 0 <= k < |Keys(p)| :: !ClaimedAt(ClaimTree(slots), Keys(p)[..k])
  {
    var ks, tree := Keys(p), ClaimTree(slots);
    assert Field(SERVERS) in tree.kids;
    ServersCoverNoStruct(slots, p);
    forall k | 0 <= k < |ks| ensures !ClaimedAt(tree, ks[..k]) {
      if k >= 1 {
        assert ks[..k][0] == Field(SERVERS);
        PrefixOfKeys(p, k);
      }
    }
  }

  lemma PrefixOfKeys(p: Slot, k: nat)
    requires 1 <= k < |Keys(p)|
    ensures Keys(p)[..k][1..] == if k == 1 then [] else if k == 2 then [Entry(p.server)] else [Entry(p.server), Field(p.group)]
  {
  }

  lemma ServersCoverNoStruct(slots: set<Slot>, p: Slot)
    requires slots != {} && WfClaims(slots) && WfSlot(p)
    ensures !ClaimedAt(ServerClaims(slots), []) && !ClaimedAt(ServerClaims(slots), [Entry(p.server)])
    ensures p.group != "" ==> !ClaimedAt(ServerClaims(slots), [Entry(p.server), Field(p.group)])
  {
    var some :| some in slots;
    ServerNodeNotLeaf(slots, some);
    assert [Entry(p.server)][1..] == [];
    var two := [Entry(p.server), Field(p.group)];
    assert two[1..] == [Field(p.group)];
    if p.server in ServersOf(slots) {
      var q :| q in slots && q.server == p.server;
      ServerNodeNotLeaf(slots, q);
      if p.group != "" {
        StructNotLeaf(slots, p);
      }
    }
  }

  lemma StructNotLeaf(slots: set<Slot>, p: Slot)
    requires WfClaims(slots) && WfSlot(p) && p.group != ""
    ensures !ClaimedAt(EntryClaims(slots, p.server), [Field(p.group)])
  {
    var c := EntryClaims(slots, p.server);
    assert [Field(p.group)][1..] == [];
    if Field(p.group) in c.kids {
      var q :| q in slots && q.server == p.server && (if q.group == "" then q.field else q.group) == p.group;
      assert q.group == p.group && q == Slot(p.server, p.group, q.field);
      GroupClaimsRead(slots, p.server, p.group, Field(q.field));
    }
  }

  lemma EntryTreeReads(slots: set<Slot>, p: Slot)
    requires WfClaims(slots) && WfSlot(p)
    ensures ClaimedAt(EntryClaims(slots, p.server), Keys(p)[2..]) <==> p in slots
  {
    var c := EntryClaims(slots, p.server);
    assert p == Slot(p.server, p.group, p.field);
    var top := if p.group == "" then p.field else p.group;
    assert p in slots ==> Field(top) in c.kids;
    GroupClaimsRead(slots, p.server, p.group, Field(p.field));
    if p.group == "" {
      assert Keys(p)[2..] == [Field(p.field)] && [Field(p.field)][1..] == [];
    } else {
      var ks := [Field(p.group), Field(p.field)];
      assert Keys(p)[2..] == ks && ks[1..] == [Field(p.field)] && ks[1..][1..] == [];
      assert [Field(p.field)][1..] == [];
      var sub := GroupClaims(slots, p.server, p.group);
      assert ClaimedAt(Claims(sub), [Field(p.field)]) == (Field(p.field) in sub);
      if Field(p.group) in c.kids {
        assert c.kids[Field(p.group)] == Claims(sub);
        assert ClaimedAt(c, ks) == ClaimedAt(Claims(sub), [Field(p.field)]);
      }
    }
  }
}
