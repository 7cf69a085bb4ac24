/** The release sweep's reconstruction: what a local manager re-applies so that the claims it should
    lose are omitted and the claims it should keep are stated at their live values. */
module Release {
  import opened Base
  import opened Trees
  import opened Ignored
  import opened Schema
  import opened Pipeline
  import ServerSideApply

  type Excluded = map<string, set<string>>

  function ExcludedOf(x: Excluded, server: string): set<string> {
    if server in x then x[server] else {}
  }

  function RebuiltIdrac(src: Fields, owned: Claims, excluded: set<string>): Fields {
    map f | f in src && Field(f) in owned.kids && f !in excluded :: src[f]
  }

  /** Whether the rebuilt entry carries field f besides its key. */
  predicate Carries(src: Fields, owned: Claims, excluded: set<string>, f: string)
    requires f in src
  {
    && f != "orbId" && f != "serviceTag" && Field(f) in owned.kids
    && if f == IDRAC then src[f].Obj? && RebuiltIdrac(src[f].fields, owned.kids[Field(f)], excluded) != map[]
       else f !in excluded
  }

  function RebuiltField(src: Fields, owned: Claims, excluded: set<string>, f: string): Option<Json> {
    if f !in src || !Carries(src, owned, excluded, f) then None
    else if f == IDRAC && src[f].Obj? then Some(Obj(RebuiltIdrac(src[f].fields, owned.kids[Field(f)], excluded)))
    else Some(src[f])
  }

  function RebuiltEntry(id: string, src: Fields, owned: Claims, excluded: set<string>): Fields {
    (map f | f in src && RebuiltField(src, owned, excluded, f).Some? :: RebuiltField(src, owned, excluded, f).value)
    ["orbId" := Leaf(Str(id))]
  }

  /** The entry re-applied for one server; None when only its identity would be left. */
  function RebuiltServer(srcList: seq<Json>, owned: Claims, x: Excluded, id: string): Option<Fields> {
    if id == "" || Entry(id) !in owned.kids || Find(srcList, id).None? then None
    else
      var e := RebuiltEntry(id, Find(srcList, id).value, owned.kids[Entry(id)], ExcludedOf(x, id));
      if |e| == 1 then None else Some(e)
  }

  method ReconstructIdracExcluding(src: Fields, owned: Claims, excluded: set<string>) returns (out: Fields, touched: bool)
    ensures out == RebuiltIdrac(src, owned, excluded)
    ensures touched <==> exists f | f in excluded :: Field(f) in owned.kids
  {
    out, touched := map[], false;
    var todo := owned.kids.Keys;
    ghost var goal := RebuiltIdrac(src, owned, excluded);
    while todo != {}
      invariant todo <= owned.kids.Keys
      invariant forall f :: Get(out, f) == if Field(f) in todo then None else Get(goal, f)
      invariant touched <==> exists f | f in excluded :: Field(f) in owned.kids && Field(f) !in todo
      decreases |todo|
    {
      var k :| k in todo;
      todo := todo - {k};
      if k.Field? {
        if k.name in excluded {
          touched := true;
        } else if k.name in src {
          out := out[k.name := src[k.name]];
        }
      }
    }
    SameLookups(out, goal);
  }

  /** Fill the entry, which starts as its key alone, from the manager's claims. */
  method ReconstructServerEntry(id: string, src: Fields, owned: Claims, excluded: set<string>)
    returns (entry: Fields, touched: bool)
    ensures entry == RebuiltEntry(id, src, owned, excluded)
  {
    entry, touched := map["orbId" := Leaf(Str(id))], false;
    var todo := owned.kids.Keys;
    while todo != {}
      invariant todo <= owned.kids.Keys
      invariant forall f :: Get(entry, f) == (if f == "orbId" then Some(Leaf(Str(id))) else if Field(f) in todo then None else RebuiltField(src, owned, excluded, f))
      decreases |todo|
    {
      var k :| k in todo;
      todo := todo - {k};
      ghost var before := entry;
      if k.Field? && k.name != "orbId" && k.name != "serviceTag" && k.name in src {
        var f := k.name;
        if f == IDRAC {
          if src[f].Obj? {
            var idrac, t := ReconstructIdracExcluding(src[f].fields, owned.kids[k], excluded);
            touched := touched || t;
            if idrac != map[] {
              entry := entry[f := Obj(idrac)];
            }
          }
        } else if f in excluded {
          touched := true;
        } else {
          entry := entry[f := src[f]];
        }
        assert Get(entry, f) == RebuiltField(src, owned, excluded, f);
        assert forall g | g != f :: Get(entry, g) == Get(before, g);
      }
    }
    SameLookups(entry, RebuiltEntry(id, src, owned, excluded));
  }

  method ReconstructServerList(srcList: seq<Json>, owned: Claims, x: Excluded) returns (out: seq<Json>, touched: bool)
    ensures forall id :: Find(out, id) == RebuiltServer(srcList, owned, x, id)
    ensures KeyedItems(out)
  {
    out, touched := [], false;
    var todo := owned.kids.Keys;
    while todo != {}
      invariant todo <= owned.kids.Keys && KeyedItems(out)
      invariant forall i | 0 <= i < |out| :: Entry(EntryId(out[i]).value) !in todo
      invariant forall id :: Find(out, id) == if Entry(id) in todo then None else RebuiltServer(srcList, owned, x, id)
      decreases |todo|
    {
      var k :| k in todo;
      todo := todo - {k};
      if k.Entry? && k.orbId != "" {
        var src := FirstServer(srcList, k.orbId);
        if src.Some? {
          var entry, t := ReconstructServerEntry(k.orbId, src.value, owned.kids[k], ExcludedOf(x, k.orbId));
          touched := touched || t;
          if |entry| != 1 {
            AppendedKeyed(out, entry, k.orbId);
            out := out + [Obj(entry)];
          }
        }
      }
    }
  }

  lemma AppendedKeyed(out: seq<Json>, e: Fields, id: string)
    requires KeyedItems(out) && IdOf(e) == Some(id) && id != ""
    requires forall i | 0 <= i < |out| :: EntryId(out[i]).value != id
    ensures KeyedItems(out + [Obj(e)])
    ensures forall i | 0 <= i < |out + [Obj(e)]| :: EntryId((out + [Obj(e)])[i]).value == if i < |out| then EntryId(out[i]).value else id
    ensures forall x :: Find(out + [Obj(e)], x) == if x == id then Some(e) else Find(out, x)
  {
    FindAbsent(out, id);
    forall x ensures Find(out + [Obj(e)], x) == if x == id then Some(e) else Find(out, x) {
      FindAppended(out, e, x);
    }
  }

  method FirstServer(items: seq<Json>, id: string) returns (r: Option<Fields>)
    ensures r == Find(items, id)
  {
    for i := 0 to |items|
      invariant Find(items, id) == Find(items[i..], id)
    {
      assert items[i..][1..] == items[i + 1..];
      if EntryId(items[i]) == Some(id) {
        return Some(items[i].fields);
      }
    }
    return None;
  }

  lemma {:induction false} FindAppended(items: seq<Json>, e: Fields, id: string)
    ensures Find(items + [Obj(e)], id) ==
            if Find(items, id).Some? then Find(items, id) else if IdOf(e) == Some(id) then Some(e) else None
  {
    if items != [] {
      assert (items + [Obj(e)])[1..] == items[1..] + [Obj(e)];
      FindAppended(items[1..], e, id);
    }
  }

  /** A nested struct of the spec outside the server list, cut down to the claimed fields. */
  function RebuiltMap(src: Fields, owned: Claims): Fields
    decreases owned
  {
    map f | f in src && Field(f) in owned.kids && (IsLeafClaim(owned.kids[Field(f)]) || src[f].Obj?) ::
      if IsLeafClaim(owned.kids[Field(f)]) then src[f]
      else if src[f].Obj? then Obj(RebuiltMap(src[f].fields, owned.kids[Field(f)]))
      else src[f]
  }

  /** What the reconstruction holds at a top-level field other than the server list. */
  function RebuiltTop(spec: Fields, owned: Claims, f: string): Option<Json> {
    if f !in spec || Field(f) !in owned.kids then None
    else if IsLeafClaim(owned.kids[Field(f)]) then Some(spec[f])
    else if spec[f].Obj? && RebuiltMap(spec[f].fields, owned.kids[Field(f)]) != map[]
    then Some(Obj(RebuiltMap(spec[f].fields, owned.kids[Field(f)])))
    else None
  }

  method ReconstructMapExcluding(src: Fields, owned: Claims) returns (out: Fields)
    ensures out == RebuiltMap(src, owned)
    decreases owned
  {
    out := map[];
    var todo := owned.kids.Keys;
    ghost var goal := RebuiltMap(src, owned);
    while todo != {}
      invariant todo <= owned.kids.Keys
      invariant forall f :: Get(out, f) == if Field(f) in todo then None else Get(goal, f)
      decreases |todo|
    {
      var k :| k in todo;
      todo := todo - {k};
      if k.Field? && k.name in src {
        if IsLeafClaim(owned.kids[k]) {
          out := out[k.name := src[k.name]];
        } else if src[k.name].Obj? {
          var sub := ReconstructMapExcluding(src[k.name].fields, owned.kids[k]);
          out := out[k.name := Obj(sub)];
        }
      }
    }
    SameLookups(out, goal);
  }

  /** The entry of one server in the spec subtree re-applied as one manager. */
  function RebuiltIn(spec: Fields, owned: Claims, x: Excluded, id: string): Option<Fields> {
    if Field(SERVERS) in owned.kids then RebuiltServer(ServerItems(spec), owned.kids[Field(SERVERS)], x, id) else None
  }

  /** The spec subtree re-applied as one manager. */
  method ReconstructApplyExcluding(spec: Fields, owned: Claims, x: Excluded) returns (out: Fields, touched: bool)
    ensures forall f | f != SERVERS :: Get(out, f) == RebuiltTop(spec, owned, f)
    ensures forall id :: Find(ServerItems(out), id) == RebuiltIn(spec, owned, x, id)
    ensures SERVERS in out ==> out[SERVERS].List? && out[SERVERS].items != [] && KeyedItems(out[SERVERS].items)
  {
    out, touched := map[], false;
    var todo := owned.kids.Keys;
    while todo != {}
      invariant todo <= owned.kids.Keys
      invariant SERVERS in out ==> out[SERVERS].List? && out[SERVERS].items != [] && KeyedItems(out[SERVERS].items)
      invariant forall f | f != SERVERS :: Get(out, f) == if Field(f) in todo then None else RebuiltTop(spec, owned, f)
      invariant forall id :: Find(ServerItems(out), id) == (if Field(SERVERS) in todo then None else RebuiltIn(spec, owned, x, id))
      decreases |todo|
    {
      var k :| k in todo;
      todo := todo - {k};
      ghost var before := out;
      if k == Field(SERVERS) {
        if SERVERS in spec && spec[SERVERS].List? {
          var rebuilt, t := ReconstructServerList(spec[SERVERS].items, owned.kids[k], x);
          touched := touched || t;
          if rebuilt != [] {
            out := out[SERVERS := List(rebuilt)];
          } else {
            assert forall id :: Find(rebuilt, id) == None;
          }
        }
      } else if k.Field? && k.name in spec {
        if IsLeafClaim(owned.kids[k]) {
          out := out[k.name := spec[k.name]];
        } else if spec[k.name].Obj? {
          var sub := ReconstructMapExcluding(spec[k.name].fields, owned.kids[k]);
          if sub != map[] {
            out := out[k.name := Obj(sub)];
          }
        }
        assert ServerItems(out) == ServerItems(before);
      }
    }
  }

  /** The index of takeover targets by server. */
  method IndexTakeovers(takeover: seq<Directive>) returns (x: Excluded)
    ensures forall server, f :: f in ExcludedOf(x, server) <==> Directive(server, f) in takeover
  {
    x := map[];
    for i := 0 to |takeover|
      invariant forall server, f :: f in ExcludedOf(x, server) <==> Directive(server, f) in takeover[..i]
    {
      var t := takeover[i];
      assert takeover[..i + 1] == takeover[..i] + [t];
      x := x[t.server := ExcludedOf(x, t.server) + {t.field}];
    }
    assert takeover[..|takeover|] == takeover;
  }

  // ----- the reconstruction, leaf by leaf

  /** Claims a local manager may hold: present server leaves and iDRAC leaves. */
  ghost predicate Clean(vals: Vals, slots: set<Slot>) {
    WfLeaves(vals) && forall q | q in slots :: q in vals && (q.group == "" || q.group == IDRAC)
  }

  lemma ClaimsAreClean(s: ServerSideApply.State, w: string)
    requires InDomain(s) && w in Locals(s)
    ensures Clean(s.vals, s.claims[w]) && s.claims[w] == ServerSideApply.Owned(s, w)
  {
    forall q | q in s.claims[w] ensures q in s.vals {
      assert q in ServerSideApply.Owned(s, w);
    }
  }

  predicate HasStruct(slots: set<Slot>, server: string, g: string) {
    exists q | q in slots :: q.server == server && q.group == g
  }

  lemma EntryLeaf(vals: Vals, server: string, f: string)
    requires WfLeaves(vals) && !IsGroup(f)
    ensures Get(EntryFields(vals, server), f) ==
            if Slot(server, "", f) in vals then Some(Leaf(vals[Slot(server, "", f)])) else None
  {
    forall q | q in vals && q.group != "" ensures q.group != f {
      assert WfSlot(q);
    }
    assert f in GroupFields(vals, server, "") <==> Slot(server, "", f) in vals;
  }

  lemma EntryStruct(vals: Vals, server: string, g: string)
    requires WfLeaves(vals) && IsGroup(g)
    ensures Get(EntryFields(vals, server), g) ==
            if HasStruct(vals.Keys, server, g) then Some(Obj(GroupFields(vals, server, g))) else None
  {
    NoGroupLeaf(vals, server, g);
  }

  lemma LeafKey(slots: set<Slot>, server: string, f: string)
    requires WfClaims(slots) && !IsGroup(f)
    ensures Field(f) in EntryClaims(slots, server).kids <==> Slot(server, "", f) in slots
  {
    var p := Slot(server, "", f);
    forall q | q in slots && q.server == server && (if q.group == "" then q.field else q.group) == f ensures q == p {
      assert WfSlot(q);
    }
    assert p in slots ==> Field(if p.group == "" then p.field else p.group) in EntryKeys(slots, server);
  }

  lemma StructKey(slots: set<Slot>, server: string, g: string)
    requires WfClaims(slots) && IsGroup(g)
    ensures Field(g) in EntryClaims(slots, server).kids <==> HasStruct(slots, server, g)
    ensures Field(g) in EntryClaims(slots, server).kids ==> EntryClaims(slots, server).kids[Field(g)] == Claims(GroupClaims(slots, server, g))
  {
    forall q | q in slots && q.server == server && (if q.group == "" then q.field else q.group) == g ensures q.group == g {
      assert WfSlot(q);
    }
  }

  lemma CleanClaims(vals: Vals, slots: set<Slot>)
    requires Clean(vals, slots)
    ensures WfClaims(slots)
  {
  }

  /** One server-level leaf of the rebuilt entry. */
  lemma RebuiltLeaf(vals: Vals, slots: set<Slot>, m: Manifest, server: string, f: string, excluded: set<string>)
    requires Clean(vals, slots) && !IsGroup(f) && f != "orbId"
    requires f in excluded <==> Directive(server, f) in m.takeover
    ensures var p := Slot(server, "", f);
            RebuiltField(EntryFields(vals, server), EntryClaims(slots, server), excluded, f) ==
            if p in slots && Meaningful(m, p) then Some(Leaf(vals[p])) else None
  {
    CleanClaims(vals, slots);
    EntryLeaf(vals, server, f);
    LeafKey(slots, server, f);
  }

  function IdracKept(vals: Vals, slots: set<Slot>, server: string, excluded: set<string>): Fields {
    RebuiltIdrac(GroupFields(vals, server, IDRAC), Claims(GroupClaims(slots, server, IDRAC)), excluded)
  }

  lemma IdracKeptReads(vals: Vals, slots: set<Slot>, m: Manifest, server: string, f: string, excluded: set<string>)
    requires Clean(vals, slots)
    requires f in excluded <==> Directive(server, f) in m.takeover
    ensures var p := Slot(server, IDRAC, f);
            Get(IdracKept(vals, slots, server, excluded), f) ==
            if p in slots && Meaningful(m, p) then Some(Leaf(vals[p])) else None
  {
    GroupClaimsRead(slots, server, IDRAC, Field(f));
    var p := Slot(server, IDRAC, f);
    assert f in GroupFields(vals, server, IDRAC) <==> p in vals;
  }

  predicate AnyMeaningful(slots: set<Slot>, m: Manifest, server: string) {
    exists q | q in slots :: q.server == server && Meaningful(m, q)
  }

  predicate AnyMeaningfulIdrac(slots: set<Slot>, m: Manifest, server: string) {
    exists q | q in slots :: q.server == server && q.group == IDRAC && Meaningful(m, q)
  }

  lemma IdracKeptIff(vals: Vals, slots: set<Slot>, m: Manifest, server: string, excluded: set<string>)
    requires Clean(vals, slots)
    requires forall f :: f in excluded <==> Directive(server, f) in m.takeover
    ensures IdracKept(vals, slots, server, excluded) != map[] <==> AnyMeaningfulIdrac(slots, m, server)
  {
    var idrac := IdracKept(vals, slots, server, excluded);
    if AnyMeaningfulIdrac(slots, m, server) {
      var q :| q in slots && q.server == server && q.group == IDRAC && Meaningful(m, q);
      assert q == Slot(server, IDRAC, q.field);
      IdracKeptReads(vals, slots, m, server, q.field, excluded);
      assert q.field in idrac;
    } else {
      forall f ensures f !in idrac {
        IdracKeptReads(vals, slots, m, server, f, excluded);
      }
    }
  }

  /** The nested structs of the rebuilt entry: the iDRAC block while it has something to carry. */
  lemma RebuiltStruct(vals: Vals, slots: set<Slot>, m: Manifest, server: string, g: string, excluded: set<string>)
    requires Clean(vals, slots) && IsGroup(g)
    requires forall f :: f in excluded <==> Directive(server, f) in m.takeover
    ensures RebuiltField(EntryFields(vals, server), EntryClaims(slots, server), excluded, g) ==
            if g == IDRAC && AnyMeaningfulIdrac(slots, m, server) then Some(Obj(IdracKept(vals, slots, server, excluded))) else None
  {
    CleanClaims(vals, slots);
    StructKey(slots, server, g);
    if g == IDRAC {
      RebuiltIdracBlock(vals, slots, m, server, excluded);
    } else {
      assert !HasStruct(slots, server, g);
    }
  }

  lemma RebuiltIdracBlock(vals: Vals, slots: set<Slot>, m: Manifest, server: string, excluded: set<string>)
    requires Clean(vals, slots) && IsGroup(IDRAC)
    requires Field(IDRAC) in EntryClaims(slots, server).kids <==> HasStruct(slots, server, IDRAC)
    requires Field(IDRAC) in EntryClaims(slots, server).kids ==>
               EntryClaims(slots, server).kids[Field(IDRAC)] == Claims(GroupClaims(slots, server, IDRAC))
    requires forall f :: f in excluded <==> Directive(server, f) in m.takeover
    ensures RebuiltField(EntryFields(vals, server), EntryClaims(slots, server), excluded, IDRAC) ==
            if AnyMeaningfulIdrac(slots, m, server) then Some(Obj(IdracKept(vals, slots, server, excluded))) else None
  {
    EntryStruct(vals, server, IDRAC);
    IdracKeptIff(vals, slots, m, server, excluded);
    if HasStruct(slots, server, IDRAC) {
      assert HasStruct(vals.Keys, server, IDRAC);
    } else {
      assert !AnyMeaningfulIdrac(slots, m, server);
    }
  }

  lemma RebuiltGet(id: string, src: Fields, owned: Claims, excluded: set<string>, f: string)
    ensures Get(RebuiltEntry(id, src, owned, excluded), f) ==
            if f == "orbId" then Some(Leaf(Str(id))) else RebuiltField(src, owned, excluded, f)
  {
  }

  lemma RebuiltEntryReads(vals: Vals, slots: set<Slot>, m: Manifest, p: Slot, excluded: set<string>)
    requires Clean(vals, slots) && WfSlot(p)
    requires forall f :: f in excluded <==> Directive(p.server, f) in m.takeover
    ensures AtEntry(RebuiltEntry(p.server, EntryFields(vals, p.server), EntryClaims(slots, p.server), excluded), p.group, p.field) ==
            if p == IdSlot(p.server) then Some(Str(p.server))
            else if p in slots && Meaningful(m, p) then Get(vals, p)
            else None
  {
    var src, owned := EntryFields(vals, p.server), EntryClaims(slots, p.server);
    assert p == Slot(p.server, p.group, p.field);
    if p.group == "" {
      RebuiltGet(p.server, src, owned, excluded, p.field);
      if p.field != "orbId" {
        RebuiltLeaf(vals, slots, m, p.server, p.field, excluded);
      }
    } else {
      RebuiltGet(p.server, src, owned, excluded, p.group);
      RebuiltStruct(vals, slots, m, p.server, p.group, excluded);
      if p.group == IDRAC {
        IdracKeptReads(vals, slots, m, p.server, p.field, excluded);
        assert p in slots && Meaningful(m, p) ==> AnyMeaningfulIdrac(slots, m, p.server);
      }
    }
  }

  /** An entry is left out of the reconstruction exactly when no meaningful claim on it remains. */
  lemma EntryKeptIff(vals: Vals, slots: set<Slot>, m: Manifest, server: string, excluded: set<string>)
    requires Clean(vals, slots)
    requires forall f :: f in excluded <==> Directive(server, f) in m.takeover
    ensures |RebuiltEntry(server, EntryFields(vals, server), EntryClaims(slots, server), excluded)| != 1 <==>
            AnyMeaningful(slots, m, server)
  {
    var src, owned := EntryFields(vals, server), EntryClaims(slots, server);
    var e := RebuiltEntry(server, src, owned, excluded);
    if AnyMeaningful(slots, m, server) {
      var q :| q in slots && q.server == server && Meaningful(m, q);
      var f := if q.group == "" then q.field else q.group;
      MeaningfulIsCarried(vals, slots, m, q, excluded);
      RebuiltGet(server, src, owned, excluded, f);
      MoreThanKey(e, f);
    } else {
      forall f ensures Get(e, f) == Get(map["orbId" := Leaf(Str(server))], f) {
        RebuiltGet(server, src, owned, excluded, f);
        OnlyIdentity(vals, slots, m, server, excluded, f);
      }
      SameLookups(e, map["orbId" := Leaf(Str(server))]);
    }
  }

  lemma MeaningfulIsCarried(vals: Vals, slots: set<Slot>, m: Manifest, q: Slot, excluded: set<string>)
    requires Clean(vals, slots) && q in slots && Meaningful(m, q)
    requires forall f :: f in excluded <==> Directive(q.server, f) in m.takeover
    ensures var f := if q.group == "" then q.field else q.group;
            f != "orbId" && RebuiltField(EntryFields(vals, q.server), EntryClaims(slots, q.server), excluded, f).Some?
  {
    assert q == Slot(q.server, q.group, q.field) && WfSlot(q);
    if q.group == "" {
      RebuiltLeaf(vals, slots, m, q.server, q.field, excluded);
    } else {
      RebuiltStruct(vals, slots, m, q.server, q.group, excluded);
    }
  }

  lemma MoreThanKey(e: Fields, f: string)
    requires f in e && f != "orbId" && "orbId" in e
    ensures |e| != 1
  {
    var two := {f, "orbId"};
    assert two <= e.Keys && |two| == 2;
    SubsetSize(two, e.Keys);
  }

  lemma {:induction false} SubsetSize<T>(a: set<T>, b: set<T>)
    requires a <= b
    ensures |a| <= |b|
    decreases |a|
  {
    if a != {} {
      var x :| x in a;
      SubsetSize(a - {x}, b - {x});
    }
  }

  lemma OnlyIdentity(vals: Vals, slots: set<Slot>, m: Manifest, server: string, excluded: set<string>, f: string)
    requires Clean(vals, slots) && !AnyMeaningful(slots, m, server)
    requires forall g :: g in excluded <==> Directive(server, g) in m.takeover
    ensures f != "orbId" ==> RebuiltField(EntryFields(vals, server), EntryClaims(slots, server), excluded, f).None?
  {
    if IsGroup(f) {
      RebuiltStruct(vals, slots, m, server, f, excluded);
    } else if f != "orbId" {
      RebuiltLeaf(vals, slots, m, server, f, excluded);
    }
  }

  // ----- the reconstruction of a whole spec

  /** The reconstruction carries exactly the leaves of the sweep body. */
  lemma RebuiltIsSweepBody(s: ServerSideApply.State, m: Manifest, w: string, order: seq<string>, x: Excluded, out: Fields)
    requires InDomain(s) && w in Locals(s) && Enumerates(order, s.vals)
    requires forall server, f :: f in ExcludedOf(x, server) <==> Directive(server, f) in m.takeover
    requires forall id :: Find(ServerItems(out), id) == RebuiltIn(SpecFields(s.vals, order), ClaimTree(s.claims[w]), x, id)
    ensures Flatten(out) == SweepBody(s, m, w)
  {
    forall p ensures Get(Flatten(out), p) == Get(SweepBody(s, m, w), p) {
      FlattenReads(out, p);
      AtSlot(out, p);
      SweepBodyReads(s, m, w, p);
      if WfSlot(p) {
        RebuiltSlot(s, m, w, order, x, p);
      }
    }
    SameLookups(Flatten(out), SweepBody(s, m, w));
  }

  function KeptValue(vals: Vals, slots: set<Slot>, m: Manifest, p: Slot): Option<Scalar> {
    if !WfSlot(p) then None
    else if p == IdSlot(p.server) then if AnyMeaningful(slots, m, p.server) then Some(Str(p.server)) else None
    else if p in slots && Meaningful(m, p) then Get(vals, p)
    else None
  }

  lemma SweepBodyReads(s: ServerSideApply.State, m: Manifest, w: string, p: Slot)
    requires InDomain(s) && w in Locals(s)
    ensures Get(SweepBody(s, m, w), p) == KeptValue(s.vals, s.claims[w], m, p)
  {
    SweptBodyFacts(s, m, w);
    ClaimsAreClean(s, w);
    if p == IdSlot(p.server) && AnyMeaningful(s.claims[w], m, p.server) {
      var q :| q in s.claims[w] && q.server == p.server && Meaningful(m, q);
      assert IdSlot(q.server) in ServerSideApply.Owned(s, w);
    }
  }

  lemma RebuiltSlot(s: ServerSideApply.State, m: Manifest, w: string, order: seq<string>, x: Excluded, p: Slot)
    requires InDomain(s) && w in Locals(s) && WfSlot(p) && Enumerates(order, s.vals)
    requires forall server, f :: f in ExcludedOf(x, server) <==> Directive(server, f) in m.takeover
    ensures var e := RebuiltIn(SpecFields(s.vals, order), ClaimTree(s.claims[w]), x, p.server);
            (if e.Some? then AtEntry(e.value, p.group, p.field) else None) == KeptValue(s.vals, s.claims[w], m, p)
  {
    ClaimsAreClean(s, w);
    RebuiltInIs(s.vals, s.claims[w], order, x, p.server);
    if p.server in ServersOf(s.claims[w]) {
      RebuiltEntryReads(s.vals, s.claims[w], m, p, ExcludedOf(x, p.server));
      EntryKeptIff(s.vals, s.claims[w], m, p.server, ExcludedOf(x, p.server));
    }
  }

  lemma ServerClaimsAt(slots: set<Slot>, id: string)
    ensures Get(ServerClaims(slots).kids, Entry(id)) == if id in ServersOf(slots) then Some(EntryClaims(slots, id)) else None
  {
  }

  lemma ServersWithin(slots: set<Slot>, all: set<Slot>, id: string)
    requires forall q | q in slots :: q in all
    ensures id in ServersOf(slots) ==> id in ServersOf(all)
  {
  }

  lemma RebuiltInIs(vals: Vals, slots: set<Slot>, order: seq<string>, x: Excluded, id: string)
    requires WfVals(vals) && Clean(vals, slots) && Enumerates(order, vals) && id != ""
    ensures RebuiltIn(SpecFields(vals, order), ClaimTree(slots), x, id) ==
            if id !in ServersOf(slots) then None
            else var e := RebuiltEntry(id, EntryFields(vals, id), EntryClaims(slots, id), ExcludedOf(x, id));
                 if |e| == 1 then None else Some(e)
  {
    FindEntry(vals, order, id);
    assert ServerItems(SpecFields(vals, order)) == ItemsFor(vals, order);
    ServerClaimsAt(slots, id);
    ServersWithin(slots, vals.Keys, id);
  }
}
