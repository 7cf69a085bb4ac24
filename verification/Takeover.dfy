/** The takeover pass: copying intended values of the takeover targets into the patch. */
module Takeover {
  import opened Base
  import opened Trees
  import opened Ignored
  import opened Schema
  import opened Pipeline
  import BowOut
  import ServerSideApply
  import TypedSpec

  /** dst with one field as in src: set, or absent. */
  function CopyField(dst: Fields, src: Fields, f: string): Fields {
    if f in src then dst[f := src[f]] else dst - {f}
  }

  /** Copy a field by name: server fields first, then iDRAC fields; unknown names fail. */
  function SetField(dst: Fields, src: Fields, f: string): Option<Fields> {
    if ServerTag(f) then Some(CopyField(dst, src, f))
    else if IdracTag(f) then Some(dst[IDRAC := Obj(CopyField(TypedSpec.IdracOf(dst), TypedSpec.IdracOf(src), f))])
    else None
  }

  /** Replace the first entry with the given id. */
  function Replace(items: seq<Json>, id: string, e: Fields): seq<Json> {
    if items == [] then []
    else if EntryId(items[0]) == Some(id) then [Obj(e)] + items[1..]
    else [items[0]] + Replace(items[1..], id, e)
  }

  /** The identity of a server that is missing from the patch, decoded into its struct. */
  function Stub(src: Fields): Fields {
    TypedSpec.Filled(map f | f in src && (f == "orbId" || f == "serviceTag") :: src[f])
  }

  /** The patch with one takeover target injected, and whether the server and the field are known. The
      stub of a missing server stays in the patch even when the field turns out to be unknown. */
  function Injected(patch: Fields, full: Fields, t: Directive): (Fields, bool) {
    var src, dst := Find(ServerItems(full), t.server), Find(ServerItems(patch), t.server);
    if src.None? then (patch, false)
    else
      var entry := SetField(if dst.Some? then dst.value else Stub(src.value), src.value, t.field);
      if dst.Some? then
        if entry.None? then (patch, false)
        else (patch[SERVERS := List(Replace(ServerItems(patch), t.server, entry.value))], true)
      else
        var added := if entry.None? then Stub(src.value) else entry.value;
        (patch[SERVERS := List(ServerItems(patch) + [Obj(added)])], entry.Some?)
  }

  /** Injecting all entries in turn. */
  function InjectedAll(patch: Fields, full: Fields, entries: seq<Directive>): Fields
    decreases |entries|
  {
    if entries == [] then patch else InjectedAll(Injected(patch, full, entries[0]).0, full, entries[1..])
  }

  method IndexOfServer(items: seq<Json>, id: string) returns (i: nat)
    ensures i <= |items|
    ensures i < |items| <==> Find(items, id).Some?
    ensures i < |items| ==> IsFirst(items, id, i) && items[i] == Obj(Find(items, id).value)
  {
    i := 0;
    while i < |items| && EntryId(items[i]) != Some(id)
      invariant i <= |items|
      invariant forall k | 0 <= k < i :: EntryId(items[k]) != Some(id)
    {
      i := i + 1;
    }
    FirstIsFound(items, id, i);
  }

  /** i is the first index that carries the id. */
  predicate IsFirst(items: seq<Json>, id: string, i: nat) {
    i < |items| && EntryId(items[i]) == Some(id) && forall k | 0 <= k < i :: EntryId(items[k]) != Some(id)
  }

  lemma {:induction false} FirstIsFound(items: seq<Json>, id: string, i: nat)
    requires i == |items| || IsFirst(items, id, i)
    requires forall k | 0 <= k < i :: EntryId(items[k]) != Some(id)
    ensures Find(items, id) == if i < |items| then Some(items[i].fields) else None
  {
    if i > 0 {
      assert forall k | 0 <= k < |items| - 1 :: items[1..][k] == items[k + 1];
      FirstIsFound(items[1..], id, i - 1);
    }
  }

  lemma {:induction false} ReplaceAtFirst(items: seq<Json>, id: string, i: nat, e: Fields)
    requires IsFirst(items, id, i)
    ensures Replace(items, id, e) == items[i := Obj(e)]
  {
    if i > 0 {
      assert forall k | 0 <= k < |items| - 1 :: items[1..][k] == items[k + 1];
      ReplaceAtFirst(items[1..], id, i - 1, e);
      assert items[i := Obj(e)] == [items[0]] + items[1..][i - 1 := Obj(e)];
    } else {
      assert items[0 := Obj(e)] == [Obj(e)] + items[1..];
    }
  }

  method InjectTakeoverField(patch: Fields, full: Fields, t: Directive) returns (out: Fields, ok: bool)
    ensures (out, ok) == Injected(patch, full, t)
  {
    var fullItems := ServerItems(full);
    var s := IndexOfServer(fullItems, t.server);
    if s == |fullItems| {
      return patch, false;
    }
    var src := fullItems[s].fields;
    var items := ServerItems(patch);
    var d := IndexOfServer(items, t.server);
    out := patch;
    if d == |items| {
      items := items + [Obj(Stub(src))];
      out := patch[SERVERS := List(items)];
    }
    var entry := SetField(items[d].fields, src, t.field);
    if entry.None? {
      return out, false;
    }
    if d < |ServerItems(patch)| {
      ReplaceAtFirst(items, t.server, d, entry.value);
    } else {
      assert items[d := Obj(entry.value)] == ServerItems(patch) + [Obj(entry.value)];
    }
    out, ok := out[SERVERS := List(items[d := Obj(entry.value)])], true;
    assert out == patch[SERVERS := List(items[d := Obj(entry.value)])];
  }

  /** Whether a takeover entry sets the slot. */
  predicate Hits(t: Directive, p: Slot) {
    && t.server == p.server
    && if ServerTag(t.field) then (if p.group == "" then p.field == t.field else p.group == t.field)
       else IdracTag(t.field) && p.group == IDRAC && p.field == t.field
  }

  // ----- the names an entry may use

  const SERVER_LEAVES := {"orbId", "serviceTag", "hostname", "oobIP"}
  const SERVER_STRUCTS := {"idracSettings", "kubernetesNode", "maintenance"}
  const IDRAC_LEAVES := {"firmwareVersion", "sshEnabled", "ipmiEnabled", "lockdownModeEnabled", "osToIdracPassThroughEnabled",
    "usbManagementPortEnabled", "dhcpEnabled", "racadmEnabled"}

  /** An entry is valid exactly when its server is in the manifest and its field is one of the names. */
  lemma ValidIff(m: Manifest, t: Directive)
    ensures ValidTakeover(m, t) <==>
            (exists p :: p in m.vals && p.server == t.server) && t.field in SERVER_LEAVES + SERVER_STRUCTS + IDRAC_LEAVES
  {
    if p :| p in m.vals && p.server == t.server {
      assert t.server in ServersOf(m.vals.Keys);
    }
  }

  /** What an entry sets: a leaf or a whole struct of the server, or else a leaf of its iDRAC block. */
  lemma HitsIff(t: Directive, p: Slot)
    requires WfSlot(p)
    ensures Hits(t, p) <==> t.server == p.server && Names(t.field, p)
  {
  }

  predicate Names(f: string, p: Slot) {
    if f in SERVER_LEAVES then p.group == "" && p.field == f
    else if f in SERVER_STRUCTS then p.group == f
    else f in IDRAC_LEAVES && p.group == "idracSettings" && p.field == f
  }

  /** What the stub of a missing server holds: its identity and tag, and the empty orbId of an iDRAC block. */
  lemma StubReads(src: Fields, group: string, field: string)
    ensures AtEntry(Stub(src), group, field) ==
            if group == "" && (field == "orbId" || field == "serviceTag") then
              (if field in src && src[field].Leaf? then Some(src[field].v) else Some(Str("")))
            else if group == "idracSettings" && field == "orbId" then Some(Str(""))
            else None
  {
  }

  lemma {:induction false} FindReplaced(items: seq<Json>, id: string, e: Fields, x: string)
    requires Find(items, id).Some? && IdOf(e) == Some(id)
    ensures Find(Replace(items, id, e), x) == if x == id then Some(e) else Find(items, x)
  {
    if EntryId(items[0]) == Some(id) {
      assert Replace(items, id, e)[1..] == items[1..];
    } else {
      assert Replace(items, id, e)[1..] == Replace(items[1..], id, e);
      FindReplaced(items[1..], id, e, x);
    }
  }

  lemma SetFieldReads(dst: Fields, src: Fields, f: string, p: Slot, t: Directive)
    requires WfSlot(p) && SetField(dst, src, f).Some? && t == Directive(p.server, f)
    ensures AtEntry(SetField(dst, src, f).value, p.group, p.field) ==
            if Hits(t, p) then AtEntry(src, p.group, p.field) else AtEntry(dst, p.group, p.field)
  {
  }

  lemma SetFieldKeepsId(dst: Fields, src: Fields, f: string, id: string)
    requires SetField(dst, src, f).Some? && IdOf(dst) == Some(id) && IdOf(src) == Some(id)
    ensures IdOf(SetField(dst, src, f).value) == Some(id)
  {
  }

  /** One injection sets exactly the slots it hits, to their intended values. */
  lemma InjectedReads(patch: Fields, full: Fields, t: Directive, p: Slot)
    requires WfSlot(p) && Injected(patch, full, t).1
    requires Find(ServerItems(patch), t.server).Some?
    ensures At(Obj(Injected(patch, full, t).0), Keys(p)) ==
            if Hits(t, p) then At(Obj(full), Keys(p)) else At(Obj(patch), Keys(p))
    ensures Find(ServerItems(Injected(patch, full, t).0), p.server).Some? <==> Find(ServerItems(patch), p.server).Some?
  {
    var out := Injected(patch, full, t).0;
    var src, dst := Find(ServerItems(full), t.server).value, Find(ServerItems(patch), t.server).value;
    var i := FindIndex(ServerItems(full), t.server);
    var k := FindIndex(ServerItems(patch), t.server);
    SetFieldKeepsId(dst, src, t.field, t.server);
    var entry := SetField(dst, src, t.field).value;
    assert ServerItems(out) == Replace(ServerItems(patch), t.server, entry);
    FindReplaced(ServerItems(patch), t.server, entry, p.server);
    AtSlot(out, p);
    AtSlot(full, p);
    AtSlot(patch, p);
    if t.server == p.server {
      SetFieldReads(dst, src, t.field, p, t);
    }
  }

  /** All injections together set exactly the slots that some carried-out entry hits. */
  lemma {:induction false} InjectedAllReads(patch: Fields, full: Fields, entries: seq<Directive>, p: Slot)
    requires WfSlot(p)
    requires forall t | t in entries && Find(ServerItems(full), t.server).Some? :: Find(ServerItems(patch), t.server).Some?
    ensures At(Obj(InjectedAll(patch, full, entries)), Keys(p)) ==
            if exists t | t in entries :: Hits(t, p) && Find(ServerItems(full), t.server).Some?
            then At(Obj(full), Keys(p)) else At(Obj(patch), Keys(p))
    decreases |entries|
  {
    if entries != [] {
      var t := entries[0];
      var (rest, ok) := Injected(patch, full, t);
      assert t in entries && forall x :: x in entries <==> x == t || x in entries[1..];
      if ok {
        InjectedReads(patch, full, t, p);
        forall x | x in entries[1..] && Find(ServerItems(full), x.server).Some? ensures Find(ServerItems(rest), x.server).Some? {
          InjectedKeepsServers(patch, full, t, x.server);
        }
      } else {
        assert Hits(t, p) ==> Find(ServerItems(full), t.server).None?;
      }
      InjectedAllReads(rest, full, entries[1..], p);
    }
  }

  lemma InjectedKeepsServers(patch: Fields, full: Fields, t: Directive, id: string)
    requires Injected(patch, full, t).1 && Find(ServerItems(patch), t.server).Some?
    ensures Find(ServerItems(Injected(patch, full, t).0), id).Some? <==> Find(ServerItems(patch), id).Some?
  {
    var src, dst := Find(ServerItems(full), t.server).value, Find(ServerItems(patch), t.server).value;
    var i := FindIndex(ServerItems(full), t.server);
    var k := FindIndex(ServerItems(patch), t.server);
    SetFieldKeepsId(dst, src, t.field, t.server);
    FindReplaced(ServerItems(patch), t.server, SetField(dst, src, t.field).value, id);
  }

  lemma FullHasServer(m: Manifest, order: seq<string>, id: string)
    requires Conforms(m) && Enumerates(order, m.vals)
    ensures Find(ServerItems(SpecFields(m.vals, order)), id).Some? <==> id in ServersOf(m.vals.Keys)
  {
    FindEntry(m.vals, order, id);
  }

  /** An injection can be carried out exactly for the valid takeover entries. */
  lemma InjectedIffValid(patch: Fields, m: Manifest, order: seq<string>, t: Directive)
    requires Conforms(m) && Enumerates(order, m.vals)
    ensures Injected(patch, SpecFields(m.vals, order), t).1 <==> ValidTakeover(m, t)
  {
    FullHasServer(m, order, t.server);
  }

  /** The injected patch carries exactly the leaves of the takeover body. */
  lemma InjectedIsTakeoverBody(s: ServerSideApply.State, m: Manifest, patch: Fields, order: seq<string>)
    requires Conforms(m) && Enumerates(order, m.vals)
    requires forall p | WfSlot(p) :: At(Obj(patch), Keys(p)) == Get(NormalBody(s, m), p)
    ensures Flatten(InjectedAll(patch, SpecFields(m.vals, order), m.takeover)) == TakeoverBody(s, m)
  {
    var full := SpecFields(m.vals, order);
    var out := InjectedAll(patch, full, m.takeover);
    forall t | t in m.takeover && Find(ServerItems(full), t.server).Some? ensures Find(ServerItems(patch), t.server).Some? {
      FullHasServer(m, order, t.server);
      ServerInBody(s, m, t.server);
      TypedSpec.EntryPresent(patch, t.server);
    }
    forall p ensures Get(Flatten(out), p) == Get(TakeoverBody(s, m), p) {
      FlattenReads(out, p);
      if WfSlot(p) {
        InjectedAllReads(patch, full, m.takeover, p);
        SpecReads(m.vals, order, p);
        HitsMatch(s, m, full, order, p);
      }
    }
    SameLookups(Flatten(out), TakeoverBody(s, m));
  }

  lemma ServerInBody(s: ServerSideApply.State, m: Manifest, id: string)
    requires Conforms(m) && id in ServersOf(m.vals.Keys)
    ensures WfSlot(IdSlot(id)) && IdSlot(id) in NormalBody(s, m)
  {
    var p :| p in m.vals && p.server == id;
    assert IdSlot(p.server) in m.vals && WfSlot(IdSlot(id));
  }

  lemma HitsMatch(s: ServerSideApply.State, m: Manifest, full: Fields, order: seq<string>, p: Slot)
    requires Conforms(m) && Enumerates(order, m.vals) && full == SpecFields(m.vals, order) && WfSlot(p)
    ensures (if exists t | t in m.takeover :: Hits(t, p) && Find(ServerItems(full), t.server).Some?
             then Get(m.vals, p) else Get(NormalBody(s, m), p)) == Get(TakeoverBody(s, m), p)
  {
    if p in m.vals {
      FullHasServer(m, order, p.server);
      assert p.server in ServersOf(m.vals.Keys);
      if StructTakeover(m, p) {
        assert Hits(Directive(p.server, p.group), p);
      } else if t :| t in m.takeover && Hits(t, p) {
        assert t == Directive(p.server, p.field);
        assert BowOut.TakeoverKey(p.server, p.field) in DirectiveKeys(m.takeover);
        assert !BowedOut(s, m, p);
      }
    }
  }
}
