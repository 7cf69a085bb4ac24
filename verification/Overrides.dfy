/** The divergence extractor: which overrides the reporter derives from the claims, the live spec
    and the last manifest. */
module Overrides {
  import opened Base
  import opened Trees
  import opened BowOut
  import opened Schema
  import opened ServerSideApply
  import opened Pipeline
  import opened Paths
  import opened Walkers
  import EndState
  import TypedSpec
  import Reclaim

  const SPEC := "spec"
  const IDRAC_TYPE := "IdracSettings"

  datatype OverrideEntry = OverrideEntry(orbId: string, field: string, typeName: string,
    intended: Option<Json>, override: Option<Json>, who: string)

  /** The FieldsV1 root of a manager that claims the given spec subtree. */
  function Root(spec: Claims): Claims {
    Claims(map[Field(SPEC) := spec])
  }

  /** A path as claimed in one managedFields entry. */
  datatype Claim = Claim(entry: nat, manager: string, keys: Path)

  ghost predicate ClaimListed(managed: seq<Managed>, c: Claim) {
    c.entry < |managed| &&
    var entry := managed[c.entry];
    entry.manager == c.manager && IsLocal(c.manager) && entry.spec.Some? && c.keys in FieldPaths(Root(entry.spec.value))
  }

  function PathOfClaim(c: Claim): AdminPath {
    AdminPath(PathFrom("", c.keys), c.manager)
  }

  /** The paths print the listed claims, each once. */
  ghost predicate Prints(paths: seq<AdminPath>, from: seq<Claim>, managed: seq<Managed>) {
    && |paths| == |from| && (forall i | 0 <= i < |from| :: paths[i] == PathOfClaim(from[i]))
    && Distinct(from)
    && forall c :: c in from <==> ClaimListed(managed, c)
  }

  method ExtractAdminPaths(managed: seq<Managed>) returns (paths: seq<AdminPath>)
    ensures exists from :: Prints(paths, from, managed)
  {
    paths := [];
    ghost var from: seq<Claim> := [];
    for i := 0 to |managed|
      invariant Prints(paths, from, managed[..i])
    {
      var entry := managed[i];
      ListedOneMore(managed, i);
      if "local:" <= entry.manager && entry.spec.Some? {
        var more := WalkFields(Root(entry.spec.value), "", entry.manager);
        ghost var keys :| Emits(more, keys, "", entry.manager, FieldPaths(Root(entry.spec.value)));
        PrintsMore(paths, from, more, keys, managed, i);
        paths, from := paths + more, from + ClaimsOf(i, entry.manager, keys);
      }
    }
    assert managed[..|managed|] == managed;
    assert Prints(paths, from, managed);
  }

  ghost function ClaimsOf(entry: nat, manager: string, keys: seq<Path>): seq<Claim> {
    seq(|keys|, k requires 0 <= k < |keys| => Claim(entry, manager, keys[k]))
  }

  lemma ClaimsOfHolds(entry: nat, manager: string, keys: seq<Path>, c: Claim)
    ensures c in ClaimsOf(entry, manager, keys) <==> c.entry == entry && c.manager == manager && c.keys in keys
  {
    if c.entry == entry && c.manager == manager && c.keys in keys {
      var k :| 0 <= k < |keys| && keys[k] == c.keys;
      assert ClaimsOf(entry, manager, keys)[k] == c;
    }
  }

  lemma PrintsMore(paths: seq<AdminPath>, from: seq<Claim>, more: seq<AdminPath>, keys: seq<Path>, managed: seq<Managed>, i: nat)
    requires i < |managed| && Prints(paths, from, managed[..i]) && IsLocal(managed[i].manager) && managed[i].spec.Some?
    requires Emits(more, keys, "", managed[i].manager, FieldPaths(Root(managed[i].spec.value)))
    ensures Prints(paths + more, from + ClaimsOf(i, managed[i].manager, keys), managed[..i + 1])
  {
    var claims := ClaimsOf(i, managed[i].manager, keys);
    ListedOneMore(managed, i);
    forall c ensures c in from + claims <==> ClaimListed(managed[..i + 1], c) {
      ClaimsOfHolds(i, managed[i].manager, keys, c);
    }
    DistinctWithNext(from, claims, i);
    PathsWithNext(paths, from, more, claims);
  }

  lemma DistinctWithNext(from: seq<Claim>, claims: seq<Claim>, i: nat)
    requires Distinct(from) && Distinct(claims)
    requires (forall c | c in from :: c.entry < i) && forall c | c in claims :: c.entry == i
    ensures Distinct(from + claims)
  {
    forall a, b | 0 <= a < b < |from + claims| ensures (from + claims)[a] != (from + claims)[b] {
      if a < |from| <= b {
        assert from[a] in from && claims[b - |from|] in claims;
      }
    }
  }

  lemma PathsWithNext(paths: seq<AdminPath>, from: seq<Claim>, more: seq<AdminPath>, claims: seq<Claim>)
    requires |paths| == |from| && forall k | 0 <= k < |from| :: paths[k] == PathOfClaim(from[k])
    requires |more| == |claims| && forall k | 0 <= k < |claims| :: more[k] == PathOfClaim(claims[k])
    ensures forall k | 0 <= k < |from + claims| :: (paths + more)[k] == PathOfClaim((from + claims)[k])
  {
  }

  lemma ListedOneMore(managed: seq<Managed>, i: nat)
    requires i < |managed|
    ensures forall c :: ClaimListed(managed[..i + 1], c) <==>
              ClaimListed(managed[..i], c) || (c.entry == i && c.manager == managed[i].manager && IsLocal(c.manager)
                                               && managed[i].spec.Some? && c.keys in FieldPaths(Root(managed[i].spec.value)))
    ensures forall c | ClaimListed(managed[..i], c) :: c.entry < i
  {
    assert forall k | 0 <= k < i :: managed[..i][k] == managed[..i + 1][k];
    assert managed[..i + 1][i] == managed[i];
  }

  // ----- resolving paths

  function ResolveParts(j: Json, parts: seq<PathPart>): Option<Json>
    decreases |parts|
  {
    if parts == [] then Some(j)
    else if parts[0].selector != "" then
      if j.List? && Find(j.items, parts[0].selector).Some? then ResolveParts(Obj(Find(j.items, parts[0].selector).value), parts[1..])
      else None
    else if j.Obj? && parts[0].field in j.fields then ResolveParts(j.fields[parts[0].field], parts[1..])
    else None
  }

  function TrimSpec(path: string): string {
    if "spec." <= path then path[5..] else path
  }

  /** The value at a printed path; None when absent or when the path does not resolve. */
  function ResolveValue(spec: Fields, path: string): Option<Json> {
    var parts := Split(TrimSpec(path));
    if parts.None? || parts.value == [] then None else ResolveParts(Obj(spec), parts.value)
  }

  function FirstSelector(parts: seq<PathPart>): (i: nat)
    ensures i <= |parts| && (i < |parts| ==> parts[i].selector != "")
  {
    if parts == [] then 0 else if parts[0].selector != "" then 0 else 1 + FirstSelector(parts[1..])
  }

  /** The orbital identity of a printed path: node orbId, leaf name and type. */
  function ResolveOrbital(spec: Fields, path: string): Option<(string, string, string)> {
    var split := Split(path);
    if split.None? then None
    else
      var parts := split.value;
      var i := FirstSelector(parts);
      if i + 2 >= |parts| || parts[i + 1].field == "" || parts[i + 2].field == "" then None
      else
        var server := Find(ServerItems(spec), parts[i].selector);
        if server.None? || parts[i + 1].field != IDRAC then None
        else
          var id := IdOf(TypedSpec.IdracOf(server.value));
          if id.None? || id.value == "" then None else Some((id.value, parts[i + 2].field, IDRAC_TYPE))
  }

  /** The override one claimed path contributes, if any. */
  function OverrideFor(live: Fields, manifest: Fields, ap: AdminPath): Option<OverrideEntry> {
    var intended, override := ResolveValue(manifest, ap.path), ResolveValue(live, ap.path);
    if intended.None? || intended == override then None
    else
      var id := ResolveOrbital(live, ap.path);
      if id.None? then None else Some(OverrideEntry(id.value.0, id.value.1, id.value.2, intended, override, ap.manager))
  }

  /** The overrides are what the claims in from contribute, and these are all the claims that
      contribute one, each once. */
  ghost predicate Reports(overrides: seq<OverrideEntry>, from: seq<Claim>, live: Fields, managed: seq<Managed>, manifest: Fields) {
    && |overrides| == |from| && Distinct(from)
    && (forall i | 0 <= i < |from| :: OverrideFor(live, manifest, PathOfClaim(from[i])) == Some(overrides[i]))
    && forall c :: c in from <==> ClaimListed(managed, c) && OverrideFor(live, manifest, PathOfClaim(c)).Some?
  }

  method ExtractOverrides(live: Fields, managed: seq<Managed>, manifest: Fields) returns (overrides: seq<OverrideEntry>)
    ensures exists from :: Reports(overrides, from, live, managed, manifest)
  {
    var paths := ExtractAdminPaths(managed);
    ghost var all :| Prints(paths, all, managed);
    overrides := [];
    ghost var from: seq<Claim> := [];
    for i := 0 to |paths|
      invariant |overrides| == |from| && Distinct(from)
      invariant forall k | 0 <= k < |from| :: OverrideFor(live, manifest, PathOfClaim(from[k])) == Some(overrides[k])
      invariant forall c :: c in from <==> c in all[..i] && OverrideFor(live, manifest, PathOfClaim(c)).Some?
    {
      assert all[..i + 1] == all[..i] + [all[i]] && all[i] !in all[..i];
      var entry := OverrideFor(live, manifest, paths[i]);
      if entry.Some? {
        overrides, from := overrides + [entry.value], from + [all[i]];
      }
    }
    assert all[..|paths|] == all;
    assert Reports(overrides, from, live, managed, manifest);
  }

  // ----- overrides of one slot

  /** Names that survive printing: field names and server ids without the path syntax. */
  ghost predicate Printable(vals: Vals) {
    forall p | p in vals :: PlainName(p.field) && ']' !in p.server
  }

  function SlotKeys(p: Slot): Path {
    [Field(SPEC)] + Keys(p)
  }

  lemma {:induction false} ResolveIsLookup(j: Json, keys: Path)
    requires PlainKeys(keys)
    ensures ResolveParts(j, PartsOf(keys)) == Lookup(j, keys)
    decreases |keys|
  {
    if keys != [] {
      assert keys[0] in keys;
      assert PartsOf(keys)[1..] == PartsOf(keys[1..]);
      match keys[0] {
        case Field(f) =>
          if j.Obj? && f in j.fields {
            ResolveIsLookup(j.fields[f], keys[1..]);
          }
        case Entry(id) =>
          if j.List? && Find(j.items, id).Some? {
            ResolveIsLookup(Obj(Find(j.items, id).value), keys[1..]);
          }
        case Mark =>
      }
    }
  }

  lemma SlotPrints(p: Slot)
    requires WfSlot(p) && PlainName(p.field) && ']' !in p.server
    ensures PlainKeys(Keys(p)) && PlainKeys(SlotKeys(p))
    ensures Split(PathFrom("", SlotKeys(p))) == Some(PartsOf(SlotKeys(p)))
    ensures Split(TrimSpec(PathFrom("", SlotKeys(p)))) == Some(PartsOf(Keys(p)))
  {
    PlainConstants();
    assert p.group != "" ==> PlainName(p.group);
    forall k | k in Keys(p) ensures PlainKey(k) {
    }
    PathRoundTrip(SlotKeys(p));
    PrintedText(SlotKeys(p));
    PrintedText(Keys(p));
    PathRoundTrip(Keys(p));
    assert SlotKeys(p)[1..] == Keys(p);
    TextAfterSpec(p);
  }

  // ----- server ids that cannot be printed

  lemma NameThen(f: string, rest: string)
    requires PlainName(f)
    ensures Derails(f + "." + rest, false, false) == Derails(rest, false, false)
    ensures Derails(f + "[" + rest, false, false) == Derails(rest, true, false)
  {
    assert forall k | 0 <= k < |f| :: f[k] != '.' && f[k] != '[' && f[k] != ']';
    var d, b := f + "." + rest, f + "[" + rest;
    assert forall k | 0 <= k < |f| :: d[k] == f[k] && b[k] == f[k];
    ScanOutside(d, |f|, false);
    ScanOutside(b, |f|, false);
    assert d[..|f|] == f == b[..|f|];
    assert d[|f|..][1..] == rest && d[|f|..][0] == '.';
    assert b[|f|..][1..] == rest && b[|f|..][0] == '[';
  }

  /** The text behind the opening bracket of a slot's path. */
  function BracketText(p: Slot): string {
    "orbId=" + (p.server + ("]" + Tail(Keys(p)[2..])))
  }

  lemma SlotText(p: Slot)
    requires WfSlot(p) && PlainName(p.field)
    ensures PathFrom("", SlotKeys(p)) == SPEC + "." + (SERVERS + "[" + BracketText(p))
  {
    PlainConstants();
    var keys, end := SlotKeys(p), Keys(p)[2..];
    assert keys[1..] == Keys(p) && Keys(p)[1..][0] == Entry(p.server) && Keys(p)[1..][1..] == end;
    assert p.group != "" ==> PlainName(p.group);
    assert PlainKeys(end);
    var a := SPEC + "." + SERVERS;
    assert PathFrom("", keys) == PathFrom(a, Keys(p)[1..]);
    var prefix := a + "[orbId=" + p.server + "]";
    assert PathFrom("", keys) == PathFrom(prefix, end);
    PathFromAppends(prefix, end);
    Regrouped(a, p.server, Tail(end));
  }

  lemma Regrouped(a: string, id: string, tail: string)
    requires a == SPEC + "." + SERVERS
    ensures a + "[orbId=" + id + "]" + tail == SPEC + "." + (SERVERS + "[" + ("orbId=" + (id + ("]" + tail))))
  {
  }

  /** The path of a leaf cannot be split exactly when its server's orbId derails the scan inside the
      bracket: it closes the bracket, closes it again, and opens another one before a dot. */
  lemma SlotSplitFailsIff(p: Slot)
    requires WfSlot(p) && PlainName(p.field)
    ensures Split(PathFrom("", SlotKeys(p))).None? <==> Derails(p.server, true, false)
    ensures Split(TrimSpec(PathFrom("", SlotKeys(p)))).None? <==> Derails(p.server, true, false)
  {
    PlainConstants();
    SlotText(p);
    var text, inner := PathFrom("", SlotKeys(p)), SERVERS + "[" + BracketText(p);
    NameThen(SPEC, inner);
    NameThen(SERVERS, BracketText(p));
    BracketDerails(p);
    SplitFailsIff(text);
    SplitFailsIff(inner);
    assert text[..5] == "spec." && text[5..] == inner;
  }

  lemma BracketDerails(p: Slot)
    requires WfSlot(p) && PlainName(p.field)
    ensures Derails(BracketText(p), true, false) == Derails(p.server, true, false)
  {
    PlainConstants();
    var rest := "]" + Tail(Keys(p)[2..]);
    var text := BracketText(p);
    assert forall k | 0 <= k < 6 :: text[k] == "orbId="[k] && text[k] != ']';
    ScanInside(text, 6);
    assert text[6..] == p.server + rest;
    TailHasNoBracket(Keys(p)[2..], p);
    HarmlessTail(p.server, rest, true, false);
  }

  lemma TailHasNoBracket(end: Path, p: Slot)
    requires PlainName(p.field) && WfSlot(p) && end == Keys(p)[2..]
    ensures '[' !in Tail(end)
  {
    PlainConstants();
    if p.group == "" {
      assert end == [Field(p.field)] && end[1..] == [];
    } else {
      assert end == [Field(p.group), Field(p.field)] && end[1..] == [Field(p.field)] && end[1..][1..] == [];
      assert Tail(end[1..]) == "." + p.field + "";
    }
  }

  /** Printing and splitting a leaf's path gives back its segments exactly when the server's orbId holds no
      closing bracket; with one, the selector ends early or the parser panics. */
  lemma SlotRoundTripIff(p: Slot)
    requires WfSlot(p) && PlainName(p.field)
    ensures Split(PathFrom("", SlotKeys(p))) == Some(PartsOf(SlotKeys(p))) <==> ']' !in p.server
  {
    if ']' in p.server {
      var k: nat :| k < |p.server| && p.server[k] == ']' && ']' !in p.server[..k] by {
        FirstIndex(p.server, ']');
        assert IndexOf(p.server, ']') >= 0;
      }
      CutShort(p, k);
      SlotParts(p);
    } else {
      SlotPrints(p);
    }
  }

  /** The segments of a path whose selector ends at position k of the orbId. */
  lemma CutShort(p: Slot, k: nat)
    requires WfSlot(p) && PlainName(p.field) && k < |p.server| && p.server[k] == ']' && ']' !in p.server[..k]
    ensures var parts := Split(PathFrom("", SlotKeys(p)));
            parts.Some? ==> |parts.value| >= 3 && parts.value[2] == PathPart("", p.server[..k])
  {
    PlainConstants();
    SlotText(p);
    var rest := p.server[k + 1..] + ("]" + Tail(Keys(p)[2..]));
    var inner := SERVERS + "[" + BracketText(p);
    CutText(p.server, k, "]" + Tail(Keys(p)[2..]));
    assert inner == EntryText(SERVERS, Selector(p.server[..k]), rest);
    SelectorOf(p.server[..k]);
    SplitEntryStep(SERVERS, Selector(p.server[..k]), p.server[..k], rest);
    FirstName(SPEC, inner);
    var first, second := [PathPart(SPEC, "")], FieldPart(SERVERS) + [PathPart("", p.server[..k])];
    SplitUnfolds(SPEC + "." + inner, first, inner);
    SplitUnfolds(inner, second, Skip(rest));
    ThirdPart(first, second, Split(Skip(rest)));
  }

  lemma SplitUnfolds(s: string, parts: seq<PathPart>, rest: string)
    requires s != "" && SplitStep(s) == Some((parts, rest))
    ensures Split(s) == Prepend(parts, Split(rest))
  {
  }

  lemma ThirdPart(first: seq<PathPart>, second: seq<PathPart>, rest: Option<seq<PathPart>>)
    requires |first| == 1 && |second| == 2
    ensures var all := Prepend(first, Prepend(second, rest));
            all.Some? ==> |all.value| >= 3 && all.value[2] == second[1]
  {
  }

  lemma CutText(id: string, k: nat, tail: string)
    requires k < |id| && id[k] == ']'
    ensures SERVERS + "[" + ("orbId=" + (id + tail)) == EntryText(SERVERS, Selector(id[..k]), id[k + 1..] + tail)
  {
    assert id == id[..k] + "]" + id[k + 1..];
  }

  lemma FirstName(f: string, rest: string)
    requires PlainName(f)
    ensures f + "." + rest != "" && SplitStep(f + "." + rest) == Some(([PathPart(f, "")], rest))
  {
    var s := f + "." + rest;
    assert forall k | 0 <= k < |f| :: s[k] == f[k] && f[k] != '.' && f[k] != '[';
    IndexAt(s, '.', |f|);
    IndexAt(s, '[', |f|);
    assert s[|f|] == '.' && s[..|f|] == f && s[|f| + 1..] == rest;
  }

  /** A concrete orbId on which the extractor's slice is out of range. */
  lemma BadOrbId()
    ensures Derails("a]]b[c", true, false)
  {
    var s := "a]]b[c";
    assert s[1..] == "]]b[c" && s[1..][1..] == "]b[c" && s[1..][1..][1..] == "b[c" && s[1..][1..][1..][1..] == "[c";
  }

  lemma PlainConstants()
    ensures PlainName(SPEC) && PlainName(SERVERS) && PlainName(IDRAC) && PlainName(NODE) && PlainName(MAINTENANCE)
  {
    PlainRoots();
    PlainGroups();
  }

  lemma PlainRoots()
    ensures PlainName(SPEC) && PlainName(SERVERS)
  {
  }

  lemma PlainGroups()
    ensures PlainName(IDRAC) && PlainName(NODE) && PlainName(MAINTENANCE)
  {
  }

  lemma TextAfterSpec(p: Slot)
    requires PlainKeys(SlotKeys(p)) && PlainKeys(Keys(p))
    ensures TrimSpec(Text(SlotKeys(p))) == Text(Keys(p))
  {
    assert SlotKeys(p)[1..] == Keys(p);
    TextOfField(SlotKeys(p));
    TailStart(Keys(p));
    assert Keys(p)[0] == Field(SERVERS);
    AfterSpecDot(Tail(Keys(p)));
    assert Text(Keys(p)) == Skip(Tail(Keys(p)));
  }

  lemma AfterSpecDot(tail: string)
    requires tail != "" && tail[0] == '.'
    ensures TrimSpec(SPEC + tail) == tail[1..]
  {
    var text := SPEC + tail;
    assert |SPEC| == 4 && text[4] == tail[0];
    assert text[..5] == "spec.";
    assert text[5..] == tail[1..];
  }

  /** Whether an override on p is reported. */
  predicate Reportable(s: State, m: Manifest, p: Slot) {
    && p.group == IDRAC && p in m.vals
    && Get(s.vals, p) != Some(m.vals[p])
    && HasIdracId(s, p.server)
  }

  predicate HasIdracId(s: State, server: string) {
    var id := Get(s.vals, IdracIdSlot(server));
    id.Some? && id.value.Str? && id.value.s != ""
  }

  function AsLeaf(v: Option<Scalar>): Option<Json> {
    if v.Some? then Some(Leaf(v.value)) else None
  }

  /** The entry that manager w's override of p contributes. */
  function EntryOf(s: State, m: Manifest, w: string, p: Slot): OverrideEntry
    requires Reportable(s, m, p)
  {
    OverrideEntry(s.vals[IdracIdSlot(p.server)].s, p.field, IDRAC_TYPE, Some(Leaf(m.vals[p])), AsLeaf(Get(s.vals, p)), w)
  }

  /** The entry by its parts: the node's orbId and type, the leaf, both values and the manager. */
  lemma EntryIs(s: State, m: Manifest, w: string, p: Slot)
    requires Reportable(s, m, p)
    ensures var e := EntryOf(s, m, w, p);
            && Get(s.vals, Slot(p.server, "idracSettings", "orbId")) == Some(Str(e.orbId)) && e.orbId != ""
            && e.field == p.field && e.typeName == "IdracSettings" && e.who == w
            && Get(m.vals, p).Some? && e.intended == Some(Leaf(Get(m.vals, p).value))
            && (e.override.None? <==> p !in s.vals) && (p in s.vals ==> e.override == Some(Leaf(s.vals[p])))
  {
  }

  /** The path of an iDRAC leaf as the reporter prints it. */
  lemma PrintedPath(x: string, f: string)
    requires x != "" && PlainName(f) && '|' !in f
    ensures PathFrom("", SlotKeys(Slot(x, "idracSettings", f))) == "spec.servers[orbId=" + x + "].idracSettings." + f
  {
    var p := Slot(x, IDRAC, f);
    SlotText(p);
    IdracTail(p, f);
    IdracText(x, f);
  }

  lemma IdracTail(p: Slot, f: string)
    requires p.group == IDRAC && p.field == f
    ensures Tail(Keys(p)[2..]) == ".idracSettings" + ("." + f)
  {
    var end := Keys(p)[2..];
    assert end == [Field(IDRAC), Field(f)];
    TailOfTwo(Field(IDRAC), Field(f));
  }

  lemma TailOfTwo(a: Key, b: Key)
    ensures Tail([a, b]) == Piece(a) + Piece(b)
  {
    assert [a, b][1..] == [b] && [b][1..] == [];
    assert Tail([b]) == Piece(b) + "" == Piece(b);
  }

  lemma IdracText(x: string, f: string)
    ensures "spec" + "." + ("servers" + "[" + ("orbId=" + (x + ("]" + (".idracSettings" + ("." + f)))))) ==
            "spec.servers[orbId=" + x + "].idracSettings." + f
  {
    var inner := x + ("]" + (".idracSettings" + ("." + f)));
    assert inner == x + "].idracSettings." + f;
    assert "spec" + "." + ("servers" + "[" + ("orbId=" + inner)) == "spec.servers[orbId=" + inner;
  }

  /** What the extractor makes of a claim on a slot. */
  lemma OverrideForSlot(s: State, m: Manifest, live: Fields, manifest: Fields, orders: (seq<string>, seq<string>), w: string, p: Slot)
    requires WfVals(s.vals) && WfVals(m.vals) && WfSlot(p) && PlainName(p.field) && ']' !in p.server && p in s.vals
    requires Enumerates(orders.0, s.vals) && live == SpecFields(s.vals, orders.0)
    requires Enumerates(orders.1, m.vals) && manifest == SpecFields(m.vals, orders.1)
    ensures OverrideFor(live, manifest, AdminPath(PathFrom("", SlotKeys(p)), w)) ==
            if Reportable(s, m, p) then Some(EntryOf(s, m, w, p)) else None
  {
    SlotPrints(p);
    ValueAt(s.vals, live, orders.0, p);
    ValueAt(m.vals, manifest, orders.1, p);
    OrbitalAt(s.vals, live, orders.0, p);
  }

  lemma ValueAt(vals: Vals, spec: Fields, order: seq<string>, p: Slot)
    requires WfVals(vals) && WfSlot(p) && PlainName(p.field) && ']' !in p.server
    requires Enumerates(order, vals) && spec == SpecFields(vals, order)
    ensures ResolveValue(spec, PathFrom("", SlotKeys(p))) == AsLeaf(Get(vals, p))
  {
    SlotPrints(p);
    ResolveIsLookup(Obj(spec), Keys(p));
    SpecReads(vals, order, p);
    OnlyScalars(vals, spec, order, p);
  }

  /** A slot never leads to a struct or a list. */
  lemma OnlyScalars(vals: Vals, spec: Fields, order: seq<string>, p: Slot)
    requires WfVals(vals) && WfSlot(p) && Enumerates(order, vals) && spec == SpecFields(vals, order)
    ensures Lookup(Obj(spec), Keys(p)) == AsLeaf(At(Obj(spec), Keys(p)))
  {
    var ks := Keys(p);
    FindEntry(vals, order, p.server);
    assert ks[1..][0] == Entry(p.server) && ks[1..][1..] == ks[2..];
    var e := EntryFields(vals, p.server);
    assert Lookup(Obj(spec), ks) == if p.server in order then Lookup(Obj(e), ks[2..]) else None;
    if p.group == "" {
      assert ks[2..] == [Field(p.field)];
      LookupField(e, ks[2..]);
      NotAStruct(vals, p.server, p.field);
    } else {
      assert ks[2..] == [Field(p.group), Field(p.field)] && ks[2..][1..] == [Field(p.field)];
      assert Lookup(Obj(e), ks[2..]) == if p.group in e then Lookup(e[p.group], [Field(p.field)]) else None;
      if p.group in e && e[p.group].Obj? {
        LookupField(e[p.group].fields, [Field(p.field)]);
        NoGroupLeaf(vals, p.server, p.group);
      }
    }
  }

  lemma NotAStruct(vals: Vals, server: string, f: string)
    requires WfLeaves(vals) && !IsGroup(f)
    ensures f in EntryFields(vals, server) ==> EntryFields(vals, server)[f].Leaf?
  {
    forall q | q in vals && q.group != "" ensures q.group != f {
      assert WfSlot(q);
    }
  }

  lemma OrbitalAt(vals: Vals, spec: Fields, order: seq<string>, p: Slot)
    requires WfVals(vals) && WfSlot(p) && PlainName(p.field) && ']' !in p.server && p in vals
    requires Enumerates(order, vals) && spec == SpecFields(vals, order)
    ensures var id := Get(vals, IdracIdSlot(p.server));
            ResolveOrbital(spec, PathFrom("", SlotKeys(p))) ==
            if p.group == IDRAC && id.Some? && id.value.Str? && id.value.s != "" then Some((id.value.s, p.field, IDRAC_TYPE)) else None
  {
    SlotPrints(p);
    FindEntry(vals, order, p.server);
    assert p.server in ServersOf(vals.Keys);
    EntryAt(vals, IdracIdSlot(p.server));
    IdracIdReads(vals, p.server);
    OrbitalOfParts(spec, PathFrom("", SlotKeys(p)), p, EntryFields(vals, p.server));
  }

  lemma OrbitalOfParts(spec: Fields, path: string, p: Slot, entry: Fields)
    requires WfSlot(p) && PlainName(p.field)
    requires Split(path) == Some(PartsOf(SlotKeys(p))) && Find(ServerItems(spec), p.server) == Some(entry)
    ensures var id := IdOf(TypedSpec.IdracOf(entry));
            ResolveOrbital(spec, path) ==
            if p.group == IDRAC && id.Some? && id.value != "" then Some((id.value, p.field, IDRAC_TYPE)) else None
  {
    SlotParts(p);
    var parts := PartsOf(SlotKeys(p));
    assert parts[2] == PathPart("", p.server) && parts[3] == SlotEnd(p)[0];
    assert p.group != "" ==> parts[4] == SlotEnd(p)[1];
  }

  function SlotEnd(p: Slot): seq<PathPart> {
    if p.group == "" then [PathPart(p.field, "")] else [PathPart(p.group, ""), PathPart(p.field, "")]
  }

  lemma SlotParts(p: Slot)
    requires p.server != ""
    ensures PartsOf(SlotKeys(p)) == [PathPart(SPEC, ""), PathPart(SERVERS, ""), PathPart("", p.server)] + SlotEnd(p)
    ensures FirstSelector(PartsOf(SlotKeys(p))) == 2
  {
    var ks, end := SlotKeys(p), Keys(p)[2..];
    assert ks[1..] == Keys(p) && Keys(p)[1..] == [Entry(p.server)] + end && Keys(p)[1..][1..] == end;
    if p.group == "" {
      assert end == [Field(p.field)] && end[1..] == [] && PartsOf(end[1..]) == [];
    } else {
      assert end == [Field(p.group), Field(p.field)] && end[1..] == [Field(p.field)] && end[1..][1..] == [];
      assert PartsOf(end[1..][1..]) == [] && PartsOf(end[1..]) == [PathPart(p.field, "")];
    }
    assert PartsOf(end) == SlotEnd(p);
    assert PartsOf(Keys(p)[1..]) == [PathPart("", p.server)] + SlotEnd(p);
    assert PartsOf(Keys(p)) == [PathPart(SERVERS, "")] + ([PathPart("", p.server)] + SlotEnd(p));
    ThirdIsSelector(PathPart(SPEC, ""), PathPart(SERVERS, ""), PathPart("", p.server), SlotEnd(p));
  }

  lemma ThirdIsSelector(a: PathPart, b: PathPart, c: PathPart, rest: seq<PathPart>)
    requires a.selector == b.selector == "" != c.selector
    ensures FirstSelector([a, b, c] + rest) == 2
  {
    var parts := [a, b, c] + rest;
    assert parts[1..] == [b, c] + rest && parts[1..][1..] == [c] + rest;
    assert FirstSelector(parts[1..][1..]) == 0 && FirstSelector(parts[1..]) == 1;
  }

  lemma IdracIdReads(vals: Vals, server: string)
    requires WfLeaves(vals) && server != ""
    ensures var id := Get(vals, IdracIdSlot(server));
            IdOf(TypedSpec.IdracOf(EntryFields(vals, server))) == if id.Some? && id.value.Str? then Some(id.value.s) else None
  {
    EntryAt(vals, IdracIdSlot(server));
    NoGroupLeaf(vals, server, IDRAC);
  }

  // ----- the override set of the object

  /** The local claims on the object, as printed claims. */
  lemma ClaimsListedAreSlots(s: State, managed: seq<Managed>, c: Claim, p: Slot)
    requires WfState(s) && Lists(managed, s.claims) && WfSlot(p) && c.keys == SlotKeys(p)
    ensures ClaimListed(managed, c) <==>
            c.entry < |managed| && managed[c.entry].manager == c.manager && c.manager in Locals(s) && p in s.claims[c.manager]
  {
    if c.entry < |managed| && managed[c.entry].manager == c.manager {
      TypedSpec.ClaimsWf(s, c.manager);
      SlotInRoot(s.claims[c.manager], p);
    }
  }

  lemma SlotInRoot(slots: set<Slot>, p: Slot)
    requires slots != {} && WfClaims(slots) && WfSlot(p)
    ensures SlotKeys(p) in FieldPaths(Root(ClaimTree(slots))) <==> p in slots
  {
    TreeReads(slots, p);
    LeafPathsAreClaims(Root(ClaimTree(slots)), SlotKeys(p));
    UnderRoot(ClaimTree(slots), Keys(p));
    NoMarkInSlot(p);
  }

  lemma UnderRoot(c: Claims, q: Path)
    ensures ClaimedAt(Root(c), [Field(SPEC)] + q) <==> ClaimedAt(c, q)
  {
    assert ([Field(SPEC)] + q)[1..] == q;
  }

  lemma NoMarkInSlot(p: Slot)
    ensures !HasMark(SlotKeys(p))
  {
  }

  /** Every printed claim is a claim on a slot. */
  lemma ListedClaimIsSlot(s: State, managed: seq<Managed>, c: Claim) returns (p: Slot)
    requires WfState(s) && Lists(managed, s.claims) && ClaimListed(managed, c)
    ensures c.manager in Locals(s) && p in s.claims[c.manager] && c.keys == SlotKeys(p)
  {
    var slots := s.claims[c.manager];
    TypedSpec.ClaimsWf(s, c.manager);
    var root := Root(ClaimTree(slots));
    LeafPathsAreClaims(root, c.keys);
    var q := c.keys[1..];
    assert c.keys[0] == Field(SPEC) && ClaimedAt(ClaimTree(slots), q) && c.keys == [Field(SPEC)] + q;
    assert Field(SERVERS) in ClaimTree(slots).kids;
    LeafPathsAreClaims(ClaimTree(slots), q);
    Reclaim.OnlySlotsAndMarks(slots, q);
    forall id ensures HasMark(Reclaim.MarkPath(id)) {
      assert Reclaim.MarkPath(id)[2] == Mark;
    }
    assert !HasMark(q);
    p :| p in slots && q == Keys(p);
  }

  lemma SlotKeysInjective(p: Slot, q: Slot)
    requires WfSlot(p) && WfSlot(q) && SlotKeys(p) == SlotKeys(q)
    ensures p == q
  {
    assert SlotKeys(p)[1..] == Keys(p) && SlotKeys(q)[1..] == Keys(q);
    assert Keys(p)[1] == Entry(p.server) && Keys(q)[1] == Entry(q.server);
    assert Keys(p)[|Keys(p)| - 1] == Field(p.field) && Keys(p)[2] == Field(if p.group == "" then p.field else p.group);
  }

  predicate Contributes(s: State, m: Manifest, w: string, p: Slot, e: OverrideEntry) {
    w in Locals(s) && p in s.claims[w] && Reportable(s, m, p) && e == EntryOf(s, m, w, p)
  }

  /** A printed claim contributes the entry e exactly when it is the claim of a contributing leaf. */
  lemma ClaimContributes(s: State, m: Manifest, live: Fields, manifest: Fields, orders: (seq<string>, seq<string>),
      w: string, p: Slot, e: OverrideEntry)
    requires WfState(s) && WfVals(m.vals) && Printable(s.vals) && w in Locals(s) && p in s.claims[w]
    requires Enumerates(orders.0, s.vals) && live == SpecFields(s.vals, orders.0)
    requires Enumerates(orders.1, m.vals) && manifest == SpecFields(m.vals, orders.1)
    ensures OverrideFor(live, manifest, AdminPath(PathFrom("", SlotKeys(p)), w)) == Some(e) <==> Contributes(s, m, w, p, e)
  {
    assert p in Owned(s, w);
    OverrideForSlot(s, m, live, manifest, orders, w, p);
  }

  lemma Reported(overrides: seq<OverrideEntry>, from: seq<Claim>, live: Fields, managed: seq<Managed>, manifest: Fields, e: OverrideEntry)
    requires Reports(overrides, from, live, managed, manifest)
    ensures e in overrides <==> exists c :: ClaimListed(managed, c) && OverrideFor(live, manifest, PathOfClaim(c)) == Some(e)
  {
    if e in overrides {
      var i :| 0 <= i < |overrides| && overrides[i] == e;
      assert from[i] in from;
    }
    if c :| ClaimListed(managed, c) && OverrideFor(live, manifest, PathOfClaim(c)) == Some(e) {
      var i :| 0 <= i < |from| && from[i] == c;
      assert overrides[i] == e;
    }
  }

  /** The extractor's list, entry by entry: it holds the entry of every reportable leaf for every local
      manager that claims it, and nothing else. */
  lemma ReportedEntries(s: State, m: Manifest, live: Fields, manifest: Fields, orders: (seq<string>, seq<string>),
      managed: seq<Managed>, overrides: seq<OverrideEntry>, e: OverrideEntry)
    requires WfState(s) && WfVals(m.vals) && Printable(s.vals) && Lists(managed, s.claims)
    requires Enumerates(orders.0, s.vals) && live == SpecFields(s.vals, orders.0)
    requires Enumerates(orders.1, m.vals) && manifest == SpecFields(m.vals, orders.1)
    requires exists from: seq<Claim> :: Reports(overrides, from, live, managed, manifest)
    ensures e in overrides <==> exists w, p :: Contributes(s, m, w, p, e)
  {
    var from: seq<Claim> :| Reports(overrides, from, live, managed, manifest);
    Reported(overrides, from, live, managed, manifest, e);
    if c :| ClaimListed(managed, c) && OverrideFor(live, manifest, PathOfClaim(c)) == Some(e) {
      var p := ListedClaimIsSlot(s, managed, c);
      assert PathOfClaim(c) == AdminPath(PathFrom("", SlotKeys(p)), c.manager);
      ClaimContributes(s, m, live, manifest, orders, c.manager, p, e);
    }
    if w, p :| Contributes(s, m, w, p, e) {
      ClaimContributes(s, m, live, manifest, orders, w, p, e);
      var c := SlotListed(s, managed, w, p);
    }
  }

  lemma SlotListed(s: State, managed: seq<Managed>, w: string, p: Slot) returns (c: Claim)
    requires WfState(s) && Lists(managed, s.claims) && w in Locals(s) && p in s.claims[w]
    ensures ClaimListed(managed, c) && c.manager == w && c.keys == SlotKeys(p)
  {
    var i :| 0 <= i < |managed| && managed[i].manager == w;
    assert p in Owned(s, w);
    c := Claim(i, w, SlotKeys(p));
    ClaimsListedAreSlots(s, managed, c, p);
  }
}
