/** Printing a FieldsV1 key path as a string and splitting it back into segments. */
module Paths {
  import opened Base
  import opened Trees

  /** One segment of a split path: a field name, or a selector when that is not empty. */
  datatype PathPart = PathPart(field: string, selector: string)

  /** The path extended by one key; empty for a key that has no path. */
  function FieldKeyToPath(prefix: string, key: Key): string {
    match key
    case Field(f) => if prefix == "" then f else prefix + "." + f
    case Entry(id) => prefix + "[orbId=" + id + "]"
    case Mark => ""
  }

  function PathFrom(prefix: string, keys: Path): string
    decreases |keys|
  {
    if keys == [] then prefix else PathFrom(FieldKeyToPath(prefix, keys[0]), keys[1..])
  }

  /** The first position of c in s, or -1. */
  function IndexOf(s: string, c: char): (i: int)
    ensures -1 <= i < |s| && (i >= 0 ==> s[i] == c)
  {
    if s == "" then -1
    else if s[0] == c then 0
    else
      var rest := IndexOf(s[1..], c);
      if rest < 0 then -1 else rest + 1
  }

  /** No occurrence before n means the index is not before n; an occurrence at n then is the index. */
  lemma {:induction false} IndexAt(s: string, c: char, n: nat)
    requires n <= |s| && forall k | 0 <= k < n :: s[k] != c
    ensures IndexOf(s, c) < 0 || IndexOf(s, c) >= n
    ensures n < |s| && s[n] == c ==> IndexOf(s, c) == n
    ensures n == |s| ==> IndexOf(s, c) == -1
  {
    if n > 0 {
      assert forall k | 0 <= k < n - 1 :: s[1..][k] == s[k + 1];
      IndexAt(s[1..], c, n - 1);
    }
  }

  function FieldPart(f: string): seq<PathPart> {
    if f == "" then [] else [PathPart(f, "")]
  }

  /** The selector of "key=value"; nothing without an equals sign. */
  function SelectorPart(s: string): seq<PathPart> {
    var eq := IndexOf(s, '=');
    if eq < 0 then [] else [PathPart("", s[eq + 1..])]
  }

  /** A leading dot is skipped. */
  function Skip(s: string): string {
    if s != "" && s[0] == '.' then s[1..] else s
  }

  /** What the first step of splitting s yields: segments and the rest, or None when a closing
      bracket comes before the opening one (the slice would be out of bounds). */
  function SplitStep(s: string): (r: Option<(seq<PathPart>, string)>)
    requires s != ""
    ensures r.Some? ==> |r.value.1| < |s|
  {
    var dot, open := IndexOf(s, '.'), IndexOf(s, '[');
    if open >= 0 && (dot < 0 || open < dot) then
      var close := IndexOf(s, ']');
      if close < 0 then Some((FieldPart(s[..open]), ""))
      else if close < open then None
      else
        Some((FieldPart(s[..open]) + SelectorPart(s[open + 1..close]), Skip(s[close + 1..])))
    else if dot >= 0 then Some((FieldPart(s[..dot]), s[dot + 1..]))
    else Some((FieldPart(s), ""))
  }

  function Prepend(out: seq<PathPart>, rest: Option<seq<PathPart>>): Option<seq<PathPart>> {
    if rest.None? then None else Some(out + rest.value)
  }

  function Split(s: string): Option<seq<PathPart>>
    decreases |s|
  {
    if s == "" then Some([])
    else
      var step := SplitStep(s);
      if step.None? then None else Prepend(step.value.0, Split(step.value.1))
  }

  lemma PrependTwice(a: seq<PathPart>, b: seq<PathPart>, rest: Option<seq<PathPart>>)
    ensures Prepend(a, Prepend(b, rest)) == Prepend(a + b, rest)
    ensures rest.Some? ==> Prepend([], rest) == rest
  {
    if rest.Some? {
      assert a + (b + rest.value) == (a + b) + rest.value;
      assert [] + rest.value == rest.value;
    }
  }

  method SplitPath(path: string) returns (parts: Option<seq<PathPart>>)
    ensures parts == Split(path)
  {
    var out: seq<PathPart> := [];
    var remaining := path;
    PrependTwice([], [], Split(path));
    while remaining != ""
      invariant Split(path) == Prepend(out, Split(remaining))
      decreases |remaining|
    {
      var step := SplitStep(remaining);
      if step.None? {
        return None;
      }
      PrependTwice(out, step.value.0, Split(step.value.1));
      out, remaining := out + step.value.0, step.value.1;
    }
    assert out + [] == out;
    return Some(out);
  }

  // ----- round trip

  predicate PlainName(f: string) {
    f != "" && '.' !in f && '[' !in f && ']' !in f
  }

  predicate PlainKey(k: Key) {
    match k
    case Field(f) => PlainName(f)
    case Entry(id) => id != "" && ']' !in id
    case Mark => false
  }

  function PartOf(k: Key): PathPart {
    match k
    case Field(f) => PathPart(f, "")
    case Entry(id) => PathPart("", id)
    case Mark => PathPart("", "")
  }

  function PartsOf(keys: Path): seq<PathPart> {
    if keys == [] then [] else [PartOf(keys[0])] + PartsOf(keys[1..])
  }

  ghost predicate PlainKeys(keys: Path) {
    forall k | k in keys :: PlainKey(k)
  }

  function Selector(id: string): string {
    "orbId=" + id
  }

  /** The text one key adds behind a non-empty prefix. */
  function Piece(k: Key): string {
    match k
    case Field(f) => "." + f
    case Entry(id) => "[" + Selector(id) + "]"
    case Mark => ""
  }

  function Tail(keys: Path): string
    decreases |keys|
  {
    if keys == [] then "" else Piece(keys[0]) + Tail(keys[1..])
  }

  /** The text of a path: its tail without a leading dot. */
  function Text(keys: Path): string {
    Skip(Tail(keys))
  }

  lemma PathIsPiece(prefix: string, k: Key)
    requires PlainKey(k)
    ensures FieldKeyToPath(prefix, k) == if prefix == "" then Skip(Piece(k)) else prefix + Piece(k)
    ensures FieldKeyToPath(prefix, k) != ""
  {
    match k {
      case Field(f) =>
        assert prefix + "." + f == prefix + ("." + f);
      case Entry(id) =>
        assert "[orbId=" + id + "]" == "[" + Selector(id) + "]";
        assert prefix + "[orbId=" + id + "]" == prefix + ("[orbId=" + id + "]");
      case Mark =>
    }
  }

  lemma {:induction false} PathFromAppends(prefix: string, keys: Path)
    requires prefix != "" && PlainKeys(keys)
    ensures PathFrom(prefix, keys) == prefix + Tail(keys)
    decreases |keys|
  {
    if keys != [] {
      assert keys[0] in keys;
      PathIsPiece(prefix, keys[0]);
      PathFromAppends(FieldKeyToPath(prefix, keys[0]), keys[1..]);
      Associative(prefix, Piece(keys[0]), Tail(keys[1..]));
    }
  }

  /** A printed path is its text. */
  lemma PrintedText(keys: Path)
    requires PlainKeys(keys)
    ensures PathFrom("", keys) == Text(keys)
  {
    if keys != [] {
      assert keys[0] in keys;
      PathIsPiece("", keys[0]);
      PathFromAppends(FieldKeyToPath("", keys[0]), keys[1..]);
      SkipConcat(Piece(keys[0]), Tail(keys[1..]));
    }
  }

  lemma SkipConcat(a: string, b: string)
    requires a != ""
    ensures Skip(a + b) == Skip(a) + b
  {
  }

  lemma TailStart(keys: Path)
    requires PlainKeys(keys)
    ensures Tail(keys) == "" <==> keys == []
    ensures keys != [] ==> Tail(keys)[0] == if keys[0].Field? then '.' else '['
  {
    if keys != [] {
      assert keys[0] in keys;
    }
  }

  /** Splitting a field name off the front of a text. */
  lemma SplitFieldStep(f: string, keys: Path)
    requires PlainName(f) && PlainKeys(keys) && (keys == [] || keys[0].Field?)
    ensures SplitStep(f + Tail(keys)) == Some(([PathPart(f, "")], Text(keys)))
  {
    var s, rest := f + Tail(keys), Tail(keys);
    TailStart(keys);
    assert forall k | 0 <= k < |f| :: s[k] == f[k] && s[k] != '.' && s[k] != '[';
    IndexAt(s, '.', |f|);
    IndexAt(s, '[', |f|);
    if keys == [] {
      assert s == f;
    } else {
      assert s[|f|] == '.' && s[..|f|] == f;
      assert rest[0] == '.';
      assert s[|f| + 1..] == rest[1..];
    }
  }

  /** Where the brackets and the first dot are in a text that starts with a selector. */
  lemma EntryTextIndexes(f: string, sel: string, rest: string)
    requires (f == "" || PlainName(f)) && ']' !in sel
    ensures var s := f + "[" + sel + "]" + rest;
            && IndexOf(s, '[') == |f| && IndexOf(s, ']') == |f| + 1 + |sel|
            && !(0 <= IndexOf(s, '.') < |f|)
            && s[..|f|] == f && s[|f| + 1..|f| + 1 + |sel|] == sel && s[|f| + 2 + |sel|..] == rest
  {
    var s := f + "[" + sel + "]" + rest;
    assert forall k | 0 <= k < |f| :: s[k] == f[k] && s[k] != '.' && s[k] != '[' && s[k] != ']';
    assert s[|f|] == '[' && s[|f| + 1 + |sel|] == ']';
    assert forall k | 0 <= k < |sel| :: s[|f| + 1 + k] == sel[k] && sel[k] != ']';
    assert forall k | |f| + 1 <= k < |f| + 1 + |sel| :: s[k] == sel[k - |f| - 1];
    IndexAt(s, '[', |f|);
    IndexAt(s, '.', |f|);
    IndexAt(s, ']', |f| + 1 + |sel|);
  }

  lemma SplitStepBrackets(s: string, open: nat, close: nat)
    requires IndexOf(s, '[') == open < close == IndexOf(s, ']') && !(0 <= IndexOf(s, '.') < open)
    ensures s != "" && SplitStep(s) == Some((FieldPart(s[..open]) + SelectorPart(s[open + 1..close]), Skip(s[close + 1..])))
  {
    var dot := IndexOf(s, '.');
    assert s[open] == '[' && (dot >= 0 ==> s[dot] == '.');
    assert dot < 0 || open < dot;
  }

  function EntryText(f: string, sel: string, rest: string): string {
    f + "[" + sel + "]" + rest
  }

  /** Splitting a selector off the front of a text, together with the field name before it. */
  lemma SplitEntryStep(f: string, sel: string, id: string, rest: string)
    requires (f == "" || PlainName(f)) && ']' !in sel && SelectorPart(sel) == [PathPart("", id)]
    ensures EntryText(f, sel, rest) != ""
    ensures SplitStep(EntryText(f, sel, rest)) == Some((FieldPart(f) + [PathPart("", id)], Skip(rest)))
  {
    EntryTextIndexes(f, sel, rest);
    var s := EntryText(f, sel, rest);
    SplitStepBrackets(s, |f|, |f| + 1 + |sel|);
  }

  lemma SelectorOf(id: string)
    ensures SelectorPart(Selector(id)) == [PathPart("", id)]
    ensures ']' !in id ==> ']' !in Selector(id)
  {
    var sel := Selector(id);
    assert forall k | 0 <= k < 5 :: sel[k] == "orbId"[k] && sel[k] != '=';
    assert sel[5] == '=';
    IndexAt(sel, '=', 5);
    assert sel[6..] == id;
  }

  /** Splitting a printed path returns its segments, dots inside selectors notwithstanding. */
  lemma {:induction false} SplitUndoesPrint(keys: Path)
    requires PlainKeys(keys)
    ensures Split(Text(keys)) == Some(PartsOf(keys))
    decreases |keys|
  {
    if keys != [] {
      if keys[0].Field? && |keys| > 1 && keys[1].Entry? {
        SplitUndoesPrint(keys[2..]);
        SplitAtFieldEntry(keys);
      } else {
        SplitUndoesPrint(keys[1..]);
        SplitAtOneKey(keys);
      }
    }
  }

  lemma SplitJoin(t: string, parts: seq<PathPart>, u: string, more: seq<PathPart>)
    requires t != "" && SplitStep(t) == Some((parts, u)) && Split(u) == Some(more)
    ensures Split(t) == Some(parts + more)
  {
  }

  lemma SplitEntryText(f: string, sel: string, id: string, rest: Path)
    requires (f == "" || PlainName(f)) && ']' !in sel && SelectorPart(sel) == [PathPart("", id)]
    requires Split(Text(rest)) == Some(PartsOf(rest))
    ensures Split(EntryText(f, sel, Tail(rest))) ==
            Some((if f == "" then [PathPart("", id)] else [PathPart(f, ""), PathPart("", id)]) + PartsOf(rest))
  {
    assert FieldPart(f) + [PathPart("", id)] == if f == "" then [PathPart("", id)] else [PathPart(f, ""), PathPart("", id)];
    SplitEntryStep(f, sel, id, Tail(rest));
    SplitJoin(EntryText(f, sel, Tail(rest)), FieldPart(f) + [PathPart("", id)], Text(rest), PartsOf(rest));
  }

  lemma SplitFieldText(f: string, rest: Path)
    requires PlainName(f) && PlainKeys(rest) && (rest == [] || rest[0].Field?)
    requires Split(Text(rest)) == Some(PartsOf(rest))
    ensures Split(f + Tail(rest)) == Some([PathPart(f, "")] + PartsOf(rest))
  {
    SplitFieldStep(f, rest);
    SplitJoin(f + Tail(rest), [PathPart(f, "")], Text(rest), PartsOf(rest));
  }

  lemma SplitAtOneKey(keys: Path)
    requires PlainKeys(keys) && keys != [] && !(keys[0].Field? && |keys| > 1 && keys[1].Entry?)
    requires Split(Text(keys[1..])) == Some(PartsOf(keys[1..]))
    ensures Split(Text(keys)) == Some(PartsOf(keys))
  {
    assert PlainKey(keys[0]) by {
      assert keys[0] in keys;
    }
    if keys[0].Entry? {
      SelectorOf(keys[0].orbId);
      SplitEntryText("", Selector(keys[0].orbId), keys[0].orbId, keys[1..]);
      TextOfEntry(keys);
    } else {
      assert |keys| > 1 ==> PlainKey(keys[1]) by {
        assert |keys| > 1 ==> keys[1] in keys;
      }
      SplitFieldText(keys[0].name, keys[1..]);
      TextOfField(keys);
    }
  }

  lemma SplitAtFieldEntry(keys: Path)
    requires PlainKeys(keys) && |keys| > 1 && keys[0].Field? && keys[1].Entry?
    requires Split(Text(keys[2..])) == Some(PartsOf(keys[2..]))
    ensures Split(Text(keys)) == Some(PartsOf(keys))
  {
    assert PlainKey(keys[0]) && PlainKey(keys[1]) by {
      assert keys[0] in keys && keys[1] in keys;
    }
    SelectorOf(keys[1].orbId);
    SplitEntryText(keys[0].name, Selector(keys[1].orbId), keys[1].orbId, keys[2..]);
    TextOfFieldEntry(keys);
    TwoParts(keys);
  }

  lemma TwoParts(keys: Path)
    requires |keys| > 1
    ensures PartsOf(keys) == [PartOf(keys[0]), PartOf(keys[1])] + PartsOf(keys[2..])
  {
    var a, b, rest := PartOf(keys[0]), PartOf(keys[1]), PartsOf(keys[2..]);
    assert keys[1..][1..] == keys[2..] && keys[1..][0] == keys[1];
    assert PartsOf(keys) == [a] + PartsOf(keys[1..]);
    assert PartsOf(keys[1..]) == [b] + rest;
    TwoHeads(a, b, rest);
  }

  lemma TwoHeads<T>(a: T, b: T, rest: seq<T>)
    ensures [a] + ([b] + rest) == [a, b] + rest
  {
  }

  lemma TextOfEntry(keys: Path)
    requires PlainKeys(keys) && keys != [] && keys[0].Entry?
    ensures Text(keys) == EntryText("", Selector(keys[0].orbId), Tail(keys[1..]))
  {
    assert "" + "[" == "[";
  }

  lemma TextOfField(keys: Path)
    requires PlainKeys(keys) && keys != [] && keys[0].Field?
    ensures Text(keys) == keys[0].name + Tail(keys[1..])
  {
    SkipConcat(Piece(keys[0]), Tail(keys[1..]));
    assert Skip(Piece(keys[0])) == keys[0].name;
  }

  lemma TextOfFieldEntry(keys: Path)
    requires PlainKeys(keys) && |keys| > 1 && keys[0].Field? && keys[1].Entry?
    ensures Text(keys) == EntryText(keys[0].name, Selector(keys[1].orbId), Tail(keys[2..]))
  {
    TextOfField(keys);
    assert keys[1..][1..] == keys[2..];
    Regroup(keys[0].name, "[", Selector(keys[1].orbId), "]", Tail(keys[2..]));
  }

  lemma Regroup(a: string, b: string, c: string, d: string, e: string)
    ensures a + ((b + c + d) + e) == a + b + c + d + e
  {
  }

  /** Folding the printer over the keys and splitting the result is the identity on segments. */
  lemma PathRoundTrip(keys: Path)
    requires PlainKeys(keys)
    ensures Split(PathFrom("", keys)) == Some(PartsOf(keys))
  {
    SplitUndoesPrint(keys);
    PrintedText(keys);
  }

  /** Segments determine the path. */
  lemma {:induction false} PartsInjective(a: Path, b: Path)
    requires PlainKeys(a) && PlainKeys(b) && PartsOf(a) == PartsOf(b)
    ensures a == b
  {
    if a != [] && b != [] {
      assert a[0] in a && b[0] in b;
      assert PartsOf(a)[0] == PartsOf(b)[0] && PartsOf(a)[1..] == PartsOf(a[1..]) && PartsOf(b)[1..] == PartsOf(b[1..]);
      PartsInjective(a[1..], b[1..]);
      assert a == [a[0]] + a[1..] && b == [b[0]] + b[1..];
    }
  }

  /** Distinct paths print differently. */
  lemma PrintInjective(a: Path, b: Path)
    requires PlainKeys(a) && PlainKeys(b) && PathFrom("", a) == PathFrom("", b)
    ensures a == b
  {
    PathRoundTrip(a);
    PathRoundTrip(b);
    PartsInjective(a, b);
  }

  // ----- text that is no printed path

  /** A bracket that is never closed ends the path; the field before it counts. */
  lemma UnclosedBracket(f: string, rest: string)
    requires PlainName(f) && ']' !in rest
    ensures Split(f + "[" + rest) == Some([PathPart(f, "")])
  {
    var s := f + "[" + rest;
    assert forall k | 0 <= k < |f| :: s[k] == f[k] && f[k] != '.' && f[k] != '[' && f[k] != ']';
    assert s[|f|] == '[' && forall k | |f| < k < |s| :: s[k] == rest[k - |f| - 1];
    IndexAt(s, '[', |f|);
    IndexAt(s, '.', |f|);
    IndexAt(s, ']', |s|);
    assert s[..|f|] == f;
    OnlyStep(s, [PathPart(f, "")]);
  }

  lemma OnlyStep(s: string, parts: seq<PathPart>)
    requires s != "" && SplitStep(s) == Some((parts, ""))
    ensures Split(s) == Some(parts)
  {
    assert Split("") == Some([]) && parts + [] == parts;
  }

  /** A selector without an equals sign is passed over. */
  lemma SelectorWithoutEquals(f: string, sel: string)
    requires PlainName(f) && ']' !in sel && '=' !in sel
    ensures Split(EntryText(f, sel, "")) == Some([PathPart(f, "")])
  {
    EntryTextIndexes(f, sel, "");
    var s := EntryText(f, sel, "");
    IndexAt(sel, '=', |sel|);
    SplitStepBrackets(s, |f|, |f| + 1 + |sel|);
    assert [PathPart(f, "")] + [] == [PathPart(f, "")];
    OnlyStep(s, [PathPart(f, "")]);
  }

  // ----- the strings that cannot be split

  /** Scanning s from left to right, inside brackets or outside; stray tells whether a closing bracket was
      met outside brackets since the last dot. True when an opening bracket follows a stray closing one. */
  predicate Derails(s: string, inside: bool, stray: bool)
    decreases |s|
  {
    s != "" &&
    if inside then Derails(s[1..], s[0] != ']', false)
    else if s[0] == '[' then stray || Derails(s[1..], true, false)
    else if s[0] == '.' then Derails(s[1..], false, false)
    else Derails(s[1..], false, stray || s[0] == ']')
  }

  lemma {:induction false} FirstIndex(s: string, c: char)
    ensures forall k | 0 <= k < (if IndexOf(s, c) < 0 then |s| else IndexOf(s, c)) :: s[k] != c
  {
    if s != "" && s[0] != c {
      FirstIndex(s[1..], c);
      assert forall k | 1 <= k < |s| :: s[k] == s[1..][k - 1];
    }
  }

  lemma {:induction false} ScanOutside(s: string, n: nat, stray: bool)
    requires n <= |s| && forall k | 0 <= k < n :: s[k] != '.' && s[k] != '['
    ensures Derails(s, false, stray) == Derails(s[n..], false, stray || ']' in s[..n])
    decreases n
  {
    if n > 0 {
      assert forall k | 0 <= k < n - 1 :: s[1..][k] == s[k + 1];
      ScanOutside(s[1..], n - 1, stray || s[0] == ']');
      assert s[1..][n - 1..] == s[n..] && s[..n] == [s[0]] + s[1..][..n - 1];
    } else {
      assert s[0..] == s && s[..0] == "";
    }
  }

  lemma {:induction false} ScanInside(s: string, n: nat)
    requires n <= |s| && forall k | 0 <= k < n :: s[k] != ']'
    ensures Derails(s, true, false) == Derails(s[n..], true, false)
    decreases n
  {
    if n > 0 {
      assert forall k | 0 <= k < n - 1 :: s[1..][k] == s[k + 1];
      ScanInside(s[1..], n - 1);
      assert s[1..][n - 1..] == s[n..];
    } else {
      assert s[0..] == s;
    }
  }

  lemma SkipScans(s: string)
    ensures Derails(Skip(s), false, false) == Derails(s, false, false)
  {
  }

  /** A string cannot be split exactly when a scan of it derails: the slice that the source takes there
      has its end before its start. */
  lemma {:induction false} SplitFailsIff(s: string)
    ensures Split(s).None? <==> Derails(s, false, false)
    decreases |s|
  {
    if s != "" {
      StepScans(s);
      if SplitStep(s).Some? {
        SplitFailsIff(SplitStep(s).value.1);
      }
    }
  }

  lemma StepScans(s: string)
    requires s != ""
    ensures SplitStep(s).None? ==> Derails(s, false, false)
    ensures SplitStep(s).Some? ==> Derails(s, false, false) == Derails(SplitStep(s).value.1, false, false)
  {
    var dot, open, close := IndexOf(s, '.'), IndexOf(s, '['), IndexOf(s, ']');
    if open >= 0 && (dot < 0 || open < dot) {
      StepAtOpen(s, open, close);
      BeforeOpen(s, dot, open);
      FirstIndex(s, ']');
      OpenScans(s, open, close);
    } else if dot >= 0 {
      StepAtDot(s, dot);
      BeforeOpen(s, open, dot);
      DotScans(s, dot);
    } else {
      NoneFound(s);
    }
  }

  /** Before the first dot or opening bracket there is neither. */
  lemma BeforeOpen(s: string, other: int, first: nat)
    requires (IndexOf(s, '.') == other && IndexOf(s, '[') == first) || (IndexOf(s, '[') == other && IndexOf(s, '.') == first)
    requires other < 0 || first < other
    ensures forall k | 0 <= k < first :: s[k] != '.' && s[k] != '['
  {
    FirstIndex(s, '.');
    FirstIndex(s, '[');
  }

  lemma StepAtOpen(s: string, open: nat, close: int)
    requires s != "" && IndexOf(s, '[') == open && (IndexOf(s, '.') < 0 || open < IndexOf(s, '.')) && IndexOf(s, ']') == close
    ensures SplitStep(s).None? <==> 0 <= close < open
    ensures SplitStep(s).Some? ==> SplitStep(s).value.1 == if close < 0 then "" else Skip(s[close + 1..])
  {
  }

  lemma StepAtDot(s: string, dot: nat)
    requires s != "" && IndexOf(s, '.') == dot && (IndexOf(s, '[') < 0 || dot < IndexOf(s, '['))
    ensures SplitStep(s).Some? && SplitStep(s).value.1 == s[dot + 1..]
  {
  }

  lemma NoneFound(s: string)
    requires s != "" && IndexOf(s, '.') < 0 && IndexOf(s, '[') < 0
    ensures SplitStep(s).Some? && SplitStep(s).value.1 == "" && !Derails(s, false, false)
  {
    FirstIndex(s, '.');
    FirstIndex(s, '[');
    ScanOutside(s, |s|, false);
    assert s[|s|..] == "";
  }

  lemma DotScans(s: string, dot: nat)
    requires dot < |s| && s[dot] == '.' && forall k | 0 <= k < dot :: s[k] != '.' && s[k] != '['
    ensures Derails(s, false, false) == Derails(s[dot + 1..], false, false)
  {
    ScanOutside(s, dot, false);
    assert s[dot..][0] == '.' && s[dot..][1..] == s[dot + 1..];
  }

  lemma OpenScans(s: string, open: nat, close: int)
    requires open < |s| && s[open] == '[' && forall k | 0 <= k < open :: s[k] != '.' && s[k] != '['
    requires close < |s| && (close >= 0 ==> s[close] == ']') && forall k | 0 <= k < (if close < 0 then |s| else close) :: s[k] != ']'
    ensures Derails(s, false, false) ==
            if close < 0 then false else close < open || Derails(Skip(s[close + 1..]), false, false)
  {
    ScanOutside(s, open, false);
    assert s[open..][0] == '[' && s[open..][1..] == s[open + 1..];
    if 0 <= close < open {
      assert s[..open][close] == ']';
    } else {
      assert ']' !in s[..open];
      BracketScans(s, open, close);
    }
  }

  lemma BracketScans(s: string, open: nat, close: int)
    requires open < |s| && (close < 0 || open < close < |s|)
    requires forall k | open < k < (if close < 0 then |s| else close) :: s[k] != ']'
    requires close >= 0 ==> s[close] == ']'
    ensures Derails(s[open + 1..], true, false) == if close < 0 then false else Derails(Skip(s[close + 1..]), false, false)
  {
    var inner := s[open + 1..];
    var n := if close < 0 then |inner| else close - open - 1;
    assert forall k | 0 <= k < n :: inner[k] == s[open + 1 + k];
    ScanInside(inner, n);
    if close >= 0 {
      assert inner[n..] == s[close..] && s[close..][0] == ']' && s[close..][1..] == s[close + 1..];
      SkipScans(s[close + 1..]);
    } else {
      assert inner[n..] == "";
    }
  }

  /** What follows a text without opening brackets cannot derail it. */
  lemma {:induction false} HarmlessTail(s: string, rest: string, inside: bool, stray: bool)
    requires '[' !in rest
    ensures Derails(s + rest, inside, stray) == Derails(s, inside, stray)
    decreases |s| + |rest|
  {
    if s != "" {
      assert (s + rest)[1..] == s[1..] + rest;
      HarmlessTail(s[1..], rest, inside && s[0] != ']', if inside || s[0] == '.' || s[0] == '[' then false else stray || s[0] == ']');
      if !inside && s[0] == '[' {
        HarmlessTail(s[1..], rest, true, false);
      }
    } else {
      assert s + rest == rest;
      if rest != "" {
        assert "" + rest[1..] == rest[1..];
        HarmlessTail("", rest[1..], inside && rest[0] != ']', if inside || rest[0] == '.' then false else stray || rest[0] == ']');
      }
    }
  }
}
