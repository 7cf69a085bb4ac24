/** The payload hash: sort by (orbId, field), then digest. */
module ContentHash {
  import opened Overrides
  import Base

  /** Lexicographic order on strings. */
  predicate StringLess(a: string, b: string)
    decreases |a|
  {
    b != "" && (a == "" || a[0] < b[0] || (a[0] == b[0] && StringLess(a[1..], b[1..])))
  }

  lemma {:induction false} StringOrder(a: string, b: string)
    ensures !StringLess(a, a)
    ensures !(StringLess(a, b) && StringLess(b, a))
    ensures StringLess(a, b) || StringLess(b, a) || a == b
    decreases |a|
  {
    if a != "" {
      StringOrder(a[1..], if b == "" then "" else b[1..]);
      assert b != "" && a[0] == b[0] && a[1..] == b[1..] ==> a == [a[0]] + a[1..] == [b[0]] + b[1..] == b;
    }
  }

  lemma {:induction false} StringTransitive(a: string, b: string, c: string)
    requires StringLess(a, b) && StringLess(b, c)
    ensures StringLess(a, c)
    decreases |a|
  {
    if a != "" && a[0] == b[0] == c[0] {
      StringTransitive(a[1..], b[1..], c[1..]);
    }
  }

  /** a is a proper prefix of b, or smaller at the first difference, which is at k. */
  ghost predicate SmallerAt(a: string, b: string, k: int) {
    && 0 <= k <= |a| && k < |b| && (forall i | 0 <= i < k :: a[i] == b[i])
    && (k == |a| || a[k] < b[k])
  }

  /** The order is the lexicographic one. */
  lemma {:induction false} StringLessIff(a: string, b: string)
    ensures StringLess(a, b) <==> exists k :: SmallerAt(a, b, k)
    decreases |a|
  {
    if a == "" || b == "" || a[0] != b[0] {
      if StringLess(a, b) {
        assert SmallerAt(a, b, 0);
      }
    } else {
      StringLessIff(a[1..], b[1..]);
      if k :| SmallerAt(a[1..], b[1..], k) {
        assert forall i | 1 <= i < k + 1 :: a[i] == a[1..][i - 1] && b[i] == b[1..][i - 1];
        assert SmallerAt(a, b, k + 1);
      }
      if k :| SmallerAt(a, b, k) {
        assert forall i | 0 <= i < k - 1 :: a[1..][i] == a[i + 1] && b[1..][i] == b[i + 1];
        assert SmallerAt(a[1..], b[1..], k - 1);
      }
    }
  }

  /** The sorted entries go by orbId, and among the same orbId by field. */
  lemma SortedOrder(a: seq<OverrideEntry>, i: nat, k: nat)
    requires i < k < |Sorted(a)|
    ensures var x, y := Sorted(a)[i], Sorted(a)[k];
            StringLess(x.orbId, y.orbId) || (x.orbId == y.orbId && (StringLess(x.field, y.field) || x.field == y.field))
  {
    SortedIsForm(a);
    var x, y := Sorted(a)[i], Sorted(a)[k];
    assert !Less(y, x);
    StringOrder(x.orbId, y.orbId);
    StringOrder(x.field, y.field);
  }

  predicate SameKey(x: OverrideEntry, y: OverrideEntry) {
    x.orbId == y.orbId && x.field == y.field
  }

  /** The comparison the sort uses. */
  predicate Less(x: OverrideEntry, y: OverrideEntry) {
    if x.orbId != y.orbId then StringLess(x.orbId, y.orbId) else StringLess(x.field, y.field)
  }

  lemma LessOrder(x: OverrideEntry, y: OverrideEntry)
    ensures !(Less(x, y) && Less(y, x)) && !Less(x, x)
    ensures Less(x, y) || Less(y, x) || SameKey(x, y)
    ensures SameKey(x, y) ==> !Less(x, y)
  {
    StringOrder(x.orbId, y.orbId);
    StringOrder(x.field, y.field);
  }

  lemma LessTransitive(x: OverrideEntry, y: OverrideEntry, z: OverrideEntry)
    requires !Less(y, x) && !Less(z, y)
    ensures !Less(z, x)
  {
    LessOrder(x, y);
    LessOrder(y, z);
    LessOrder(x, z);
    if Less(z, x) {
      if Less(x, y) {
        LessThrough(z, x, y);
      } else if Less(y, z) {
        LessThrough(y, z, x);
      }
    }
  }

  lemma LessThrough(x: OverrideEntry, y: OverrideEntry, z: OverrideEntry)
    requires Less(x, y) && Less(y, z)
    ensures Less(x, z)
  {
    StringOrder(x.orbId, y.orbId);
    StringOrder(x.orbId, z.orbId);
    if x.orbId == y.orbId == z.orbId {
      StringTransitive(x.field, y.field, z.field);
    } else if x.orbId != y.orbId && y.orbId != z.orbId {
      StringTransitive(x.orbId, y.orbId, z.orbId);
    }
  }

  ghost predicate Ordered(s: seq<OverrideEntry>) {
    forall i, k | 0 <= i < k < |s| :: !Less(s[k], s[i])
  }

  /** What a sort may return: the same entries, in an order the comparison accepts. */
  ghost predicate SortedForm(a: seq<OverrideEntry>, s: seq<OverrideEntry>) {
    multiset(s) == multiset(a) && Ordered(s)
  }

  /** Entries with the same key are the same entry. */
  ghost predicate KeysDetermine(a: seq<OverrideEntry>) {
    forall x, y | x in a && y in a && SameKey(x, y) :: x == y
  }

  function Insert(x: OverrideEntry, s: seq<OverrideEntry>): seq<OverrideEntry> {
    if s == [] then [x]
    else if Less(s[0], x) then [s[0]] + Insert(x, s[1..])
    else [x] + s
  }

  function Sorted(a: seq<OverrideEntry>): seq<OverrideEntry> {
    if a == [] then [] else Insert(a[0], Sorted(a[1..]))
  }

  lemma {:induction false} InsertSorts(x: OverrideEntry, s: seq<OverrideEntry>)
    requires Ordered(s)
    ensures Ordered(Insert(x, s)) && multiset(Insert(x, s)) == multiset(s) + multiset{x}
    decreases |s|
  {
    if s != [] {
      Base.TailMultiset(s);
      if Less(s[0], x) {
        TailOrdered(s);
        InsertSorts(x, s[1..]);
        BehindSmaller(x, s, Insert(x, s[1..]));
      } else {
        BeforeLarger(x, s);
      }
    }
  }

  lemma BeforeLarger(x: OverrideEntry, s: seq<OverrideEntry>)
    requires s != [] && Ordered(s) && !Less(s[0], x)
    ensures Ordered([x] + s)
  {
    forall k | 0 <= k < |s| ensures !Less(s[k], x) {
      if k > 0 {
        LessTransitive(x, s[0], s[k]);
      }
    }
  }

  lemma BehindSmaller(x: OverrideEntry, s: seq<OverrideEntry>, rest: seq<OverrideEntry>)
    requires s != [] && Ordered(s) && Less(s[0], x) && Ordered(rest) && multiset(rest) == multiset(s[1..]) + multiset{x}
    ensures Ordered([s[0]] + rest)
  {
    forall k | 0 <= k < |rest| ensures !Less(rest[k], s[0]) {
      assert rest[k] in multiset(rest);
      LessOrder(s[0], x);
      assert rest[k] == x || rest[k] in s[1..];
    }
  }

  lemma {:induction false} SortedIsForm(a: seq<OverrideEntry>)
    ensures SortedForm(a, Sorted(a))
    decreases |a|
  {
    if a != [] {
      SortedIsForm(a[1..]);
      InsertSorts(a[0], Sorted(a[1..]));
      assert a == [a[0]] + a[1..];
    }
  }

  lemma {:induction false} UniqueForm(s: seq<OverrideEntry>, t: seq<OverrideEntry>)
    requires multiset(s) == multiset(t) && Ordered(s) && Ordered(t) && KeysDetermine(s)
    ensures s == t
    decreases |s|
  {
    assert |s| == |multiset(s)| == |multiset(t)| == |t|;
    if s != [] {
      TailsAgree(s, t);
      UniqueForm(s[1..], t[1..]);
      assert s == [s[0]] + s[1..] && t == [t[0]] + t[1..];
    }
  }

  lemma TailsAgree(s: seq<OverrideEntry>, t: seq<OverrideEntry>)
    requires multiset(s) == multiset(t) && Ordered(s) && Ordered(t) && KeysDetermine(s) && s != [] && t != []
    ensures s[0] == t[0] && multiset(s[1..]) == multiset(t[1..])
    ensures Ordered(s[1..]) && Ordered(t[1..]) && KeysDetermine(s[1..])
  {
    HeadsAgree(s, t);
    Base.TailMultiset(s);
    Base.TailMultiset(t);
    TailOrdered(s);
    TailOrdered(t);
  }

  lemma TailOrdered(s: seq<OverrideEntry>)
    requires Ordered(s) && s != []
    ensures Ordered(s[1..]) && (KeysDetermine(s) ==> KeysDetermine(s[1..]))
  {
  }

  lemma HeadsAgree(s: seq<OverrideEntry>, t: seq<OverrideEntry>)
    requires multiset(s) == multiset(t) && Ordered(s) && Ordered(t) && KeysDetermine(s) && s != [] && t != []
    ensures s[0] == t[0]
  {
    assert s[0] in multiset(t) && t[0] in multiset(s);
    var i :| 0 <= i < |t| && t[i] == s[0];
    var k :| 0 <= k < |s| && s[k] == t[0];
    LessOrder(s[0], s[0]);
    LessOrder(s[0], t[0]);
    assert !Less(s[0], t[0]) && !Less(t[0], s[0]);
  }

  /** Entries that may stand in either order make a second sorted form. */
  lemma SwapForm(s: seq<OverrideEntry>, i: nat, k: nat)
    requires Ordered(s) && i < k < |s| && SameKey(s[i], s[k])
    ensures SortedForm(s, s[i := s[k]][k := s[i]])
  {
    var t := s[i := s[k]][k := s[i]];
    assert s == s[..i] + [s[i]] + s[i + 1..k] + [s[k]] + s[k + 1..];
    assert t == s[..i] + [s[k]] + s[i + 1..k] + [s[i]] + s[k + 1..];
    forall a, b | 0 <= a < b < |t| ensures !Less(t[b], t[a]) {
      LessOrder(s[i], s[k]);
      LessOrder(s[k], s[i]);
    }
  }

  /** Sorting is canonical, whatever algorithm sorts, exactly when keys determine entries; two
      managers overriding the same leaf are what can make it ambiguous. */
  lemma CanonicalIff(a: seq<OverrideEntry>)
    ensures (forall s, t | SortedForm(a, s) && SortedForm(a, t) :: s == t) <==> KeysDetermine(a)
  {
    if KeysDetermine(a) {
      forall s, t | SortedForm(a, s) && SortedForm(a, t) ensures s == t {
        SameMembers(a, s);
        UniqueForm(s, t);
      }
    } else {
      var s, t := TwoForms(a);
    }
  }

  lemma TwoForms(a: seq<OverrideEntry>) returns (s: seq<OverrideEntry>, t: seq<OverrideEntry>)
    requires !KeysDetermine(a)
    ensures SortedForm(a, s) && SortedForm(a, t) && s != t
  {
    SortedIsForm(a);
    s := Sorted(a);
    SameMembers(a, s);
    var x, y :| x in a && y in a && SameKey(x, y) && x != y;
    var i :| 0 <= i < |s| && s[i] == x;
    var k :| 0 <= k < |s| && s[k] == y;
    t := OtherForm(a, s, if i < k then i else k, if i < k then k else i);
  }

  lemma OtherForm(a: seq<OverrideEntry>, s: seq<OverrideEntry>, lo: nat, hi: nat) returns (t: seq<OverrideEntry>)
    requires SortedForm(a, s) && lo < hi < |s| && SameKey(s[lo], s[hi]) && s[lo] != s[hi]
    ensures SortedForm(a, t) && t != s
  {
    SwapForm(s, lo, hi);
    t := s[lo := s[hi]][hi := s[lo]];
    assert t[lo] != s[lo];
  }

  lemma SameMembers(a: seq<OverrideEntry>, s: seq<OverrideEntry>)
    requires multiset(s) == multiset(a)
    ensures forall x :: x in s <==> x in a
  {
    forall x ensures x in s <==> x in a {
      assert x in s <==> x in multiset(s);
      assert x in a <==> x in multiset(a);
    }
  }

  /** A digest of sorted forms: equal digests mean equal override sets, and for keys that determine
      entries, equal override sets mean equal digests. */
  lemma DigestTellsSets(hash: seq<OverrideEntry> -> string, a: seq<OverrideEntry>, b: seq<OverrideEntry>,
      s: seq<OverrideEntry>, t: seq<OverrideEntry>)
    requires forall x, y :: hash(x) == hash(y) ==> x == y
    requires SortedForm(a, s) && SortedForm(b, t)
    ensures hash(s) == hash(t) ==> multiset(a) == multiset(b)
    ensures KeysDetermine(a) && multiset(a) == multiset(b) ==> hash(s) == hash(t)
  {
    if KeysDetermine(a) && multiset(a) == multiset(b) {
      SameMembers(a, s);
      UniqueForm(s, t);
    }
  }
}
