/** Byte strings as Python sees them: lexicographic order, `split` on one separator
    byte, and a stable `sorted` by a byte-string key. */
module ByteStrings {

  type byte = x: int | 0 <= x < 256
  type bytes = seq<byte>

  function Ascii(s: string): bytes {
    seq(|s|, i requires 0 <= i < |s| => (s[i] as int) % 256)
  }

  lemma AsciiText(s: string, i: nat)
    requires i < |s| && s[i] < 128 as char
    ensures |Ascii(s)| == |s| && Ascii(s)[i] == s[i] as int
  {
  }

  /** ASCII whitespace, as `bytes.split()` understands it. */
  predicate IsSpace(c: byte) {
    c == 32 || 9 <= c <= 13
  }

  lemma CutConcat(a: bytes, b: bytes)
    ensures (a + b)[..|a|] == a && (a + b)[|a|..] == b
  {
  }

  lemma Associative(a: bytes, b: bytes, c: bytes)
    ensures (a + b) + c == a + (b + c)
  {
  }

  // ---------- lexicographic order ----------

  /** The strict `<` of Python `bytes`. */
  predicate Below(a: bytes, b: bytes) {
    if b == [] then false
    else if a == [] then true
    else if a[0] != b[0] then a[0] < b[0]
    else Below(a[1..], b[1..])
  }

  /** At the first difference the smaller byte decides; a proper prefix comes first. */
  lemma {:induction false} BelowIff(a: bytes, b: bytes)
    ensures Below(a, b) <==> exists k: nat :: FirstSmaller(a, b, k)
  {
    if a == [] && b != [] {
      assert FirstSmaller(a, b, 0);
    } else if b != [] && a[0] != b[0] {
      assert a[0] < b[0] ==> FirstSmaller(a, b, 0);
      forall k: nat | FirstSmaller(a, b, k) ensures a[0] < b[0] {
        assert k > 0 ==> a[..k][0] == b[..k][0];
      }
    } else if b != [] {
      BelowIff(a[1..], b[1..]);
      if k: nat :| FirstSmaller(a[1..], b[1..], k) {
        assert a[..k + 1] == [a[0]] + a[1..][..k] && b[..k + 1] == [b[0]] + b[1..][..k];
        assert FirstSmaller(a, b, k + 1);
      }
      if k: nat :| FirstSmaller(a, b, k) {
        assert a[1..][..k - 1] == a[..k][1..] && b[1..][..k - 1] == b[..k][1..];
        assert FirstSmaller(a[1..], b[1..], k - 1);
      }
    }
  }

  predicate FirstSmaller(a: bytes, b: bytes, k: nat) {
    k <= |a| && k < |b| && a[..k] == b[..k] && (k == |a| || a[k] < b[k])
  }

  lemma {:induction false} BelowIrreflexive(a: bytes)
    ensures !Below(a, a)
  {
    if a != [] {
      BelowIrreflexive(a[1..]);
    }
  }

  lemma {:induction false} BelowTotal(a: bytes, b: bytes)
    ensures Below(a, b) || a == b || Below(b, a)
  {
    if a != [] && b != [] && a[0] == b[0] {
      BelowTotal(a[1..], b[1..]);
      assert a == [a[0]] + a[1..] && b == [b[0]] + b[1..];
    }
  }

  lemma {:induction false} BelowTransitive(a: bytes, b: bytes, c: bytes)
    requires Below(a, b) && Below(b, c)
    ensures Below(a, c)
  {
    if a != [] && a[0] == b[0] == c[0] {
      BelowTransitive(a[1..], b[1..], c[1..]);
    }
  }

  lemma {:induction false} BelowAsymmetric(a: bytes, b: bytes)
    requires Below(a, b)
    ensures !Below(b, a) && a != b
  {
    BelowIrreflexive(a);
    if Below(b, a) {
      BelowTransitive(a, b, a);
    }
  }

  /** A common prefix does not affect the order. */
  lemma {:induction false} BelowUnderPrefix(p: bytes, a: bytes, b: bytes)
    ensures Below(p + a, p + b) == Below(a, b)
  {
    if p == [] {
      assert p + a == a && p + b == b;
    } else {
      assert (p + a)[1..] == p[1..] + a && (p + b)[1..] == p[1..] + b;
      BelowUnderPrefix(p[1..], a, b);
    }
  }

  // ---------- split and its inverse ----------

  /** `s.split(sep)` for a one-byte separator: never empty. */
  function Split(s: bytes, sep: byte): (parts: seq<bytes>)
    ensures |parts| > 0
    ensures forall p :: p in parts ==> sep !in p
  {
    if s == [] then [[]]
    else
      var rest := Split(s[1..], sep);
      if s[0] == sep then [[]] + rest
      else [[s[0]] + rest[0]] + rest[1..]
  }

  /** `sep.join(parts)`. */
  function Join(parts: seq<bytes>, sep: byte): bytes
    requires |parts| > 0
  {
    if |parts| == 1 then parts[0] else parts[0] + [sep] + Join(parts[1..], sep)
  }

  lemma JoinTwo(a: bytes, b: bytes, rest: seq<bytes>, sep: byte)
    ensures Join([a, b] + rest, sep) == Join([a + [sep] + b] + rest, sep)
  {
    var one, two, three := [b] + rest, [a, b] + rest, [a + [sep] + b] + rest;
    assert two[1..] == one && one[1..] == rest && three[1..] == rest;
    if rest != [] {
      assert a + [sep] + (b + [sep] + Join(rest, sep)) == (a + [sep] + b) + [sep] + Join(rest, sep);
    }
  }

  lemma {:induction false} SplitPrepend(p: bytes, s: bytes, sep: byte)
    requires sep !in p
    ensures Split(p + [sep] + s, sep) == [p] + Split(s, sep)
  {
    var whole := p + [sep] + s;
    if p == [] {
      assert whole[1..] == s;
    } else {
      assert whole[1..] == p[1..] + [sep] + s;
      SplitPrepend(p[1..], s, sep);
      assert [p[0]] + p[1..] == p;
    }
  }

  lemma {:induction false} SplitSingle(p: bytes, sep: byte)
    requires sep !in p
    ensures Split(p, sep) == [p]
  {
    if p != [] {
      SplitSingle(p[1..], sep);
      assert [p[0]] + p[1..] == p;
    }
  }

  lemma {:induction false} FirstPartLeads(p: bytes, sep: byte)
    ensures var d := Split(p, sep)[0]; p == d || d + [sep] <= p
  {
    if p != [] && p[0] != sep {
      FirstPartLeads(p[1..], sep);
      var d := Split(p[1..], sep)[0];
      assert p == [p[0]] + p[1..] && Split(p, sep)[0] == [p[0]] + d;
      if d + [sep] <= p[1..] {
        assert ([p[0]] + d) + [sep] == [p[0]] + (d + [sep]);
      }
    }
  }

  /** The first part of a path is `d` exactly when the path is `d` or lies below it. */
  lemma FirstPart(p: bytes, d: bytes, sep: byte)
    requires sep !in d
    ensures Split(p, sep)[0] == d <==> p == d || d + [sep] <= p
  {
    FirstPartLeads(p, sep);
    if p == d {
      SplitSingle(d, sep);
    } else if d + [sep] <= p {
      var rest := p[|d| + 1..];
      assert p == d + [sep] + rest;
      SplitPrepend(d, rest, sep);
    }
  }

  lemma {:induction false} SplitEndsEmpty(front: bytes, sep: byte)
    ensures var parts := Split(front + [sep], sep); |parts| >= 2 && parts[|parts| - 1] == [] && [] in parts
  {
    var s := front + [sep];
    if front == [] {
      assert Split([], sep) == [[]];
      assert s[1..] == [];
    } else {
      assert s[1..] == front[1..] + [sep];
      SplitEndsEmpty(front[1..], sep);
    }
  }

  // ---------- fields between zero bytes ----------

  lemma NoZeroBefore(a: bytes, x: bytes)
    requires 0 !in a
    ensures forall i :: 0 <= i < |a| ==> (a + [0] + x)[i] != 0
    ensures (a + [0] + x)[|a|] == 0
  {
    forall i | 0 <= i < |a| ensures (a + [0] + x)[i] != 0 {
      assert a[i] in a;
    }
  }

  lemma FirstZero(a: bytes, x: bytes, b: bytes, y: bytes)
    requires 0 !in a && 0 !in b && a + [0] + x == b + [0] + y
    ensures a == b && x == y
  {
    NoZeroBefore(a, x);
    NoZeroBefore(b, y);
    assert |a| == |b|;
    assert a == (a + [0] + x)[..|a|] == (b + [0] + y)[..|b|] == b;
    assert x == (a + [0] + x)[|a| + 1..] == (b + [0] + y)[|b| + 1..] == y;
  }

  lemma NoZeroAfter(a: bytes, x: bytes)
    requires 0 !in x
    ensures forall i :: |a| < i < |a + [0] + x| ==> (a + [0] + x)[i] != 0
    ensures (a + [0] + x)[|a|] == 0
  {
    forall i | |a| < i < |a + [0] + x| ensures (a + [0] + x)[i] != 0 {
      assert x[i - |a| - 1] in x;
    }
  }

  lemma LastZero(a: bytes, x: bytes, b: bytes, y: bytes)
    requires 0 !in x && 0 !in y && a + [0] + x == b + [0] + y
    ensures a == b && x == y
  {
    NoZeroAfter(a, x);
    NoZeroAfter(b, y);
    assert |a| == |b|;
    assert a == (a + [0] + x)[..|a|] == (b + [0] + y)[..|b|] == b;
    assert x == (a + [0] + x)[|a| + 1..] == (b + [0] + y)[|b| + 1..] == y;
  }

  // ---------- sorted(..., key=...) ----------

  predicate SortedBy<T>(s: seq<T>, key: T -> bytes) {
    forall i, j :: 0 <= i < j < |s| ==> !Below(key(s[j]), key(s[i]))
  }

  ghost predicate DistinctBy<T>(s: seq<T>, key: T -> bytes) {
    forall i, j :: 0 <= i < j < |s| ==> key(s[i]) != key(s[j])
  }

  function Insert<T>(x: T, s: seq<T>, key: T -> bytes): seq<T> {
    if s == [] || !Below(key(s[0]), key(x)) then [x] + s
    else [s[0]] + Insert(x, s[1..], key)
  }

  /** A stable sort, as Python's `sorted` is. */
  function SortBy<T>(s: seq<T>, key: T -> bytes): seq<T> {
    if s == [] then [] else Insert(s[0], SortBy(s[1..], key), key)
  }

  lemma {:induction false} InsertIsPermutation<T>(x: T, s: seq<T>, key: T -> bytes)
    ensures multiset(Insert(x, s, key)) == multiset{x} + multiset(s)
  {
    if s != [] {
      assert s == [s[0]] + s[1..];
      if Below(key(s[0]), key(x)) {
        InsertIsPermutation(x, s[1..], key);
      }
    }
  }

  lemma {:induction false} SortIsPermutation<T>(s: seq<T>, key: T -> bytes)
    ensures multiset(SortBy(s, key)) == multiset(s) && |SortBy(s, key)| == |s|
  {
    if s != [] {
      SortIsPermutation(s[1..], key);
      InsertIsPermutation(s[0], SortBy(s[1..], key), key);
      assert s == [s[0]] + s[1..];
    }
    assert |multiset(SortBy(s, key))| == |SortBy(s, key)|;
  }

  lemma {:induction false} InsertKeepsSorted<T>(x: T, s: seq<T>, key: T -> bytes)
    requires SortedBy(s, key)
    ensures SortedBy(Insert(x, s, key), key)
  {
    if s == [] {
    } else if !Below(key(s[0]), key(x)) {
      forall j | 0 <= j < |s| ensures !Below(key(s[j]), key(x)) {
        if Below(key(s[j]), key(x)) {
          BelowTotal(key(s[0]), key(s[j]));
          if Below(key(s[0]), key(s[j])) {
            BelowTransitive(key(s[0]), key(s[j]), key(x));
          }
        }
      }
    } else {
      InsertKeepsSorted(x, s[1..], key);
      BelowAsymmetric(key(s[0]), key(x));
      var t := Insert(x, s[1..], key);
      InsertIsPermutation(x, s[1..], key);
      forall j | 0 <= j < |t| ensures !Below(key(t[j]), key(s[0])) {
        assert t[j] in multiset(t);
        assert t[j] == x || t[j] in s[1..];
      }
    }
  }

  lemma {:induction false} SortIsSorted<T>(s: seq<T>, key: T -> bytes)
    ensures SortedBy(SortBy(s, key), key)
  {
    if s != [] {
      SortIsSorted(s[1..], key);
      InsertKeepsSorted(s[0], SortBy(s[1..], key), key);
    }
  }

  /** The items with one key, in order. */
  function OfKey<T>(s: seq<T>, k: bytes, key: T -> bytes): seq<T> {
    if s == [] then [] else (if key(s[0]) == k then [s[0]] else []) + OfKey(s[1..], k, key)
  }

  lemma {:induction false} InsertIsStable<T>(x: T, s: seq<T>, k: bytes, key: T -> bytes)
    ensures OfKey(Insert(x, s, key), k, key) == OfKey([x] + s, k, key)
  {
    assert ([x] + s)[1..] == s;
    if s != [] && Below(key(s[0]), key(x)) {
      BelowIrreflexive(key(x));
      var t := Insert(x, s[1..], key);
      assert ([s[0]] + t)[1..] == t && ([x] + s[1..])[1..] == s[1..];
      InsertIsStable(x, s[1..], k, key);
      assert OfKey(Insert(x, s, key), k, key) == (if key(s[0]) == k then [s[0]] else []) + OfKey(t, k, key);
    }
  }

  /** Items with one key keep their order. */
  lemma {:induction false} SortIsStable<T>(s: seq<T>, k: bytes, key: T -> bytes)
    ensures OfKey(SortBy(s, key), k, key) == OfKey(s, k, key)
  {
    if s != [] {
      SortIsStable(s[1..], k, key);
      var t := SortBy(s[1..], key);
      InsertIsStable(s[0], t, k, key);
      assert ([s[0]] + t)[1..] == t;
    }
  }

  lemma SortKeepsMembers<T>(s: seq<T>, key: T -> bytes)
    ensures forall x :: x in SortBy(s, key) <==> x in s
  {
    SortIsPermutation(s, key);
    forall x ensures x in SortBy(s, key) <==> x in s {
      assert x in multiset(s) <==> x in multiset(SortBy(s, key));
    }
  }

  lemma {:induction false} SortKeepsDistinct<T>(s: seq<T>, key: T -> bytes)
    requires DistinctBy(s, key)
    ensures DistinctBy(SortBy(s, key), key)
  {
    if s != [] {
      SortKeepsDistinct(s[1..], key);
      SortIsPermutation(s[1..], key);
      var t := SortBy(s[1..], key);
      forall k | 0 <= k < |t| ensures key(t[k]) != key(s[0]) {
        assert t[k] in multiset(t);
        assert t[k] in s[1..];
      }
      InsertKeepsDistinct(s[0], t, key);
    }
  }

  lemma {:induction false} InsertKeepsDistinct<T>(x: T, s: seq<T>, key: T -> bytes)
    requires DistinctBy(s, key)
    requires forall k :: 0 <= k < |s| ==> key(s[k]) != key(x)
    ensures DistinctBy(Insert(x, s, key), key)
  {
    if s != [] && Below(key(s[0]), key(x)) {
      InsertKeepsDistinct(x, s[1..], key);
      var t := Insert(x, s[1..], key);
      InsertIsPermutation(x, s[1..], key);
      forall k | 0 <= k < |t| ensures key(t[k]) != key(s[0]) {
        assert t[k] in multiset(t);
        assert t[k] == x || t[k] in s[1..];
      }
    }
  }

  lemma SortedFirst<T>(s: seq<T>, x: T, key: T -> bytes)
    requires SortedBy(s, key) && x in s
    ensures !Below(key(x), key(s[0]))
  {
    BelowIrreflexive(key(x));
  }

  lemma SortedTail<T>(s: seq<T>, key: T -> bytes)
    requires s != []
    ensures SortedBy(s, key) ==> SortedBy(s[1..], key)
    ensures DistinctBy(s, key) ==> DistinctBy(s[1..], key)
    ensures multiset(s) == multiset{s[0]} + multiset(s[1..])
  {
    assert s == [s[0]] + s[1..];
  }

  lemma SortedHeadsAgree<T>(a: seq<T>, b: seq<T>, key: T -> bytes)
    requires a != [] && multiset(a) == multiset(b)
    requires SortedBy(a, key) && SortedBy(b, key) && DistinctBy(a, key)
    ensures b != [] && a[0] == b[0]
  {
    assert a[0] in multiset(b);
    assert b[0] in multiset(a);
    SortedFirst(a, b[0], key);
    SortedFirst(b, a[0], key);
    BelowTotal(key(a[0]), key(b[0]));
  }

  lemma SameTails<T>(a: seq<T>, b: seq<T>)
    requires a != [] && b != [] && a[0] == b[0]
    ensures multiset(a) == multiset(b) ==> multiset(a[1..]) == multiset(b[1..])
    ensures a[1..] == b[1..] ==> a == b
  {
    assert a == [a[0]] + a[1..] && b == [b[0]] + b[1..];
    assert multiset(a[1..]) == multiset(a) - multiset{a[0]};
    assert multiset(b[1..]) == multiset(b) - multiset{b[0]};
  }

  /** Sorted sequences over distinct keys are determined by their members. */
  lemma {:induction false} SortedUnique<T>(a: seq<T>, b: seq<T>, key: T -> bytes)
    requires multiset(a) == multiset(b)
    requires SortedBy(a, key) && SortedBy(b, key) && DistinctBy(a, key)
    ensures a == b
  {
    if a == [] {
      assert |multiset(b)| == 0;
    } else {
      SortedHeadsAgree(a, b, key);
      SameTails(a, b);
      SortedTail(a, key);
      SortedTail(b, key);
      SortedUnique(a[1..], b[1..], key);
    }
  }

  /** The order in which distinct keys were listed does not survive sorting. */
  lemma SortForgetsOrder<T>(a: seq<T>, b: seq<T>, key: T -> bytes)
    requires multiset(a) == multiset(b) && DistinctBy(a, key)
    ensures SortBy(a, key) == SortBy(b, key)
  {
    SortIsPermutation(a, key);
    SortIsPermutation(b, key);
    SortIsSorted(a, key);
    SortIsSorted(b, key);
    SortKeepsDistinct(a, key);
    SortedUnique(SortBy(a, key), SortBy(b, key), key);
  }

  lemma SortOfSorted<T>(s: seq<T>, key: T -> bytes)
    requires SortedBy(s, key) && DistinctBy(s, key)
    ensures SortBy(s, key) == s
  {
    SortIsPermutation(s, key);
    SortIsSorted(s, key);
    SortKeepsDistinct(s, key);
    SortedUnique(SortBy(s, key), s, key);
  }
}
