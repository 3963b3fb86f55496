/** Numbers as Python reads and prints them, in any base up to ten. */
module Numerals {
  import opened Outcome
  import opened ByteStrings

  predicate IsBlank(c: byte) {
    IsSpace(c) || 28 <= c <= 31
  }

  function DropSpaces(s: bytes): bytes {
    if s != [] && IsBlank(s[0]) then DropSpaces(s[1..]) else s
  }

  function TrimSpaces(s: bytes): bytes {
    if s != [] && IsBlank(s[|s| - 1]) then TrimSpaces(s[..|s| - 1]) else s
  }

  predicate IsDigit(base: nat, c: byte) {
    48 <= c < 48 + base
  }

  /** Digits with single underscores between them; `after` says that a digit was read last. */
  function Digits(base: nat, s: bytes, acc: nat, after: bool): Option<nat> {
    if s == [] then (if after then Some(acc) else None)
    else if IsDigit(base, s[0]) then Digits(base, s[1..], acc * base + (s[0] - 48), true)
    else if s[0] == 95 && after then Digits(base, s[1..], acc, false)
    else None
  }

  function Signed(negative: bool, r: Option<nat>): Option<int> {
    match r
    case None => None
    case Some(n) => Some(if negative then 0 - n as int else n)
  }

  function Unsigned(s: bytes): bytes {
    if s != [] && (s[0] == 45 || s[0] == 43) then s[1..] else s
  }

  predicate Negative(s: bytes) {
    s != [] && s[0] == 45
  }

  /** `int(s)` over ASCII: surrounding whitespace, a sign, digits with single underscores. */
  function DecimalValue(s: bytes): Option<int> {
    var t := TrimSpaces(DropSpaces(s));
    Signed(Negative(t), Digits(10, Unsigned(t), 0, false))
  }

  /** `int(s, 8)` on a word: an optional sign, an optional `0o` prefix, then digits. */
  function OctalValue(s: bytes): Option<int> {
    Signed(Negative(s), Digits(8, Unprefixed(Unsigned(s)), 0, false))
  }

  function Unprefixed(t: bytes): bytes {
    if |t| >= 2 && t[0] == 48 && (t[1] == 111 || t[1] == 79) then
      if |t| >= 3 && t[2] == 95 then t[3..] else t[2..]
    else t
  }

  // ---------- what is read ----------

  predicate IsNumeral(base: nat, t: bytes) {
    t != [] && forall c :: c in t ==> 48 <= c < 48 + base
  }

  function NumberOf(base: nat, t: bytes): int {
    if t == [] then 0 else NumberOf(base, t[..|t| - 1]) * base + (t[|t| - 1] as int - 48)
  }

  function Flat(groups: seq<bytes>): bytes {
    if groups == [] then [] else groups[0] + Flat(groups[1..])
  }

  /** `t` is groups of digits joined by underscores, and their digits make the number `n`. */
  predicate Reads(base: nat, t: bytes, n: int) {
    var groups := Split(t, 95);
    AllNumerals(base, groups) && n == NumberOf(base, Flat(groups))
  }

  predicate AllNumerals(base: nat, groups: seq<bytes>) {
    forall g :: g in groups ==> IsNumeral(base, g)
  }

  predicate Open(base: nat, groups: seq<bytes>, after: bool)
    requires groups != []
  {
    && (after || groups[0] != []) && (forall c :: c in groups[0] ==> 48 <= c < 48 + base)
    && AllNumerals(base, groups[1..])
  }

  lemma AllNumeralsStep(base: nat, groups: seq<bytes>)
    requires groups != []
    ensures AllNumerals(base, groups) <==> IsNumeral(base, groups[0]) && AllNumerals(base, groups[1..])
  {
    assert groups == [groups[0]] + groups[1..];
  }

  function Onward(base: nat, acc: int, t: bytes): int
    decreases |t|
  {
    if t == [] then acc else Onward(base, acc * base + (t[0] as int - 48), t[1..])
  }

  lemma {:induction false} OnwardLast(base: nat, acc: int, t: bytes, c: byte)
    ensures Onward(base, acc, t + [c]) == Onward(base, acc, t) * base + (c as int - 48)
    decreases |t|
  {
    if t == [] {
      assert ([] + [c])[1..] == [];
    } else {
      assert (t + [c])[1..] == t[1..] + [c];
      OnwardLast(base, acc * base + (t[0] as int - 48), t[1..], c);
    }
  }

  lemma {:induction false} OnwardIsNumber(base: nat, t: bytes)
    ensures Onward(base, 0, t) == NumberOf(base, t)
  {
    if t != [] {
      var n := |t| - 1;
      OnwardIsNumber(base, t[..n]);
      OnwardLast(base, 0, t[..n], t[n]);
      assert t == t[..n] + [t[n]];
    }
  }

  lemma OpenStep(base: nat, groups: seq<bytes>, c: byte, after: bool)
    requires groups != []
    ensures Open(base, [[c] + groups[0]] + groups[1..], after) <==> IsDigit(base, c) && Open(base, groups, true)
    ensures Open(base, [[]] + groups, after) <==> after && Open(base, groups, false)
  {
    var g := [c] + groups[0];
    assert ([g] + groups[1..])[1..] == groups[1..] && ([[]] + groups)[1..] == groups;
    assert g[0] in g && forall x :: x in g <==> x == c || x in groups[0];
    AllNumeralsStep(base, groups);
  }

  lemma FlatStep(groups: seq<bytes>, c: byte)
    requires groups != []
    ensures Flat([[c] + groups[0]] + groups[1..]) == [c] + Flat(groups) && Flat([[]] + groups) == Flat(groups)
  {
    assert ([[c] + groups[0]] + groups[1..])[1..] == groups[1..] && ([[]] + groups)[1..] == groups;
    assert ([c] + groups[0]) + Flat(groups[1..]) == [c] + (groups[0] + Flat(groups[1..]));
  }

  predicate ReadOnward(base: nat, r: Option<nat>, groups: seq<bytes>, acc: nat, after: bool)
    requires groups != []
  {
    && (r.Some? <==> Open(base, groups, after)) && (r.Some? ==> r.value == Onward(base, acc, Flat(groups)))
  }

  lemma ReadOnwardStep(base: nat, r: Option<nat>, rest: seq<bytes>, c: byte, acc: nat, after: bool)
    requires rest != []
    requires IsDigit(base, c) ==> ReadOnward(base, r, rest, acc * base + (c as int - 48), true)
    requires !IsDigit(base, c) ==> r == None
    ensures ReadOnward(base, r, [[c] + rest[0]] + rest[1..], acc, after)
  {
    OpenStep(base, rest, c, after);
    FlatStep(rest, c);
    assert ([c] + Flat(rest))[1..] == Flat(rest);
  }

  lemma {:induction false} DigitsAre(base: nat, s: bytes, acc: nat, after: bool)
    requires base <= 10
    ensures ReadOnward(base, Digits(base, s, acc, after), Split(s, 95), acc, after)
    decreases |s|
  {
    if s == [] {
    } else if s[0] != 95 {
      if IsDigit(base, s[0]) {
        DigitsAre(base, s[1..], acc * base + (s[0] as int - 48), true);
      }
      ReadOnwardStep(base, Digits(base, s, acc, after), Split(s[1..], 95), s[0], acc, after);
    } else {
      var rest := Split(s[1..], 95);
      OpenStep(base, rest, s[0], after);
      FlatStep(rest, s[0]);
      DigitsAre(base, s[1..], acc, false);
    }
  }

  /** Digits in groups joined by single underscores are read, as the number they make, and nothing else is. */
  lemma DigitsRead(base: nat, s: bytes, n: nat)
    requires base <= 10
    ensures Digits(base, s, 0, false) == Some(n) <==> Reads(base, s, n)
  {
    DigitsAre(base, s, 0, false);
    OnwardIsNumber(base, Flat(Split(s, 95)));
    AllNumeralsStep(base, Split(s, 95));
  }

  lemma {:induction false} DigitsOnly(base: nat, s: bytes, acc: nat, after: bool)
    requires Digits(base, s, acc, after).Some?
    ensures forall c :: c in s ==> c == 95 || IsDigit(base, c)
    ensures !after ==> s != [] && IsDigit(base, s[0])
    decreases |s|
  {
    if s != [] {
      if IsDigit(base, s[0]) {
        DigitsOnly(base, s[1..], acc * base + (s[0] as int - 48), true);
      } else {
        DigitsOnly(base, s[1..], acc, false);
      }
    }
  }

  lemma SignTexts()
    ensures Ascii("") == [] && Ascii("+") == [43] && Ascii("-") == [45]
    ensures Ascii("0o") == [48, 111] && Ascii("0O") == [48, 79]
    ensures Ascii("0o_") == [48, 111, 95] && Ascii("0O_") == [48, 79, 95]
  {
  }

  predicate SignedAs(sign: bytes, n: nat, v: int) {
    sign in [Ascii(""), Ascii("+"), Ascii("-")] && v == if sign == Ascii("-") then 0 - n as int else n
  }

  lemma SignOf(s: bytes, n: nat)
    ensures var sign := s[..|s| - |Unsigned(s)|];
            s == sign + Unsigned(s) && SignedAs(sign, n, if Negative(s) then 0 - n as int else n)
  {
    SignTexts();
    if |Unsigned(s)| < |s| {
      assert s[..1] == [s[0]];
    } else {
      assert s[..0] == [];
    }
  }

  lemma UnsignedOf(sign: bytes, body: bytes)
    requires sign in [Ascii(""), Ascii("+"), Ascii("-")] && body != [] && body[0] != 43 && body[0] != 45
    ensures Unsigned(sign + body) == body && (Negative(sign + body) <==> sign == Ascii("-"))
  {
    SignTexts();
    var s := sign + body;
    if sign == [] {
      assert s == body;
    } else {
      assert s[0] == sign[0] && s[1..] == body;
    }
  }

  predicate OctalForm(s: bytes, sign: bytes, prefix: bytes, t: bytes, n: nat, v: int) {
    && s == sign + (prefix + t) && SignedAs(sign, n, v) && Reads(8, t, n)
    && prefix in [Ascii(""), Ascii("0o"), Ascii("0O"), Ascii("0o_"), Ascii("0O_")]
  }

  lemma PrefixOf(t: bytes)
    ensures var u := Unprefixed(t);
            t == t[..|t| - |u|] + u
            && t[..|t| - |u|] in [Ascii(""), Ascii("0o"), Ascii("0O"), Ascii("0o_"), Ascii("0O_")]
  {
    SignTexts();
    var u := Unprefixed(t);
    if |u| + 2 == |t| {
      assert t[..2] == [t[0], t[1]];
    } else if |u| + 3 == |t| {
      assert t[..3] == [t[0], t[1], t[2]];
    } else {
      assert t[..0] == [];
    }
  }

  lemma UnprefixedOf(prefix: bytes, t: bytes)
    requires prefix in [Ascii(""), Ascii("0o"), Ascii("0O"), Ascii("0o_"), Ascii("0O_")]
    requires t != [] && IsDigit(8, t[0]) && forall c :: c in t ==> c == 95 || IsDigit(8, c)
    ensures Unprefixed(prefix + t) == t
  {
    SignTexts();
    var s := prefix + t;
    if prefix == [] {
      assert s == t;
      assert |t| > 1 ==> t[1] in t;
    } else {
      assert s[|prefix|..] == t;
    }
  }

  /** `int(s, 8)`: exactly an optional sign, an optional `0o` and digits in groups joined by underscores. */
  lemma OctalMeaning(s: bytes, v: int)
    ensures OctalValue(s) == Some(v) <==> exists sign, prefix, t, n :: OctalForm(s, sign, prefix, t, n, v)
  {
    if OctalValue(s) == Some(v) {
      OctalHasForm(s, v);
    }
    if sign, prefix, t, n :| OctalForm(s, sign, prefix, t, n, v) {
      OctalFormIsRead(s, sign, prefix, t, n, v);
    }
  }

  lemma OctalHasForm(s: bytes, v: int)
    requires OctalValue(s) == Some(v)
    ensures exists sign, prefix, t, n :: OctalForm(s, sign, prefix, t, n, v)
  {
    var body := Unsigned(s);
    var t := Unprefixed(body);
    var n := Digits(8, t, 0, false).value;
    DigitsRead(8, t, n);
    PrefixOf(body);
    SignOf(s, n);
    assert OctalForm(s, s[..|s| - |body|], body[..|body| - |t|], t, n, v);
  }

  lemma PrefixedStart(prefix: bytes, t: bytes)
    requires prefix in [Ascii(""), Ascii("0o"), Ascii("0O"), Ascii("0o_"), Ascii("0O_")]
    requires t != [] && IsDigit(8, t[0])
    ensures IsDigit(8, (prefix + t)[0])
  {
    SignTexts();
  }

  lemma OctalFormIsRead(s: bytes, sign: bytes, prefix: bytes, t: bytes, n: nat, v: int)
    requires OctalForm(s, sign, prefix, t, n, v)
    ensures OctalValue(s) == Some(v)
  {
    DigitsRead(8, t, n);
    DigitsOnly(8, t, 0, false);
    UnprefixedOf(prefix, t);
    PrefixedStart(prefix, t);
    UnsignedOf(sign, prefix + t);
  }

  predicate Blank(s: bytes) {
    forall c :: c in s ==> c == 32 || 9 <= c <= 13 || 28 <= c <= 31
  }

  predicate DecimalForm(s: bytes, a: bytes, sign: bytes, t: bytes, b: bytes, n: nat, v: int) {
    s == a + (sign + t) + b && Blank(a) && Blank(b) && SignedAs(sign, n, v) && Reads(10, t, n)
  }

  lemma {:induction false} DroppedIsBlank(s: bytes)
    ensures var t := DropSpaces(s); |t| <= |s| && s == s[..|s| - |t|] + t && Blank(s[..|s| - |t|])
  {
    var t := DropSpaces(s);
    if s != [] && IsBlank(s[0]) {
      DroppedIsBlank(s[1..]);
      var rest := s[1..][..|s| - 1 - |t|];
      assert s == [s[0]] + s[1..] && s[..|s| - |t|] == [s[0]] + rest;
    } else {
      assert s[..0] == [];
    }
  }

  lemma {:induction false} TrimmedIsBlank(s: bytes)
    ensures var t := TrimSpaces(s); |t| <= |s| && s == t + s[|t|..] && Blank(s[|t|..])
  {
    var t, n := TrimSpaces(s), |s| - 1;
    if s != [] && IsBlank(s[n]) {
      TrimmedIsBlank(s[..n]);
      assert s == s[..n] + [s[n]] && s[|t|..] == s[..n][|t|..] + [s[n]];
    } else {
      assert s[|s|..] == [];
    }
  }

  lemma {:induction false} DropBlank(a: bytes, t: bytes)
    requires Blank(a) && t != [] && !IsBlank(t[0])
    ensures DropSpaces(a + t) == t
  {
    if a == [] {
      assert a + t == t;
    } else {
      assert a[0] in a;
      assert (a + t)[1..] == a[1..] + t && forall c :: c in a[1..] ==> c in a;
      DropBlank(a[1..], t);
    }
  }

  lemma {:induction false} TrimBlank(t: bytes, b: bytes)
    requires Blank(b) && t != [] && !IsBlank(t[|t| - 1])
    ensures TrimSpaces(t + b) == t
  {
    var n := |b| - 1;
    if b == [] {
      assert t + b == t;
    } else {
      assert b[n] in b;
      assert (t + b)[..|t + b| - 1] == t + b[..n] && forall c :: c in b[..n] ==> c in b;
      TrimBlank(t, b[..n]);
    }
  }

  /** `int(s)`: exactly whitespace, an optional sign, digits in groups joined by underscores, whitespace. */
  lemma DecimalMeaning(s: bytes, v: int)
    ensures DecimalValue(s) == Some(v) <==> exists a, sign, t, b, n :: DecimalForm(s, a, sign, t, b, n, v)
  {
    if DecimalValue(s) == Some(v) {
      DecimalHasForm(s, v);
    }
    if a, sign, t, b, n :| DecimalForm(s, a, sign, t, b, n, v) {
      DecimalFormIsRead(s, a, sign, t, b, n, v);
    }
  }

  lemma DecimalHasForm(s: bytes, v: int)
    requires DecimalValue(s) == Some(v)
    ensures exists a, sign, t, b, n :: DecimalForm(s, a, sign, t, b, n, v)
  {
    DroppedIsBlank(s);
    TrimmedIsBlank(DropSpaces(s));
    var body := TrimSpaces(DropSpaces(s));
    var a, b := s[..|s| - |DropSpaces(s)|], DropSpaces(s)[|body|..];
    Associative(a, body, b);
    BodyHasForm(s, a, body, b, v);
  }

  lemma BodyHasForm(s: bytes, a: bytes, body: bytes, b: bytes, v: int)
    requires s == a + body + b && Blank(a) && Blank(b)
    requires Signed(Negative(body), Digits(10, Unsigned(body), 0, false)) == Some(v)
    ensures exists sign, t, n :: DecimalForm(s, a, sign, t, b, n, v)
  {
    var t := Unsigned(body);
    var n := Digits(10, t, 0, false).value;
    DigitsRead(10, t, n);
    SignOf(body, n);
    assert DecimalForm(s, a, body[..|body| - |t|], t, b, n, v);
  }

  lemma DecimalFormIsRead(s: bytes, a: bytes, sign: bytes, t: bytes, b: bytes, n: nat, v: int)
    requires DecimalForm(s, a, sign, t, b, n, v)
    ensures DecimalValue(s) == Some(v)
  {
    SignTexts();
    DigitsRead(10, t, n);
    DigitsOnly(10, t, 0, false);
    var body := sign + t;
    assert t[|t| - 1] in t && body[|body| - 1] == t[|t| - 1];
    assert body[0] == if sign == [] then t[0] else sign[0];
    assert s == a + (body + b);
    DropBlank(a, body + b);
    TrimBlank(body, b);
    UnsignedOf(sign, t);
  }

  // ---------- what is printed ----------

  function DecimalText(n: nat): (t: bytes)
    ensures t != [] && forall i :: 0 <= i < |t| ==> 48 <= t[i] <= 57
  {
    if n < 10 then [48 + n] else DecimalText(n / 10) + [48 + n % 10]
  }

  /** The printed number is read back, has only digits, and no zero in front unless it is 0. */
  lemma {:induction false} DecimalTextIs(n: nat)
    ensures NumberOf(10, DecimalText(n)) == n && (n > 0 ==> DecimalText(n)[0] != 48)
    ensures n == 0 ==> DecimalText(n) == Ascii("0")
  {
    if n >= 10 {
      DecimalTextIs(n / 10);
      var t := DecimalText(n);
      assert t[..|t| - 1] == DecimalText(n / 10);
    } else {
      assert [48 + n][..0] == [];
    }
  }

  lemma PlainNumeral(base: nat, t: bytes, n: nat)
    requires base <= 10 && IsNumeral(base, t) && n == NumberOf(base, t)
    ensures Reads(base, t, n)
  {
    SplitSingle(t, 95);
    assert t + [] == t;
    assert Flat([t]) == t;
  }

  lemma OctalNumeral(t: bytes, n: nat)
    requires IsNumeral(8, t) && n == NumberOf(8, t)
    ensures OctalValue(t) == Some(n)
  {
    PlainNumeral(8, t, n);
    SignTexts();
    assert t == [] + ([] + t);
    assert OctalForm(t, [], [], t, n, n);
    OctalMeaning(t, n);
  }

  lemma DecimalRoundTrip(n: nat)
    ensures DecimalValue(DecimalText(n)) == Some(n)
  {
    DecimalTextIs(n);
    var t := DecimalText(n);
    PlainNumeral(10, t, n);
    SignTexts();
    assert t == [] + ([] + t) + [];
    assert DecimalForm(t, [], [], t, [], n, n);
    DecimalMeaning(t, n);
  }
}
