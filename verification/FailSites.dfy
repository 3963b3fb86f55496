/** The validator's fail surface by identity (tools/fail_site_inventory.py): qualified names,
    signatures, ordinals, and the inventory they give. */
module FailSites {
  import opened Outcome
  import opened ByteStrings
  import opened Numerals

  /** An argument: a literal, an f-string, a sum, or anything computed, with the code that
      computes it. */
  datatype Expr = Literal(text: bytes) | Joined(parts: seq<Expr>) | Sum(left: Expr, right: Expr) | Computed(code: bytes)

  /** A function or class, a `fail(...)` call, or any other node. */
  datatype Kind = Scope(name: bytes) | FailCall(args: seq<Expr>) | Plain

  datatype Node = Node(kind: Kind, children: seq<Node>)

  /** What names a site but for its ordinal. */
  datatype Pair = Pair(qualname: bytes, signature: bytes)

  datatype Key = Key(pair: Pair, ordinal: nat)

  const MODULE: bytes := [60, 109, 111, 100, 117, 108, 101, 62]

  /** `_literal_text`. */
  function LiteralText(e: Expr): bytes {
    match e
    case Literal(text) => text
    case Joined(parts) => LiteralTexts(parts)
    case Sum(left, right) => LiteralText(left) + LiteralText(right)
    case Computed(_) => []
  }

  function LiteralTexts(parts: seq<Expr>): bytes {
    if parts == [] then [] else LiteralText(parts[0]) + LiteralTexts(parts[1..])
  }

  /** `_call_signature`. */
  function Signature(args: seq<Expr>): bytes {
    if args == [] then []
    else if |args| == 1 then LiteralText(args[0])
    else LiteralText(args[0]) + [0] + Signature(args[1..])
  }

  /** The dotted name inside a child of a scope called `prefix`. */
  function Extend(prefix: bytes, kind: Kind): bytes {
    if kind.Scope? then (if prefix == [] then kind.name else prefix + [46] + kind.name) else prefix
  }

  function OwnPairs(kind: Kind, name: bytes): seq<Pair> {
    if kind.FailCall? then [Pair(if name == [] then MODULE else name, Signature(kind.args))] else []
  }

  /** The sites below a node called `name`, as the tree is written. */
  function Pairs(n: Node, name: bytes): seq<Pair> {
    OwnPairs(n.kind, name) + PairsAll(n.children, name)
  }

  function PairsAll(ns: seq<Node>, name: bytes): seq<Pair> {
    if ns == [] then [] else Pairs(ns[0], Extend(name, ns[0].kind)) + PairsAll(ns[1..], name)
  }

  // ---------- ordinals ----------

  /** The nth identical pair gets ordinal n. */
  function Numbered(pairs: seq<Pair>): seq<Key> {
    if pairs == [] then []
    else
      var front, last := pairs[..|pairs| - 1], pairs[|pairs| - 1];
      Numbered(front) + [Key(last, multiset(front)[last])]
  }

  lemma {:induction false} NumberedMeaning(pairs: seq<Pair>)
    ensures |Numbered(pairs)| == |pairs|
    ensures forall k :: k in Numbered(pairs) <==> k.ordinal < multiset(pairs)[k.pair]
    ensures forall i, j :: 0 <= i < j < |pairs| ==> Numbered(pairs)[i] != Numbered(pairs)[j]
  {
    if pairs != [] {
      var front, last := pairs[..|pairs| - 1], pairs[|pairs| - 1];
      assert pairs == front + [last];
      NumberedMeaning(front);
      var key := Key(last, multiset(front)[last]);
      assert key !in Numbered(front);
      forall k ensures k in Numbered(pairs) <==> k.ordinal < multiset(pairs)[k.pair] {
        assert k in Numbered(pairs) <==> k in Numbered(front) || k == key;
      }
    }
  }

  /** The keys of two sources are the same exactly when their pairs are, repeats counted. */
  lemma SameKeysIff(a: seq<Pair>, b: seq<Pair>)
    ensures (forall k :: k in Numbered(a) <==> k in Numbered(b)) <==> multiset(a) == multiset(b)
  {
    NumberedMeaning(a);
    NumberedMeaning(b);
    if forall k :: k in Numbered(a) <==> k in Numbered(b) {
      forall p ensures multiset(a)[p] == multiset(b)[p] {
        var m, n := multiset(a)[p], multiset(b)[p];
        assert Key(p, m) !in Numbered(a) && Key(p, n) !in Numbered(b);
        assert Key(p, m) in Numbered(a) <==> Key(p, m) in Numbered(b);
        assert Key(p, n) in Numbered(a) <==> Key(p, n) in Numbered(b);
      }
    }
  }

  // ---------- site ids ----------

  /** What is hashed: qualified name, signature and ordinal between zero bytes. */
  function Preimage(k: Key): bytes {
    k.pair.qualname + [0] + k.pair.signature + [0] + DecimalText(k.ordinal)
  }

  function SiteId(hash: bytes -> bytes, k: Key): bytes { hash(Preimage(k)) }

  ghost predicate Ideal(hash: bytes -> bytes) {
    forall a, b :: hash(a) == hash(b) ==> a == b
  }

  /** Names are identifiers: they hold no zero byte. */
  predicate Named(p: Pair) { 0 !in p.qualname }

  predicate AllNamed(pairs: seq<Pair>) {
    forall p :: p in pairs ==> Named(p)
  }

  /** The zero bytes of a signature never make two sites share an id. */
  lemma SiteIdIsInjective(hash: bytes -> bytes, j: Key, k: Key)
    requires Ideal(hash) && Named(j.pair) && Named(k.pair) && SiteId(hash, j) == SiteId(hash, k)
    ensures j == k
  {
    assert Preimage(j) == Preimage(k);
    var a, b := j.pair.qualname + [0] + j.pair.signature, k.pair.qualname + [0] + k.pair.signature;
    LastZero(a, DecimalText(j.ordinal), b, DecimalText(k.ordinal));
    DecimalRoundTrip(j.ordinal);
    DecimalRoundTrip(k.ordinal);
    FirstZero(j.pair.qualname, j.pair.signature, k.pair.qualname, k.pair.signature);
  }

  // ---------- the inventory ----------

  function IdOf(hash: bytes -> bytes): Key -> bytes { k => SiteId(hash, k) }

  /** The sites in identity order. */
  function Inventory(hash: bytes -> bytes, pairs: seq<Pair>): seq<Key> {
    SortBy(Numbered(pairs), IdOf(hash))
  }

  lemma KeysAreNamed(pairs: seq<Pair>, k: Key)
    requires AllNamed(pairs) && k in Numbered(pairs)
    ensures Named(k.pair)
  {
    NumberedMeaning(pairs);
    assert k.pair in multiset(pairs);
  }

  lemma IdsAreDistinct(hash: bytes -> bytes, pairs: seq<Pair>)
    requires Ideal(hash) && AllNamed(pairs)
    ensures DistinctBy(Numbered(pairs), IdOf(hash))
  {
    var keys := Numbered(pairs);
    NumberedMeaning(pairs);
    forall i, j | 0 <= i < j < |keys| ensures IdOf(hash)(keys[i]) != IdOf(hash)(keys[j]) {
      KeysAreNamed(pairs, keys[i]);
      KeysAreNamed(pairs, keys[j]);
      if SiteId(hash, keys[i]) == SiteId(hash, keys[j]) {
        SiteIdIsInjective(hash, keys[i], keys[j]);
      }
    }
  }

  lemma DistinctCounts<T>(s: seq<T>, x: T)
    requires forall i, j :: 0 <= i < j < |s| ==> s[i] != s[j]
    ensures multiset(s)[x] == if x in s then 1 else 0
  {
    if s != [] {
      var front, last := s[..|s| - 1], s[|s| - 1];
      assert s == front + [last];
      DistinctCounts(front, x);
      assert x in s <==> x in front || x == last;
    }
  }

  /** The inventory, order included, depends only on the pairs and how often each occurs. */
  lemma InventoryForgetsOrder(hash: bytes -> bytes, a: seq<Pair>, b: seq<Pair>)
    requires Ideal(hash) && AllNamed(a) && multiset(a) == multiset(b)
    ensures Inventory(hash, a) == Inventory(hash, b)
  {
    SameKeysIff(a, b);
    NumberedMeaning(a);
    NumberedMeaning(b);
    forall k ensures multiset(Numbered(a))[k] == multiset(Numbered(b))[k] {
      DistinctCounts(Numbered(a), k);
      DistinctCounts(Numbered(b), k);
    }
    assert multiset(Numbered(a)) == multiset(Numbered(b));
    IdsAreDistinct(hash, a);
    SortForgetsOrder(Numbered(a), Numbered(b), IdOf(hash));
  }

  // ---------- source order ----------

  /** The same tree but for the order of siblings, at every depth. */
  ghost predicate Shuffled(a: Node, b: Node) {
    a.kind == b.kind && exists cs: seq<Node> :: multiset(cs) == multiset(b.children) && ShuffledAll(a.children, cs)
  }

  ghost predicate ShuffledAll(xs: seq<Node>, ys: seq<Node>) {
    |xs| == |ys| && (xs != [] ==> Shuffled(xs[0], ys[0]) && ShuffledAll(xs[1..], ys[1..]))
  }

  lemma {:induction false} SiblingOrder(xs: seq<Node>, ys: seq<Node>, name: bytes)
    requires multiset(xs) == multiset(ys)
    ensures multiset(PairsAll(xs, name)) == multiset(PairsAll(ys, name))
    decreases |xs|
  {
    if xs == [] {
      assert |multiset(ys)| == 0;
    } else {
      assert xs[0] in multiset(xs);
      var rest := TakeOut(ys, xs[0], name);
      var tail := TakeFirst(xs, name);
      SiblingOrder(tail, rest, name);
    }
  }

  lemma TakeFirst(xs: seq<Node>, name: bytes) returns (tail: seq<Node>)
    requires xs != []
    ensures |tail| < |xs| && multiset(tail) == multiset(xs) - multiset{xs[0]}
    ensures multiset(PairsAll(xs, name)) == multiset(Pairs(xs[0], Extend(name, xs[0].kind))) + multiset(PairsAll(tail, name))
  {
    tail := xs[1..];
    assert xs == [xs[0]] + tail;
  }

  lemma TakeOut(ys: seq<Node>, y: Node, name: bytes) returns (rest: seq<Node>)
    requires y in multiset(ys)
    ensures multiset(rest) == multiset(ys) - multiset{y}
    ensures multiset(PairsAll(ys, name)) == multiset(Pairs(y, Extend(name, y.kind))) + multiset(PairsAll(rest, name))
  {
    var i :| 0 <= i < |ys| && ys[i] == y;
    var front, one, back := ys[..i], [y], ys[i + 1..];
    rest := front + back;
    assert ys == front + (one + back);
    PairsAllAppend(front, one + back, name);
    PairsAllAppend(one, back, name);
    PairsAllAppend(front, back, name);
    OnlyOne(y, name);
  }

  lemma OnlyOne(n: Node, name: bytes)
    ensures PairsAll([n], name) == Pairs(n, Extend(name, n.kind))
  {
    assert [n][1..] == [];
  }

  lemma {:induction false} PairsAllAppend(xs: seq<Node>, ys: seq<Node>, name: bytes)
    ensures PairsAll(xs + ys, name) == PairsAll(xs, name) + PairsAll(ys, name)
  {
    if xs == [] {
      assert xs + ys == ys;
    } else {
      assert (xs + ys)[0] == xs[0] && (xs + ys)[1..] == xs[1..] + ys;
      PairsAllAppend(xs[1..], ys, name);
    }
  }

  lemma {:induction false} ShuffleKeepsPairs(a: Node, b: Node, name: bytes)
    requires Shuffled(a, b)
    ensures multiset(Pairs(a, name)) == multiset(Pairs(b, name))
  {
    var cs: seq<Node> :| multiset(cs) == multiset(b.children) && ShuffledAll(a.children, cs);
    ShuffleAllKeepsPairs(a.children, cs, name);
    SiblingOrder(cs, b.children, name);
  }

  lemma {:induction false} ShuffleAllKeepsPairs(xs: seq<Node>, ys: seq<Node>, name: bytes)
    requires ShuffledAll(xs, ys)
    ensures multiset(PairsAll(xs, name)) == multiset(PairsAll(ys, name))
  {
    if xs != [] {
      ShuffleKeepsPairs(xs[0], ys[0], Extend(name, xs[0].kind));
      ShuffleAllKeepsPairs(xs[1..], ys[1..], name);
    }
  }

  predicate PlainNames(n: Node) {
    (n.kind.Scope? ==> 0 !in n.kind.name) && PlainNamesAll(n.children)
  }

  predicate PlainNamesAll(ns: seq<Node>) {
    ns == [] || (PlainNames(ns[0]) && PlainNamesAll(ns[1..]))
  }

  lemma {:induction false} PairsAreNamed(n: Node, name: bytes)
    requires PlainNames(n) && 0 !in name
    ensures AllNamed(Pairs(n, name))
  {
    PairsAllAreNamed(n.children, name);
  }

  lemma {:induction false} PairsAllAreNamed(ns: seq<Node>, name: bytes)
    requires PlainNamesAll(ns) && 0 !in name
    ensures AllNamed(PairsAll(ns, name))
  {
    if ns != [] {
      PairsAreNamed(ns[0], Extend(name, ns[0].kind));
      PairsAllAreNamed(ns[1..], name);
    }
  }

  /** Moving definitions and statements about among their siblings changes nothing. */
  lemma SourceOrderIsForgotten(hash: bytes -> bytes, a: Node, b: Node)
    requires Ideal(hash) && PlainNames(a) && Shuffled(a, b)
    ensures Inventory(hash, Pairs(a, [])) == Inventory(hash, Pairs(b, []))
  {
    ShuffleKeepsPairs(a, b, []);
    PairsAreNamed(a, []);
    InventoryForgetsOrder(hash, Pairs(a, []), Pairs(b, []));
  }
}
