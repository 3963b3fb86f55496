/** Which calls share a signature, and what that hides (tools/fail_site_inventory.py
    `_literal_text`, `_call_signature`). */
module FailSignatures {
  import opened ByteStrings
  import opened FailSites

  // ---------- when two signatures are the same ----------

  /** The literal text of each argument. */
  function Texts(args: seq<Expr>): seq<bytes> {
    if args == [] then [] else [LiteralText(args[0])] + Texts(args[1..])
  }

  /** The literal texts cut at their zero bytes; a call without arguments has one empty piece. */
  function Pieces(args: seq<Expr>): (pieces: seq<bytes>)
    ensures pieces != []
  {
    if args == [] then [[]]
    else if |args| == 1 then Split(LiteralText(args[0]), 0)
    else Split(LiteralText(args[0]), 0) + Pieces(args[1..])
  }

  lemma {:induction false} JoinSplit(s: bytes, sep: byte)
    ensures Join(Split(s, sep), sep) == s
  {
    if s != [] {
      JoinSplit(s[1..], sep);
      var rest := Split(s[1..], sep);
      assert s == [s[0]] + s[1..];
      if s[0] == sep {
        assert ([[]] + rest)[1..] == rest;
        assert [] + [sep] + s[1..] == s;
      } else if |rest| > 1 {
        var longer := [[s[0]] + rest[0]] + rest[1..];
        assert longer[1..] == rest[1..];
        assert ([s[0]] + rest[0]) + [sep] + Join(rest[1..], sep) == [s[0]] + (rest[0] + [sep] + Join(rest[1..], sep));
      }
    }
  }

  lemma Regroup(p: bytes, j: bytes, b: bytes, sep: byte)
    ensures (p + [sep] + j) + [sep] + b == p + [sep] + (j + [sep] + b)
  {
  }

  lemma OnePart(parts: seq<bytes>, b: bytes, sep: byte)
    requires |parts| == 1 && sep !in parts[0]
    ensures Split(Join(parts, sep) + [sep] + b, sep) == parts + Split(b, sep)
  {
    assert parts == [parts[0]];
    SplitPrepend(parts[0], b, sep);
  }

  lemma MoreParts(p: bytes, j: bytes, rest: seq<bytes>, b: bytes, sep: byte)
    requires sep !in p && Split(j + [sep] + b, sep) == rest + Split(b, sep)
    ensures Split((p + [sep] + j) + [sep] + b, sep) == ([p] + rest) + Split(b, sep)
  {
    Regroup(p, j, b, sep);
    SplitPrepend(p, j + [sep] + b, sep);
    assert [p] + (rest + Split(b, sep)) == ([p] + rest) + Split(b, sep);
  }

  lemma {:induction false} SplitAfterJoin(parts: seq<bytes>, b: bytes, sep: byte)
    requires |parts| > 0 && forall p :: p in parts ==> sep !in p
    ensures Split(Join(parts, sep) + [sep] + b, sep) == parts + Split(b, sep)
  {
    assert parts[0] in parts;
    if |parts| == 1 {
      OnePart(parts, b, sep);
    } else {
      var p, rest := parts[0], parts[1..];
      assert parts == [p] + rest;
      SplitAfterJoin(rest, b, sep);
      MoreParts(p, Join(rest, sep), rest, b, sep);
    }
  }

  lemma SplitConcat(a: bytes, b: bytes, sep: byte)
    ensures Split(a + [sep] + b, sep) == Split(a, sep) + Split(b, sep)
  {
    JoinSplit(a, sep);
    SplitAfterJoin(Split(a, sep), b, sep);
  }

  lemma {:induction false} SignatureSplits(args: seq<Expr>)
    ensures Split(Signature(args), 0) == Pieces(args)
  {
    if |args| > 1 {
      SignatureSplits(args[1..]);
      SplitConcat(LiteralText(args[0]), Signature(args[1..]), 0);
    }
  }

  /** Two calls share a signature exactly when their literal texts, cut at zero bytes, are the same. */
  lemma SameSignatureIff(a: seq<Expr>, b: seq<Expr>)
    ensures Signature(a) == Signature(b) <==> Pieces(a) == Pieces(b)
  {
    SignatureSplits(a);
    SignatureSplits(b);
    JoinSplit(Signature(a), 0);
    JoinSplit(Signature(b), 0);
  }

  predicate ZeroFree(args: seq<Expr>) {
    forall t :: t in Texts(args) ==> 0 !in t
  }

  lemma {:induction false} PiecesAreTexts(args: seq<Expr>)
    requires args != [] && ZeroFree(args)
    ensures Pieces(args) == Texts(args)
  {
    var text := LiteralText(args[0]);
    assert text in Texts(args);
    SplitSingle(text, 0);
    if |args| > 1 {
      assert forall t :: t in Texts(args[1..]) ==> t in Texts(args);
      PiecesAreTexts(args[1..]);
    } else {
      assert args[1..] == [];
    }
  }

  /** For calls with arguments and no zero byte in a literal: the same signature exactly when the
      literal texts agree argument by argument. */
  lemma SameTextsIff(a: seq<Expr>, b: seq<Expr>)
    requires a != [] && b != [] && ZeroFree(a) && ZeroFree(b)
    ensures Signature(a) == Signature(b) <==> Texts(a) == Texts(b)
  {
    SameSignatureIff(a, b);
    PiecesAreTexts(a);
    PiecesAreTexts(b);
  }

  lemma {:induction false} TextCount(args: seq<Expr>)
    ensures |Texts(args)| == |args|
  {
    if args != [] {
      TextCount(args[1..]);
    }
  }

  /** A zero byte in a literal is read as the boundary between two arguments, so splitting a
      literal there is not seen. */
  lemma ZeroByteIsABoundary(s: bytes, t: bytes)
    ensures Signature([Literal(s), Literal(t)]) == Signature([Literal(s + [0] + t)])
    ensures Texts([Literal(s), Literal(t)]) != Texts([Literal(s + [0] + t)])
  {
    var two, one := [Literal(s), Literal(t)], [Literal(s + [0] + t)];
    assert two[1..] == [Literal(t)] && one[1..] == [];
    assert [Literal(t)][1..] == [];
    TextCount(two);
    TextCount(one);
  }

  // ---------- computed data ----------

  /** The tree with the code of every computed part of a `fail` argument blanked out. */
  function Blank(e: Expr): Expr {
    match e
    case Literal(_) => e
    case Joined(parts) => Joined(BlankAll(parts))
    case Sum(left, right) => Sum(Blank(left), Blank(right))
    case Computed(_) => Computed([])
  }

  function BlankAll(es: seq<Expr>): seq<Expr> {
    if es == [] then [] else [Blank(es[0])] + BlankAll(es[1..])
  }

  function BlankNode(n: Node): Node {
    Node(if n.kind.FailCall? then FailCall(BlankAll(n.kind.args)) else n.kind, BlankNodes(n.children))
  }

  function BlankNodes(ns: seq<Node>): seq<Node> {
    if ns == [] then [] else [BlankNode(ns[0])] + BlankNodes(ns[1..])
  }

  lemma {:induction false} BlankKeepsText(e: Expr)
    ensures LiteralText(Blank(e)) == LiteralText(e)
  {
    match e
    case Joined(parts) => BlankKeepsTexts(parts);
    case Sum(left, right) => BlankKeepsText(left); BlankKeepsText(right);
    case _ =>
  }

  lemma {:induction false} BlankKeepsTexts(es: seq<Expr>)
    ensures LiteralTexts(BlankAll(es)) == LiteralTexts(es)
  {
    if es != [] {
      BlankKeepsText(es[0]);
      BlankKeepsTexts(es[1..]);
      assert BlankAll(es)[1..] == BlankAll(es[1..]);
    }
  }

  lemma {:induction false} BlankKeepsSignature(args: seq<Expr>)
    ensures |BlankAll(args)| == |args| && Signature(BlankAll(args)) == Signature(args)
  {
    if args != [] {
      BlankKeepsText(args[0]);
      BlankKeepsSignature(args[1..]);
      assert BlankAll(args)[1..] == BlankAll(args[1..]);
    }
  }

  lemma {:induction false} BlankKeepsPairs(n: Node, name: bytes)
    ensures Pairs(BlankNode(n), name) == Pairs(n, name)
  {
    if n.kind.FailCall? {
      BlankKeepsSignature(n.kind.args);
    }
    BlankKeepsAllPairs(n.children, name);
  }

  lemma {:induction false} BlankKeepsAllPairs(ns: seq<Node>, name: bytes)
    ensures PairsAll(BlankNodes(ns), name) == PairsAll(ns, name)
  {
    if ns != [] {
      BlankKeepsPairs(ns[0], Extend(name, ns[0].kind));
      BlankKeepsAllPairs(ns[1..], name);
      assert BlankNodes(ns)[1..] == BlankNodes(ns[1..]);
    }
  }

  /** A change confined to computed data, anywhere in the validator, leaves the whole inventory as
      it was: the same messages over other data are the same sites. */
  lemma ComputedDataIsInvisible(hash: bytes -> bytes, a: Node, b: Node)
    requires BlankNode(a) == BlankNode(b)
    ensures Inventory(hash, Pairs(a, [])) == Inventory(hash, Pairs(b, []))
  {
    BlankKeepsPairs(a, []);
    BlankKeepsPairs(b, []);
  }

  /** And such changes exist: one message over two different data. */
  lemma SameMessageOtherData(text: bytes, code: bytes, other: bytes)
    requires code != other
    ensures var a, b := Node(FailCall([Literal(text), Computed(code)]), []), Node(FailCall([Literal(text), Computed(other)]), []);
            a != b && BlankNode(a) == BlankNode(b)
  {
    BlankMessage(text, code);
    BlankMessage(text, other);
    assert [Literal(text), Computed(code)][1] != [Literal(text), Computed(other)][1];
  }

  lemma BlankMessage(text: bytes, code: bytes)
    ensures BlankAll([Literal(text), Computed(code)]) == [Literal(text), Computed([])]
  {
    var args := [Literal(text), Computed(code)];
    assert args[1..] == [Computed(code)] && args[1..][1..] == [];
    assert BlankAll(args[1..][1..]) == [];
    assert BlankAll(args[1..]) == [Computed([])];
  }
}
