/** Names and texts of fail sites read off the tree: the literals of an argument, the scopes around
    a call, the bytes hashed for a site (tools/fail_site_inventory.py). */
module FailMeaning {
  import opened Outcome
  import opened ByteStrings
  import opened Numerals
  import opened FailSites

  // ---------- literal text ----------

  /** The string literals of an expression, from left to right. */
  function Literals(e: Expr): seq<bytes> {
    match e
    case Literal(text) => [text]
    case Joined(parts) => LiteralsAll(parts)
    case Sum(left, right) => Literals(left) + Literals(right)
    case Computed(_) => []
  }

  function LiteralsAll(parts: seq<Expr>): seq<bytes> {
    if parts == [] then [] else Literals(parts[0]) + LiteralsAll(parts[1..])
  }

  lemma {:induction false} FlatConcat(a: seq<bytes>, b: seq<bytes>)
    ensures Flat(a + b) == Flat(a) + Flat(b)
  {
    if a == [] {
      assert a + b == b;
    } else {
      assert (a + b)[0] == a[0] && (a + b)[1..] == a[1..] + b;
      FlatConcat(a[1..], b);
    }
  }

  /** The literal text of an expression is its string literals in order, whatever is nested in what. */
  lemma {:induction false} TextOfLiterals(e: Expr)
    ensures LiteralText(e) == Flat(Literals(e))
  {
    match e
    case Literal(text) => assert Flat([text]) == text + Flat([]);
    case Joined(parts) => TextsOfLiterals(parts);
    case Sum(left, right) =>
      TextOfLiterals(left);
      TextOfLiterals(right);
      FlatConcat(Literals(left), Literals(right));
    case Computed(_) =>
  }

  lemma {:induction false} TextsOfLiterals(parts: seq<Expr>)
    ensures LiteralTexts(parts) == Flat(LiteralsAll(parts))
  {
    if parts != [] {
      TextOfLiterals(parts[0]);
      TextsOfLiterals(parts[1..]);
      FlatConcat(Literals(parts[0]), LiteralsAll(parts[1..]));
    }
  }

  function Texts(args: seq<Expr>): seq<bytes> {
    seq(|args|, i requires 0 <= i < |args| => LiteralText(args[i]))
  }

  /** The signature is the arguments' texts with a zero byte between any two. */
  lemma {:induction false} SignatureIsJoin(args: seq<Expr>)
    ensures Signature(args) == if args == [] then [] else Join(Texts(args), 0)
  {
    if args != [] {
      SignatureIsJoin(args[1..]);
      assert Texts(args)[1..] == Texts(args[1..]);
    }
  }

  // ---------- qualified names ----------

  /** `path` leads from `n` down to a child, a child of that, and so on. */
  predicate IsPath(n: Node, path: seq<nat>)
    decreases |path|
  {
    path == [] || (path[0] < |n.children| && IsPath(n.children[path[0]], path[1..]))
  }

  function At(n: Node, path: seq<nat>): Node
    requires IsPath(n, path)
    decreases |path|
  {
    if path == [] then n else At(n.children[path[0]], path[1..])
  }

  /** The names of the functions and classes on the way, the last one included. */
  function ScopesOn(n: Node, path: seq<nat>): seq<bytes>
    requires IsPath(n, path)
    decreases |path|
  {
    if path == [] then []
    else
      var child := n.children[path[0]];
      (if child.kind.Scope? then [child.kind.name] else []) + ScopesOn(child, path[1..])
  }

  /** Identifiers are not empty. */
  ghost predicate NamedScopes(n: Node) {
    forall path: seq<nat> :: IsPath(n, path) && At(n, path).kind.Scope? ==> At(n, path).kind.name != []
  }

  lemma NamedChild(n: Node, i: nat)
    requires NamedScopes(n) && i < |n.children|
    ensures NamedScopes(n.children[i])
    ensures n.children[i].kind.Scope? ==> n.children[i].kind.name != []
  {
    var child := n.children[i];
    forall path: seq<nat> | IsPath(child, path) && At(child, path).kind.Scope? ensures At(child, path).kind.name != [] {
      assert ([i] + path)[1..] == path;
      assert IsPath(n, [i] + path) && At(n, [i] + path) == At(child, path);
    }
    assert IsPath(child, []) && At(child, []) == child;
  }

  /** Names hold no zero byte, anywhere in the tree. */
  ghost predicate PlainEverywhere(n: Node) {
    forall path: seq<nat> :: IsPath(n, path) && At(n, path).kind.Scope? ==> 0 !in At(n, path).kind.name
  }

  lemma {:induction false} PlainNamesIff(n: Node)
    ensures PlainNames(n) <==> PlainEverywhere(n)
  {
    if PlainNames(n) {
      forall path: seq<nat> | IsPath(n, path) && At(n, path).kind.Scope? ensures 0 !in At(n, path).kind.name {
        PlainAt(n, path);
      }
    } else if PlainEverywhere(n) {
      var here: seq<nat> := [];
      assert IsPath(n, here) && At(n, here) == n;
      forall i: nat | i < |n.children| ensures PlainEverywhere(n.children[i]) {
        forall path: seq<nat> | IsPath(n.children[i], path) && At(n.children[i], path).kind.Scope?
          ensures 0 !in At(n.children[i], path).kind.name
        {
          assert ([i] + path)[1..] == path;
          assert IsPath(n, [i] + path) && At(n, [i] + path) == At(n.children[i], path);
        }
      }
      PlainAll(n.children);
    }
  }

  lemma {:induction false} PlainAt(n: Node, path: seq<nat>)
    requires PlainNames(n) && IsPath(n, path)
    ensures PlainNames(At(n, path))
    decreases |path|
  {
    if path != [] {
      PlainChild(n.children, path[0]);
      PlainAt(n.children[path[0]], path[1..]);
    }
  }

  lemma {:induction false} PlainChild(ns: seq<Node>, i: nat)
    requires PlainNamesAll(ns) && i < |ns|
    ensures PlainNames(ns[i])
  {
    if i > 0 {
      PlainChild(ns[1..], i - 1);
    }
  }

  lemma {:induction false} PlainAll(ns: seq<Node>)
    requires forall i: nat :: i < |ns| ==> PlainEverywhere(ns[i])
    ensures PlainNamesAll(ns)
  {
    if ns != [] {
      PlainNamesIff(ns[0]);
      forall i: nat | i < |ns[1..]| ensures PlainEverywhere(ns[1..][i]) {
        assert ns[1..][i] == ns[i + 1];
      }
      PlainAll(ns[1..]);
    }
  }

  /** `scopes` dotted, after `name` if that is not empty. */
  function Dotted(name: bytes, scopes: seq<bytes>): bytes {
    var all := (if name == [] then [] else [name]) + scopes;
    if all == [] then [] else Join(all, 46)
  }

  lemma DottedStep(name: bytes, kind: Kind, scopes: seq<bytes>)
    requires kind.Scope? ==> kind.name != []
    ensures Dotted(Extend(name, kind), scopes) == Dotted(name, (if kind.Scope? then [kind.name] else []) + scopes)
  {
    if kind.Scope? {
      if name == [] {
        assert [] + ([kind.name] + scopes) == [kind.name] + scopes;
      } else {
        assert [name] + ([kind.name] + scopes) == [name, kind.name] + scopes;
        JoinTwo(name, kind.name, scopes, 46);
      }
    } else {
      assert [] + scopes == scopes;
    }
  }

  /** The pair of the call at the end of a path. */
  predicate CallAt(n: Node, name: bytes, path: seq<nat>, p: Pair) {
    IsPath(n, path) && At(n, path).kind.FailCall?
    && p == Pair(var q := Dotted(name, ScopesOn(n, path)); if q == [] then Ascii("<module>") else q,
                 Signature(At(n, path).kind.args))
  }

  lemma {:induction false} PairsAllMember(ns: seq<Node>, name: bytes, p: Pair)
    ensures p in PairsAll(ns, name) <==> exists i :: 0 <= i < |ns| && p in Pairs(ns[i], Extend(name, ns[i].kind))
  {
    if ns != [] {
      PairsAllMember(ns[1..], name, p);
      if i :| 0 <= i < |ns[1..]| && p in Pairs(ns[1..][i], Extend(name, ns[1..][i].kind)) {
        assert ns[i + 1] == ns[1..][i];
      }
      if i :| 0 <= i < |ns| && p in Pairs(ns[i], Extend(name, ns[i].kind)) {
        assert i > 0 ==> ns[1..][i - 1] == ns[i];
      }
    }
  }

  lemma ModuleText()
    ensures Ascii("<module>") == MODULE && MODULE != []
  {
  }

  lemma OwnPairAt(n: Node, name: bytes, p: Pair)
    ensures p in OwnPairs(n.kind, name) <==> CallAt(n, name, [], p)
  {
    ModuleText();
    assert name != [] ==> [name] + [] == [name];
    assert Dotted(name, []) == name;
  }

  /** A site's qualified name is the dotted names of the functions and classes its call stands in, or
      `<module>`: the sites of a tree are exactly its calls, each named so. */
  lemma PairsMeaning(n: Node, name: bytes, p: Pair)
    requires NamedScopes(n)
    ensures p in Pairs(n, name) <==> exists path: seq<nat> :: CallAt(n, name, path, p)
  {
    if p in Pairs(n, name) {
      var path := PairIsCall(n, name, p);
    }
    if path: seq<nat> :| CallAt(n, name, path, p) {
      CallIsPair(n, name, path, p);
    }
  }

  lemma {:induction false} PairIsCall(n: Node, name: bytes, p: Pair) returns (path: seq<nat>)
    requires NamedScopes(n) && p in Pairs(n, name)
    ensures CallAt(n, name, path, p)
  {
    path := [];
    OwnPairAt(n, name, p);
    if p !in OwnPairs(n.kind, name) {
      PairsAllMember(n.children, name, p);
      var i: nat :| i < |n.children| && p in Pairs(n.children[i], Extend(name, n.children[i].kind));
      NamedChild(n, i);
      var below := PairIsCall(n.children[i], Extend(name, n.children[i].kind), p);
      CallBelow(n, name, i, below, p);
      path := [i] + below;
    }
  }

  lemma {:induction false} CallIsPair(n: Node, name: bytes, path: seq<nat>, p: Pair)
    requires NamedScopes(n) && CallAt(n, name, path, p)
    ensures p in Pairs(n, name)
  {
    if path == [] {
      OwnPairAt(n, name, p);
    } else {
      var child := n.children[path[0]];
      NamedChild(n, path[0]);
      assert path == [path[0]] + path[1..];
      CallBelow(n, name, path[0], path[1..], p);
      CallIsPair(child, Extend(name, child.kind), path[1..], p);
      PairsAllMember(n.children, name, p);
    }
  }

  lemma CallBelow(n: Node, name: bytes, i: nat, path: seq<nat>, p: Pair)
    requires i < |n.children| && NamedScopes(n)
    ensures CallAt(n, name, [i] + path, p) <==> CallAt(n.children[i], Extend(name, n.children[i].kind), path, p)
  {
    var full := [i] + path;
    assert full[1..] == path;
    NamedChild(n, i);
    if IsPath(n.children[i], path) {
      DottedStep(name, n.children[i].kind, ScopesOn(n.children[i], path));
    }
  }

  /** How many calls there are, and so how many sites. */
  function Calls(n: Node): nat {
    (if n.kind.FailCall? then 1 else 0) + CallsAll(n.children)
  }

  function CallsAll(ns: seq<Node>): nat {
    if ns == [] then 0 else Calls(ns[0]) + CallsAll(ns[1..])
  }

  lemma {:induction false} OneSiteACall(n: Node, name: bytes)
    ensures |Pairs(n, name)| == Calls(n)
  {
    OneSiteACallAll(n.children, name);
  }

  lemma {:induction false} OneSiteACallAll(ns: seq<Node>, name: bytes)
    ensures |PairsAll(ns, name)| == CallsAll(ns)
  {
    if ns != [] {
      OneSiteACall(ns[0], Extend(name, ns[0].kind));
      OneSiteACallAll(ns[1..], name);
    }
  }

  // ---------- ids ----------

  /** What is hashed for a site: three fields with a zero byte between them. */
  lemma PreimageMeaning(k: Key)
    ensures Preimage(k) == Join([k.pair.qualname, k.pair.signature, DecimalText(k.ordinal)], 0)
    ensures NumberOf(10, DecimalText(k.ordinal)) == k.ordinal && (k.ordinal > 0 ==> DecimalText(k.ordinal)[0] != 48)
  {
    DecimalTextIs(k.ordinal);
    var parts := [k.pair.qualname, k.pair.signature, DecimalText(k.ordinal)];
    assert parts[1..] == [k.pair.signature, DecimalText(k.ordinal)] && parts[1..][1..] == [DecimalText(k.ordinal)];
    assert Join(parts[1..], 0) == k.pair.signature + [0] + DecimalText(k.ordinal);
    assert k.pair.qualname + [0] + (k.pair.signature + [0] + DecimalText(k.ordinal)) == Preimage(k);
  }
}
