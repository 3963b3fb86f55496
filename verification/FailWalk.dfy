/** The two passes over the validator's syntax tree (tools/fail_site_inventory.py `_qualname_map`,
    `fail_sites`): names depth first from a stack, then sites breadth first from a queue. */
module FailWalk {
  import opened Outcome
  import opened ByteStrings
  import opened FailSites

  /** A node object is known by its place in the tree. */
  type Path = seq<nat>

  datatype Place = Place(path: Path, node: Node)

  function At(tree: Node, path: Path): Option<Node> {
    if path == [] then Some(tree)
    else match At(tree, path[..|path| - 1])
      case None => None
      case Some(n) => if path[|path| - 1] < |n.children| then Some(n.children[path[|path| - 1]]) else None
  }

  /** The dotted name of the scopes enclosing a place, its own included. */
  function NameAt(tree: Node, path: Path): bytes {
    if path == [] then []
    else
      match At(tree, path)
      case None => []
      case Some(n) => Extend(NameAt(tree, path[..|path| - 1]), n.kind)
  }

  function Children(p: Place): seq<Place> {
    seq(|p.node.children|, i requires 0 <= i < |p.node.children| => Place(p.path + [i], p.node.children[i]))
  }

  predicate Valid(tree: Node, path: Path) { At(tree, path).Some? }

  predicate Right(tree: Node, path: Path, name: bytes) { Valid(tree, path) && name == NameAt(tree, path) }

  predicate Stands(tree: Node, p: Place) { At(tree, p.path) == Some(p.node) }

  lemma ChildStands(tree: Node, p: Place, i: nat)
    requires Stands(tree, p) && i < |p.node.children|
    ensures Stands(tree, Children(p)[i])
    ensures NameAt(tree, p.path + [i]) == Extend(NameAt(tree, p.path), p.node.children[i].kind)
    ensures Right(tree, p.path + [i], Extend(NameAt(tree, p.path), p.node.children[i].kind))
  {
    var path := p.path + [i];
    assert path[..|path| - 1] == p.path;
  }

  // ---------- how much is left ----------

  function Size(n: Node): nat { 1 + SizeAll(n.children) }

  function SizeAll(ns: seq<Node>): nat {
    if ns == [] then 0 else Size(ns[0]) + SizeAll(ns[1..])
  }

  function Load(places: seq<Place>): nat {
    if places == [] then 0 else Size(places[0].node) + Load(places[1..])
  }

  lemma {:induction false} LoadAppend(a: seq<Place>, b: seq<Place>)
    ensures Load(a + b) == Load(a) + Load(b)
  {
    if a == [] {
      assert a + b == b;
    } else {
      assert (a + b)[0] == a[0] && (a + b)[1..] == a[1..] + b;
      LoadAppend(a[1..], b);
    }
  }

  lemma {:induction false} ChildrenLoad(p: Place, i: nat)
    requires i <= |p.node.children|
    ensures Load(Children(p)[i..]) == SizeAll(p.node.children[i..])
    decreases |p.node.children| - i
  {
    if i < |p.node.children| {
      assert Children(p)[i..][0].node == p.node.children[i] && Children(p)[i..][1..] == Children(p)[i + 1..];
      assert p.node.children[i..][1..] == p.node.children[i + 1..];
      ChildrenLoad(p, i + 1);
    }
  }

  lemma OneLess(places: seq<Place>, p: Place)
    ensures Load(places + Children(p)) + 1 == Load(places + [p]) == Load([p] + places)
  {
    LoadAppend(places, [p]);
    LoadAppend([p], places);
    LoadAppend(places, Children(p));
    ChildrenLoad(p, 0);
    assert [p][1..] == [] && Children(p)[0..] == Children(p) && p.node.children[0..] == p.node.children;
  }

  // ---------- names, from a stack ----------

  predicate Above(a: Path, q: Path) { |a| < |q| && q[..|a|] == a }

  ghost predicate Pending(stack: seq<Place>, q: Path) {
    exists i :: 0 <= i < |stack| && Above(stack[i].path, q)
  }

  ghost predicate Mapped(tree: Node, names: map<Path, bytes>, stack: seq<Place>) {
    (forall q :: q in names ==> Right(tree, q, names[q]))
    && (forall i :: 0 <= i < |stack| ==> Stands(tree, stack[i]) && stack[i].path in names)
    && forall q :: Valid(tree, q) ==> q in names || Pending(stack, q)
  }

  lemma {:induction false} PrefixStands(tree: Node, q: Path, k: nat)
    requires Valid(tree, q) && k <= |q|
    ensures Valid(tree, q[..k])
    decreases |q|
  {
    if k == |q| {
      assert q[..k] == q;
    } else {
      PrefixStands(tree, q[..|q| - 1], k);
      assert q[..|q| - 1][..k] == q[..k];
    }
  }

  /** Everything below a place is one of its children or below one. */
  lemma BelowIsBelowChild(tree: Node, p: Place, q: Path)
    requires Stands(tree, p) && Valid(tree, q) && Above(p.path, q)
    ensures var i := q[|p.path|];
            i < |p.node.children| && (q == p.path + [i] || Above(p.path + [i], q))
  {
    var k := |p.path|;
    PrefixStands(tree, q, k + 1);
    assert q[..k + 1][..k] == p.path;
    assert q[..k + 1] == p.path + [q[k]];
  }

  lemma MappedStarts(tree: Node)
    ensures Mapped(tree, map[[] := []], [Place([], tree)])
  {
    var stack := [Place([], tree)];
    forall q: Path | q != [] ensures Pending(stack, q) {
      assert Above(stack[0].path, q);
    }
  }

  /** The names of the first n children added to a map. */
  function WithNames(names: map<Path, bytes>, p: Place, prefix: bytes, n: nat): map<Path, bytes>
    requires n <= |p.node.children|
  {
    if n == 0 then names
    else WithNames(names, p, prefix, n - 1)[p.path + [n - 1] := Extend(prefix, p.node.children[n - 1].kind)]
  }

  lemma {:induction false} WithNamesAdds(right: (Path, bytes) -> bool, names: map<Path, bytes>, p: Place, prefix: bytes, n: nat)
    requires n <= |p.node.children| && forall q :: q in names ==> right(q, names[q])
    requires forall i: nat :: i < |p.node.children| ==> right(p.path + [i], Extend(prefix, p.node.children[i].kind))
    ensures var after := WithNames(names, p, prefix, n);
            (forall q :: q in after ==> right(q, after[q]))
            && (forall q :: q in names ==> q in after)
            && forall i: nat :: i < n ==> p.path + [i] in after
  {
    if n > 0 {
      WithNamesAdds(right, names, p, prefix, n - 1);
    }
  }

  lemma ChildrenRight(tree: Node, p: Place, name: bytes)
    requires Stands(tree, p) && name == NameAt(tree, p.path)
    ensures forall i: nat :: i < |p.node.children| ==> Right(tree, p.path + [i], Extend(name, p.node.children[i].kind))
  {
    forall i: nat | i < |p.node.children| ensures Right(tree, p.path + [i], Extend(name, p.node.children[i].kind)) {
      ChildStands(tree, p, i);
    }
  }

  lemma MappedNext(tree: Node, names: map<Path, bytes>, stack: seq<Place>, p: Place, after: map<Path, bytes>)
    requires Mapped(tree, names, stack + [p]) && Stands(tree, p)
    requires forall q :: q in after ==> Right(tree, q, after[q])
    requires forall q :: q in names ==> q in after
    requires forall i: nat :: i < |p.node.children| ==> p.path + [i] in after
    ensures Mapped(tree, after, stack + Children(p))
  {
    var all, next := stack + [p], stack + Children(p);
    forall i | 0 <= i < |next| ensures Stands(tree, next[i]) && next[i].path in after {
      if i < |stack| {
        assert next[i] == all[i];
      } else {
        assert next[i] == Children(p)[i - |stack|];
        ChildStands(tree, p, i - |stack|);
      }
    }
    forall q | Valid(tree, q) ensures q in after || Pending(next, q) {
      if q !in names {
        var j :| 0 <= j < |all| && Above(all[j].path, q);
        if j < |stack| {
          assert next[j] == all[j];
        } else {
          BelowIsBelowChild(tree, p, q);
          var i := q[|p.path|];
          assert next[|stack| + i] == Children(p)[i];
        }
      }
    }
  }

  /** The inner loop: every child named and pushed. */
  method NameChildren(names: map<Path, bytes>, stack: seq<Place>, p: Place, prefix: bytes)
    returns (named: map<Path, bytes>, pushed: seq<Place>)
    ensures named == WithNames(names, p, prefix, |p.node.children|)
    ensures pushed == stack + Children(p)
  {
    named, pushed := names, stack;
    for i := 0 to |p.node.children|
      invariant pushed == stack + Children(p)[..i]
      invariant named == WithNames(names, p, prefix, i)
    {
      var child := p.node.children[i];
      if child.kind.Scope? {
        named := named[p.path + [i] := if prefix == [] then child.kind.name else prefix + [46] + child.kind.name];
      } else {
        named := named[p.path + [i] := prefix];
      }
      pushed := pushed + [Place(p.path + [i], child)];
    }
    assert Children(p)[..|p.node.children|] == Children(p);
  }

  /** `_qualname_map`: the name of every node, and of nothing else. */
  method QualnameMap(tree: Node) returns (names: map<Path, bytes>)
    ensures forall q :: q in names <==> Valid(tree, q)
    ensures forall q :: q in names ==> names[q] == NameAt(tree, q)
  {
    names := map[[] := []];
    var stack := [Place([], tree)];
    MappedStarts(tree);
    while stack != []
      invariant Mapped(tree, names, stack)
      decreases Load(stack)
    {
      var place := stack[|stack| - 1];
      ghost var rest := stack[..|stack| - 1];
      assert stack == rest + [place];
      OneLess(rest, place);
      assert Stands(tree, place) && Right(tree, place.path, names[place.path]);
      ChildrenRight(tree, place, names[place.path]);
      WithNamesAdds((q, n) => Right(tree, q, n), names, place, names[place.path], |place.node.children|);
      MappedNext(tree, names, rest, place, WithNames(names, place, names[place.path], |place.node.children|));
      stack := stack[..|stack| - 1];
      names, stack := NameChildren(names, stack, place, names[place.path]);
    }
    assert forall q :: !Pending([], q);
  }

  // ---------- sites, from a queue ----------

  /** The name of each place of the tree. */
  function Naming(tree: Node): Path -> bytes { path => NameAt(tree, path) }

  /** What the nodes still in the queue hold. */
  function PairsBelow(name: Path -> bytes, places: seq<Place>): seq<Pair> {
    if places == [] then []
    else Pairs(places[0].node, name(places[0].path)) + PairsBelow(name, places[1..])
  }

  lemma {:induction false} PairsBelowAppend(name: Path -> bytes, a: seq<Place>, b: seq<Place>)
    ensures PairsBelow(name, a + b) == PairsBelow(name, a) + PairsBelow(name, b)
  {
    if a == [] {
      assert a + b == b;
    } else {
      assert (a + b)[0] == a[0] && (a + b)[1..] == a[1..] + b;
      PairsBelowAppend(name, a[1..], b);
    }
  }

  lemma {:induction false} PairsBelowChildren(name: Path -> bytes, p: Place, i: nat)
    requires i <= |p.node.children|
    requires forall k: nat :: k < |p.node.children| ==> name(p.path + [k]) == Extend(name(p.path), p.node.children[k].kind)
    ensures PairsBelow(name, Children(p)[i..]) == PairsAll(p.node.children[i..], name(p.path))
    decreases |p.node.children| - i
  {
    if i < |p.node.children| {
      var cs, ns := Children(p)[i..], p.node.children[i..];
      assert cs[0] == Place(p.path + [i], ns[0]) && cs[1..] == Children(p)[i + 1..];
      assert ns[1..] == p.node.children[i + 1..];
      PairsBelowChildren(name, p, i + 1);
    }
  }

  ghost predicate Collected(tree: Node, found: seq<Pair>, queue: seq<Place>) {
    (forall i :: 0 <= i < |queue| ==> Stands(tree, queue[i]))
    && multiset(found) + multiset(PairsBelow(Naming(tree), queue)) == multiset(Pairs(tree, []))
  }

  lemma CollectedStarts(tree: Node)
    ensures Collected(tree, [], [Place([], tree)])
  {
    assert [Place([], tree)][1..] == [];
    assert PairsBelow(Naming(tree), [Place([], tree)]) == Pairs(tree, []);
  }

  lemma CollectedMoves(tree: Node, found: seq<Pair>, queue: seq<Place>)
    requires queue != [] && Collected(tree, found, queue)
    ensures Collected(tree, found + OwnPairs(queue[0].node.kind, NameAt(tree, queue[0].path)), queue[1..] + Children(queue[0]))
  {
    var p, rest := queue[0], queue[1..];
    assert Stands(tree, p);
    forall i | 0 <= i < |rest + Children(p)| ensures Stands(tree, (rest + Children(p))[i]) {
      if i < |rest| {
        assert Stands(tree, queue[i + 1]);
      } else {
        ChildStands(tree, p, i - |rest|);
      }
    }
    forall k: nat | k < |p.node.children| ensures Naming(tree)(p.path + [k]) == Extend(Naming(tree)(p.path), p.node.children[k].kind) {
      ChildStands(tree, p, k);
    }
    PairsBelowAppend(Naming(tree), rest, Children(p));
    PairsBelowChildren(Naming(tree), p, 0);
    assert Children(p)[0..] == Children(p) && p.node.children[0..] == p.node.children;
  }

  lemma CollectedEnds(tree: Node, hash: bytes -> bytes, found: seq<Pair>)
    requires Collected(tree, found, []) && Ideal(hash) && PlainNames(tree)
    ensures SortBy(Numbered(found), IdOf(hash)) == Inventory(hash, Pairs(tree, []))
  {
    PairsAreNamed(tree, []);
    InventoryForgetsOrder(hash, Pairs(tree, []), found);
  }

  /** The counter and the numbered sites follow the pairs found. */
  ghost predicate Counted(found: seq<Pair>, seen: map<Pair, nat>, sites: seq<Key>) {
    sites == Numbered(found) && forall p :: multiset(found)[p] == if p in seen then seen[p] else 0
  }

  lemma CountedMoves(found: seq<Pair>, seen: map<Pair, nat>, sites: seq<Key>, p: Pair)
    requires Counted(found, seen, sites)
    ensures var n := if p in seen then seen[p] else 0;
            Counted(found + [p], seen[p := n + 1], sites + [Key(p, n)])
  {
    NumberedOneMore(found, p);
  }

  lemma NumberedOneMore(found: seq<Pair>, p: Pair)
    ensures Numbered(found + [p]) == Numbered(found) + [Key(p, multiset(found)[p])]
  {
    assert (found + [p])[..|found|] == found;
  }

  /** One node: a `fail` call is numbered and counted. */
  method CountSite(kind: Kind, name: bytes, seen: map<Pair, nat>, sites: seq<Key>, ghost found: seq<Pair>)
    returns (seenNow: map<Pair, nat>, sitesNow: seq<Key>, ghost foundNow: seq<Pair>)
    requires Counted(found, seen, sites)
    ensures foundNow == found + OwnPairs(kind, name) && Counted(foundNow, seenNow, sitesNow)
  {
    if !kind.FailCall? {
      assert found + [] == found;
      return seen, sites, found;
    }
    var pair := Pair(if name == [] then MODULE else name, Signature(kind.args));
    var ordinal := if pair in seen then seen[pair] else 0;
    CountedMoves(found, seen, sites, pair);
    return seen[pair := ordinal + 1], sites + [Key(pair, ordinal)], found + [pair];
  }

  /** `fail_sites`: the inventory of the sites as the tree is written, though they are met
      breadth first. */
  method Sites(tree: Node, hash: bytes -> bytes) returns (sites: seq<Key>)
    requires Ideal(hash) && PlainNames(tree)
    ensures sites == Inventory(hash, Pairs(tree, []))
  {
    var names := QualnameMap(tree);
    var seen: map<Pair, nat> := map[];
    ghost var found: seq<Pair> := [];
    var queue := [Place([], tree)];
    sites := [];
    CollectedStarts(tree);
    while queue != []
      invariant Collected(tree, found, queue)
      invariant Counted(found, seen, sites)
      decreases Load(queue)
    {
      var place := queue[0];
      assert queue == [place] + queue[1..];
      OneLess(queue[1..], place);
      CollectedMoves(tree, found, queue);
      assert Stands(tree, place);
      queue := queue[1..] + Children(place);
      assert Right(tree, place.path, names[place.path]);
      seen, sites, found := CountSite(place.node.kind, names[place.path], seen, sites, found);
    }
    CollectedEnds(tree, hash, found);
    sites := SortBy(sites, IdOf(hash));
  }
}
