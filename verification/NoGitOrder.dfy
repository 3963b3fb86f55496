/** What the no-Git walk's order does and does not change: the records are the oracle's, the
    sequence does not depend on enumeration, and the fingerprint is the oracle's exactly on
    the trees whose walk order is already path order. */
module NoGitOrder {
  import opened Outcome
  import opened ByteStrings
  import opened Framing
  import opened GitDelta
  import opened NoGitWalk

  // ---------- the same records as the oracle ----------

  /** What one entry contributes to the oracle's recursion. */
  function Contribution(ex: Exclusions, prefix: bytes, t: Tree, e: Entry): Option<seq<Record>>
    requires e.node < t
  {
    match Treat(ex, prefix, e)
    case Skip => Some([])
    case Fail => None
    case Emit(r) => Some([r])
    case Descend => Visit(ex, PathUnder(prefix, e.name), e.node)
  }

  lemma {:induction false} VisitFromTheEnd(ex: Exclusions, prefix: bytes, t: Tree, es: seq<Entry>, e: Entry)
    requires Inside(es, t) && e.node < t && Inside(es + [e], t)
    ensures VisitEntries(ex, prefix, t, es + [e])
         == Then(VisitEntries(ex, prefix, t, es), Contribution(ex, prefix, t, e))
  {
    if es == [] {
      assert [] + [e] == [e] && [e][1..] == [];
      ThenUnits(Contribution(ex, prefix, t, e));
    } else {
      assert es[0] in es && (es + [e])[1..] == es[1..] + [e];
      VisitFromTheEnd(ex, prefix, t, es[1..], e);
      ThenAssociative(Contribution(ex, prefix, t, es[0]), VisitEntries(ex, prefix, t, es[1..]),
                      Contribution(ex, prefix, t, e));
    }
  }

  /** `v` lists the records of `w`, in whatever order. */
  ghost predicate Rearranged(v: Option<seq<Record>>, w: Option<seq<Record>>) {
    (v.Some? <==> w.Some?) && (v.Some? ==> multiset(v.value) == multiset(w.value))
  }

  lemma RearrangedStep(v: Option<seq<Record>>, files: Option<seq<Record>>, folders: Option<seq<Record>>,
                       c: Option<seq<Record>>, leaf: Option<seq<Record>>, branch: Option<seq<Record>>)
    requires Rearranged(v, Then(files, folders)) && Rearranged(c, Then(leaf, branch))
    ensures Rearranged(Then(v, c), Then(Then(files, leaf), Then(branch, folders)))
  {
  }

  lemma SameContribution(ex: Exclusions, prefix: bytes, t: Tree, e: Entry)
    requires e.node < t
    requires Treat(ex, prefix, e).Descend? ==>
               Rearranged(Visit(ex, PathUnder(prefix, e.name), e.node), Walked(ex, PathUnder(prefix, e.name), e.node))
    ensures Rearranged(Contribution(ex, prefix, t, e), Then(Leaf(ex, prefix, e), Branch(ex, prefix, e)))
  {
    ThenUnits(Leaf(ex, prefix, e));
    ThenUnits(Branch(ex, prefix, e));
  }

  lemma {:induction false} SameEntries(ex: Exclusions, prefix: bytes, t: Tree, es: seq<Entry>)
    requires Inside(es, t)
    ensures Rearranged(VisitEntries(ex, prefix, t, es), Then(Files(ex, prefix, es), Folders(ex, prefix, t, es)))
    decreases t, 0, |es|
  {
    if es == [] {
      ThenUnits(Some([]));
    } else {
      var init, e := es[..|es| - 1], es[|es| - 1];
      assert es == init + [e] && e in es;
      SameEntries(ex, prefix, t, init);
      VisitFromTheEnd(ex, prefix, t, init, e);
      if Treat(ex, prefix, e).Descend? {
        SameWalk(ex, PathUnder(prefix, e.name), e.node);
      }
      SameContribution(ex, prefix, t, e);
      RearrangedStep(VisitEntries(ex, prefix, t, init), Files(ex, prefix, init), Folders(ex, prefix, t, init),
                     Contribution(ex, prefix, t, e), Leaf(ex, prefix, e), Branch(ex, prefix, e));
    }
  }

  /** The explicit stack emits a permutation of the recursion's records, and fails where it does. */
  lemma {:induction false} SameWalk(ex: Exclusions, prefix: bytes, t: Tree)
    requires t.Folder?
    ensures Rearranged(Visit(ex, prefix, t), Walked(ex, prefix, t))
    decreases t, 1, 0
  {
    ListedInside(t);
    SameEntries(ex, prefix, t, Listed(t));
  }

  // ---------- independence of enumeration ----------

  function Names(es: seq<Entry>): seq<bytes> {
    seq(|es|, i requires 0 <= i < |es| => es[i].name)
  }

  function Itself(b: bytes): bytes { b }

  /** The same tree, its directories enumerated in possibly different orders. */
  ghost predicate Alike(a: Tree, b: Tree)
    decreases a
  {
    if a.Folder? && b.Folder? then
      && multiset(Names(a.entries)) == multiset(Names(b.entries)) && DistinctBy(Names(a.entries), Itself)
      && forall i, j :: 0 <= i < |a.entries| && 0 <= j < |b.entries| && a.entries[i].name == b.entries[j].name ==>
           Alike(a.entries[i].node, b.entries[j].node)
    else a == b
  }

  lemma {:induction false} InsertNames(x: Entry, es: seq<Entry>)
    ensures Names(Insert(x, es, NameOf)) == Insert(x.name, Names(es), Itself)
  {
    if es != [] {
      InsertNames(x, es[1..]);
      assert Names(es)[1..] == Names(es[1..]);
    }
  }

  lemma {:induction false} SortNames(es: seq<Entry>)
    ensures Names(SortBy(es, NameOf)) == SortBy(Names(es), Itself)
  {
    if es == [] {
      assert Names(es) == [];
    } else {
      SortNames(es[1..]);
      assert Names(es)[1..] == Names(es[1..]);
      InsertNames(es[0], SortBy(es[1..], NameOf));
    }
  }

  /** Entry by entry, two sorted listings name the same things. */
  ghost predicate Matched(xs: seq<Entry>, ys: seq<Entry>) {
    |xs| == |ys| && forall k :: 0 <= k < |xs| ==> xs[k].name == ys[k].name && Alike(xs[k].node, ys[k].node)
  }

  lemma ListedIn(t: Tree, k: nat)
    requires t.Folder? && k < |Listed(t)|
    ensures exists i :: 0 <= i < |t.entries| && t.entries[i] == Listed(t)[k]
  {
    SortIsPermutation(t.entries, NameOf);
    assert Listed(t)[k] in multiset(Listed(t));
    assert Listed(t)[k] in t.entries;
  }

  lemma AlikeListings(a: Tree, b: Tree)
    requires a.Folder? && b.Folder? && Alike(a, b)
    ensures Matched(Listed(a), Listed(b))
  {
    SortNames(a.entries);
    SortNames(b.entries);
    SortForgetsOrder(Names(a.entries), Names(b.entries), Itself);
    assert Names(Listed(a)) == Names(Listed(b));
    assert |Listed(a)| == |Names(Listed(a))| == |Listed(b)|;
    forall k | 0 <= k < |Listed(a)|
      ensures Listed(a)[k].name == Listed(b)[k].name && Alike(Listed(a)[k].node, Listed(b)[k].node)
    {
      assert Names(Listed(a))[k] == Names(Listed(b))[k];
      ListedIn(a, k);
      ListedIn(b, k);
    }
  }

  lemma AlikeTreatment(ex: Exclusions, prefix: bytes, x: Entry, y: Entry)
    requires x.name == y.name && Alike(x.node, y.node)
    ensures Treat(ex, prefix, x) == Treat(ex, prefix, y)
    ensures x.node.Folder? <==> y.node.Folder?
  {
  }

  lemma {:induction false} MatchedFiles(ex: Exclusions, prefix: bytes, xs: seq<Entry>, ys: seq<Entry>)
    requires Matched(xs, ys)
    ensures Files(ex, prefix, xs) == Files(ex, prefix, ys)
  {
    if xs != [] {
      MatchedFiles(ex, prefix, xs[..|xs| - 1], ys[..|ys| - 1]);
      AlikeTreatment(ex, prefix, xs[|xs| - 1], ys[|ys| - 1]);
    }
  }

  lemma MatchedBranch(ex: Exclusions, prefix: bytes, x: Entry, y: Entry)
    requires x.name == y.name && Alike(x.node, y.node)
    ensures Branch(ex, prefix, x) == Branch(ex, prefix, y)
    decreases x.node, 2, 0
  {
    AlikeTreatment(ex, prefix, x, y);
    if Treat(ex, prefix, x).Descend? {
      EnumerationIndependence(ex, PathUnder(prefix, x.name), x.node, y.node);
    }
  }

  lemma {:induction false} MatchedFolders(ex: Exclusions, prefix: bytes, a: Tree, xs: seq<Entry>, b: Tree, ys: seq<Entry>)
    requires Inside(xs, a) && Inside(ys, b) && Matched(xs, ys)
    ensures Folders(ex, prefix, a, xs) == Folders(ex, prefix, b, ys)
    decreases a, 0, |xs|
  {
    if xs != [] {
      var x, y := xs[|xs| - 1], ys[|ys| - 1];
      assert x in xs && y in ys;
      MatchedInit(xs, ys);
      MatchedFolders(ex, prefix, a, xs[..|xs| - 1], b, ys[..|ys| - 1]);
      MatchedBranch(ex, prefix, x, y);
    }
  }

  lemma MatchedInit(xs: seq<Entry>, ys: seq<Entry>)
    requires xs != [] && Matched(xs, ys)
    ensures Matched(xs[..|xs| - 1], ys[..|ys| - 1])
  {
  }

  /** The emitted sequence is a function of the tree, not of the order in which the file system
      happens to enumerate its directories. */
  lemma {:induction false} EnumerationIndependence(ex: Exclusions, prefix: bytes, a: Tree, b: Tree)
    requires a.Folder? && b.Folder? && Alike(a, b)
    ensures Walked(ex, prefix, a) == Walked(ex, prefix, b)
    decreases a, 1, 0
  {
    ListedInside(a);
    ListedInside(b);
    AlikeListings(a, b);
    MatchedFiles(ex, prefix, Listed(a), Listed(b));
    MatchedFolders(ex, prefix, a, Listed(a), b, Listed(b));
  }
}
