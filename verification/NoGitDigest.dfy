/** When the streamed no-Git fingerprint is the oracle's. The live capture frames in walk
    order, the oracle sorts by path first; the two agree exactly on tidy trees. */
module NoGitDigest {
  import opened Outcome
  import opened ByteStrings
  import opened Framing
  import opened GitDelta
  import opened NoGitWalk
  import opened NoGitOrder

  // ---------- names as a file system has them ----------

  /** Entry names are non-empty, hold no slash, and differ within a directory. */
  ghost predicate WellNamed(t: Tree)
    decreases t
  {
    t.Folder? ==>
      && DistinctBy(t.entries, NameOf)
      && forall i :: 0 <= i < |t.entries| ==>
           t.entries[i].name != [] && 47 !in t.entries[i].name && WellNamed(t.entries[i].node)
  }

  ghost predicate WellListed(es: seq<Entry>) {
    && SortedBy(es, NameOf) && DistinctBy(es, NameOf)
    && forall i :: 0 <= i < |es| ==> es[i].name != [] && 47 !in es[i].name && WellNamed(es[i].node)
  }

  lemma ListedWell(t: Tree)
    requires t.Folder? && WellNamed(t)
    ensures WellListed(Listed(t))
  {
    SortIsSorted(t.entries, NameOf);
    SortKeepsDistinct(t.entries, NameOf);
    forall k | 0 <= k < |Listed(t)|
      ensures Listed(t)[k].name != [] && 47 !in Listed(t)[k].name && WellNamed(Listed(t)[k].node)
    {
      ListedIn(t, k);
    }
  }

  // ---------- comparing paths ----------

  function Base(prefix: bytes): bytes {
    if prefix == [] then [] else prefix + [47]
  }

  function Slashed(name: bytes): bytes {
    name + [47]
  }

  lemma BaseUnder(prefix: bytes, name: bytes)
    requires name != []
    ensures PathUnder(prefix, name) == Base(prefix) + name
    ensures Base(PathUnder(prefix, name)) == Base(prefix) + Slashed(name)
  {
    if prefix == [] {
      assert [] + name == name && [] + Slashed(name) == Slashed(name);
    }
  }

  lemma PrefixTails(p: bytes, q: bytes)
    requires p != [] && q != [] && p[0] == q[0]
    ensures p[1..] <= q[1..] <==> p <= q
  {
    assert p == [p[0]] + p[1..] && q == [q[0]] + q[1..];
  }

  /** The order of two strings is settled by prefixes of them that part. */
  lemma {:induction false} BelowParted(p: bytes, u: bytes, q: bytes, v: bytes)
    requires !(p <= q) && !(q <= p)
    ensures Below(p + u, q + v) == Below(p, q)
  {
    assert p != [] && q != [];
    if p[0] == q[0] {
      assert (p + u)[1..] == p[1..] + u && (q + v)[1..] == q[1..] + v;
      PrefixTails(p, q);
      PrefixTails(q, p);
      BelowParted(p[1..], u, q[1..], v);
    }
  }

  lemma {:induction false} BelowExtended(q: bytes, v: bytes, n: bytes)
    requires !(q <= n)
    ensures Below(q + v, n) == Below(q, n)
    ensures Below(n, q + v) == Below(n, q)
  {
    assert q != [];
    if n != [] && q[0] == n[0] {
      assert (q + v)[1..] == q[1..] + v;
      PrefixTails(q, n);
      BelowExtended(q[1..], v, n[1..]);
    }
  }

  lemma SlashedPrefix(a: bytes, b: bytes)
    requires 47 !in a && 47 !in b
    ensures Slashed(a) <= Slashed(b) ==> a == b
  {
    if Slashed(a) <= Slashed(b) {
      assert Slashed(b)[|a|] == 47;
      assert |a| == |b|;
      assert a == Slashed(a)[..|a|] == Slashed(b)[..|b|] == b;
    }
  }

  lemma SlashInside(d: bytes, n: bytes)
    ensures Slashed(d) <= n ==> 47 in n
  {
    if Slashed(d) <= n {
      assert n[|d|] == 47;
    }
  }

  /** Two paths below different subdirectories compare as those do. */
  lemma AcrossFolders(base: bytes, a: bytes, u: bytes, b: bytes, v: bytes)
    requires 47 !in a && 47 !in b && a != b
    ensures !Below(base + Slashed(a) + u, base + Slashed(b) + v) <==> Below(Slashed(b), Slashed(a))
  {
    SlashedPrefix(a, b);
    SlashedPrefix(b, a);
    assert base + Slashed(a) + u == base + (Slashed(a) + u) && base + Slashed(b) + v == base + (Slashed(b) + v);
    BelowUnderPrefix(base, Slashed(a) + u, Slashed(b) + v);
    BelowParted(Slashed(a), u, Slashed(b), v);
    BelowTotal(Slashed(a), Slashed(b));
    if Below(Slashed(b), Slashed(a)) { BelowAsymmetric(Slashed(b), Slashed(a)); }
  }

  /** A directory's own record and a path below a subdirectory compare as the names do. */
  lemma AcrossKinds(base: bytes, n: bytes, d: bytes, v: bytes)
    requires 47 !in n
    ensures !Below(base + Slashed(d) + v, base + n) <==> Below(n, Slashed(d))
  {
    assert base + Slashed(d) + v == base + (Slashed(d) + v);
    BelowUnderPrefix(base, Slashed(d) + v, n);
    SlashInside(d, n);
    BelowExtended(Slashed(d), v, n);
    BelowTotal(n, Slashed(d));
    if Below(n, Slashed(d)) { BelowAsymmetric(n, Slashed(d)); }
  }

  // ---------- which records a walk emits ----------

  lemma {:induction false} FilesMembers(ex: Exclusions, prefix: bytes, es: seq<Entry>, r: Record)
    requires Files(ex, prefix, es).Some?
    ensures r in Files(ex, prefix, es).value <==> exists i :: 0 <= i < |es| && Treat(ex, prefix, es[i]) == Emit(r)
  {
    if es != [] {
      var init := es[..|es| - 1];
      FilesMembers(ex, prefix, init, r);
      if i :| 0 <= i < |init| && Treat(ex, prefix, init[i]) == Emit(r) {
        assert Treat(ex, prefix, es[i]) == Emit(r);
      }
      if i :| 0 <= i < |es| && Treat(ex, prefix, es[i]) == Emit(r) {
        assert i < |init| ==> Treat(ex, prefix, init[i]) == Emit(r);
      }
    }
  }

  /** Entry `e` is a visited directory with a file or link to emit somewhere beneath. */
  ghost predicate Busy(ex: Exclusions, prefix: bytes, e: Entry)
    decreases e.node
  {
    Treat(ex, prefix, e).Descend?
    && (ListedInside(e.node);
        var inside := PathUnder(prefix, e.name);
        exists k :: k in Listed(e.node) && (Treat(ex, inside, k).Emit? || Busy(ex, inside, k)))
  }

  predicate InBranch(ex: Exclusions, prefix: bytes, e: Entry, r: Record) {
    Branch(ex, prefix, e).Some? && r in Branch(ex, prefix, e).value
  }

  lemma {:induction false} FoldersMembers(ex: Exclusions, prefix: bytes, t: Tree, es: seq<Entry>, r: Record)
    requires Inside(es, t) && Folders(ex, prefix, t, es).Some?
    ensures r in Folders(ex, prefix, t, es).value <==> exists i :: 0 <= i < |es| && InBranch(ex, prefix, es[i], r)
    ensures forall i :: 0 <= i < |es| ==> Branch(ex, prefix, es[i]).Some?
  {
    if es != [] {
      var init := es[..|es| - 1];
      FoldersMembers(ex, prefix, t, init, r);
      forall i | 0 <= i < |es| ensures Branch(ex, prefix, es[i]).Some? {
        if i < |init| { assert init[i] == es[i]; }
      }
      if i :| 0 <= i < |init| && InBranch(ex, prefix, init[i], r) {
        assert InBranch(ex, prefix, es[i], r);
      }
      if i :| 0 <= i < |es| && InBranch(ex, prefix, es[i], r) {
        assert i < |init| ==> InBranch(ex, prefix, init[i], r);
      }
    }
  }

  lemma NotEmptyIff(rs: seq<Record>)
    ensures rs != [] <==> exists r :: r in rs
  {
    if rs != [] {
      assert rs[0] in rs;
    }
  }

  /** What is emitted below an entry is nothing exactly when the entry is not busy. */
  lemma {:induction false} BusyIffEmits(ex: Exclusions, prefix: bytes, e: Entry)
    requires Branch(ex, prefix, e).Some?
    ensures Busy(ex, prefix, e) <==> Branch(ex, prefix, e).value != []
    decreases e.node, 1
  {
    if Treat(ex, prefix, e).Descend? {
      ListedInside(e.node);
      var inside, es := PathUnder(prefix, e.name), Listed(e.node);
      FilesEmitted(ex, inside, es);
      FoldersEmitted(ex, inside, e.node, es);
    }
  }

  lemma FilesEmitted(ex: Exclusions, prefix: bytes, es: seq<Entry>)
    requires Files(ex, prefix, es).Some?
    ensures Files(ex, prefix, es).value != [] <==> exists k :: k in es && Treat(ex, prefix, k).Emit?
  {
    NotEmptyIff(Files(ex, prefix, es).value);
    if r :| r in Files(ex, prefix, es).value {
      FilesMembers(ex, prefix, es, r);
    }
    if k :| k in es && Treat(ex, prefix, k).Emit? {
      FilesMembers(ex, prefix, es, Treat(ex, prefix, k).record);
    }
  }

  lemma FoldersEmitted(ex: Exclusions, prefix: bytes, t: Tree, es: seq<Entry>)
    requires Inside(es, t) && Folders(ex, prefix, t, es).Some?
    ensures Folders(ex, prefix, t, es).value != [] <==> exists k :: k in es && Busy(ex, prefix, k)
    decreases t, 0
  {
    var folders := Folders(ex, prefix, t, es).value;
    NotEmptyIff(folders);
    forall k | k in es ensures Branch(ex, prefix, k).Some? && (Busy(ex, prefix, k) <==> Branch(ex, prefix, k).value != []) {
      FoldersMembers(ex, prefix, t, es, Record([], [], 0, []));
      BusyIffEmits(ex, prefix, k);
    }
    if r :| r in folders {
      FoldersMembers(ex, prefix, t, es, r);
      var i :| 0 <= i < |es| && InBranch(ex, prefix, es[i], r);
      assert es[i] in es && Busy(ex, prefix, es[i]);
    }
    if k :| k in es && Busy(ex, prefix, k) {
      var r := Branch(ex, prefix, k).value[0];
      FoldersMembers(ex, prefix, t, es, r);
      assert InBranch(ex, prefix, k, r);
    }
  }

  lemma FileUnder(ex: Exclusions, prefix: bytes, es: seq<Entry>, r: Record)
    requires Files(ex, prefix, es).Some? && r in Files(ex, prefix, es).value
    requires forall i :: 0 <= i < |es| ==> es[i].name != []
    ensures Base(prefix) <= r.path
  {
    FilesMembers(ex, prefix, es, r);
    var i :| 0 <= i < |es| && Treat(ex, prefix, es[i]) == Emit(r);
    BaseUnder(prefix, es[i].name);
  }

  /** Everything emitted below a directory has a path below it. */
  lemma {:induction false} WalkedUnder(ex: Exclusions, prefix: bytes, t: Tree, r: Record)
    requires t.Folder? && WellNamed(t) && Walked(ex, prefix, t).Some? && r in Walked(ex, prefix, t).value
    ensures Base(prefix) <= r.path
    decreases t, 0
  {
    ListedInside(t);
    ListedWell(t);
    if r in Files(ex, prefix, Listed(t)).value {
      FileUnder(ex, prefix, Listed(t), r);
    } else {
      FolderUnder(ex, prefix, t, Listed(t), r);
    }
  }

  lemma FolderUnder(ex: Exclusions, prefix: bytes, t: Tree, es: seq<Entry>, r: Record)
    requires Inside(es, t) && WellListed(es)
    requires Folders(ex, prefix, t, es).Some? && r in Folders(ex, prefix, t, es).value
    ensures Base(prefix) <= r.path
    decreases t, 0, 0
  {
    FoldersMembers(ex, prefix, t, es, r);
    var i :| 0 <= i < |es| && InBranch(ex, prefix, es[i], r);
    assert es[i] in es;
    BranchUnder(ex, prefix, es[i], r);
  }

  lemma BranchUnder(ex: Exclusions, prefix: bytes, e: Entry, r: Record)
    requires e.name != [] && WellNamed(e.node) && InBranch(ex, prefix, e, r)
    ensures Base(prefix) + Slashed(e.name) <= r.path && Base(prefix) <= r.path
    decreases e.node, 1
  {
    BaseUnder(prefix, e.name);
    WalkedUnder(ex, PathUnder(prefix, e.name), e.node, r);
  }

  // ---------- tidy trees ----------

  /** In every visited directory: the names of its own records come before every busy subdirectory, and of
      two such subdirectories the one that is listed later comes first, once a slash is appended. */
  ghost predicate Tidy(ex: Exclusions, prefix: bytes, t: Tree)
    requires t.Folder?
    decreases t, 0
  {
    var es := Listed(t);
    && FilesFirst(ex, prefix, es) && FoldersReversed(ex, prefix, es)
    && (ListedInside(t);
        forall e :: e in es ==> SubtreeTidy(ex, prefix, e))
  }

  ghost predicate SubtreeTidy(ex: Exclusions, prefix: bytes, e: Entry)
    decreases e.node, 1
  {
    Treat(ex, prefix, e).Descend? ==> Tidy(ex, PathUnder(prefix, e.name), e.node)
  }

  ghost predicate FilesFirst(ex: Exclusions, prefix: bytes, es: seq<Entry>) {
    forall i, j :: 0 <= i < |es| && 0 <= j < |es| && Treat(ex, prefix, es[i]).Emit? && Busy(ex, prefix, es[j]) ==>
      Below(es[i].name, Slashed(es[j].name))
  }

  ghost predicate FoldersReversed(ex: Exclusions, prefix: bytes, es: seq<Entry>) {
    forall i, j :: 0 <= i < j < |es| && Busy(ex, prefix, es[i]) && Busy(ex, prefix, es[j]) ==>
      Below(Slashed(es[j].name), Slashed(es[i].name))
  }

  /** No path of `a` comes after a path of `b`. */
  ghost predicate AllBefore(a: seq<Record>, b: seq<Record>) {
    forall x, y :: x in a && y in b ==> !Below(y.path, x.path)
  }

  lemma SortedConcat(a: seq<Record>, b: seq<Record>)
    ensures SortedBy(a + b, PathOf) <==> SortedBy(a, PathOf) && SortedBy(b, PathOf) && AllBefore(a, b)
  {
    var c := a + b;
    if SortedBy(c, PathOf) {
      assert forall i :: 0 <= i < |a| ==> c[i] == a[i];
      assert forall j :: 0 <= j < |b| ==> c[|a| + j] == b[j];
    }
  }

  ghost predicate Apart(a: seq<Record>, b: seq<Record>) {
    forall x, y :: x in a && y in b ==> x.path != y.path
  }

  lemma DistinctConcat(a: seq<Record>, b: seq<Record>)
    requires DistinctBy(a, PathOf) && DistinctBy(b, PathOf) && Apart(a, b)
    ensures DistinctBy(a + b, PathOf)
  {
  }

  lemma SamePrefix(p: bytes, a: bytes, b: bytes)
    ensures p + a == p + b ==> a == b
  {
    if p + a == p + b {
      assert a == (p + a)[|p|..] == (p + b)[|p|..] == b;
    }
  }

  /** Records of one directory compare as the names of their entries. */
  lemma FilesCompare(ex: Exclusions, prefix: bytes, d: Entry, e: Entry, x: Record, y: Record)
    requires d.name != [] && e.name != [] && d.name != e.name && !Below(e.name, d.name)
    requires Treat(ex, prefix, d) == Emit(x) && Treat(ex, prefix, e) == Emit(y)
    ensures !Below(y.path, x.path) && x.path != y.path
  {
    BaseUnder(prefix, d.name);
    BaseUnder(prefix, e.name);
    BelowUnderPrefix(Base(prefix), e.name, d.name);
    SamePrefix(Base(prefix), d.name, e.name);
  }

  lemma ListedNames(es: seq<Entry>, i: nat, j: nat)
    requires WellListed(es) && i < j < |es|
    ensures es[i].name != [] && es[j].name != [] && es[i].name != es[j].name && !Below(es[j].name, es[i].name)
  {
    assert !Below(NameOf(es[j]), NameOf(es[i])) && NameOf(es[i]) != NameOf(es[j]);
  }

  lemma LastLeaf(ex: Exclusions, prefix: bytes, es: seq<Entry>)
    requires es != [] && WellListed(es) && Files(ex, prefix, es).Some?
    ensures var files, leaf := Files(ex, prefix, es[..|es| - 1]).value, Leaf(ex, prefix, es[|es| - 1]).value;
            AllBefore(files, leaf) && Apart(files, leaf)
            && SortedBy(leaf, PathOf) && DistinctBy(leaf, PathOf)
  {
    var init, e := es[..|es| - 1], es[|es| - 1];
    var files, leaf := Files(ex, prefix, init).value, Leaf(ex, prefix, e).value;
    forall x, y | x in files && y in leaf ensures !Below(y.path, x.path) && x.path != y.path {
      FilesMembers(ex, prefix, init, x);
      var i :| 0 <= i < |init| && Treat(ex, prefix, init[i]) == Emit(x);
      ListedNames(es, i, |es| - 1);
      FilesCompare(ex, prefix, es[i], e, x, y);
    }
  }

  lemma InitWell(es: seq<Entry>)
    requires es != [] && WellListed(es)
    ensures WellListed(es[..|es| - 1])
  {
  }

  lemma {:induction false} FilesSorted(ex: Exclusions, prefix: bytes, es: seq<Entry>)
    requires WellListed(es) && Files(ex, prefix, es).Some?
    ensures SortedBy(Files(ex, prefix, es).value, PathOf) && DistinctBy(Files(ex, prefix, es).value, PathOf)
  {
    if es != [] {
      InitWell(es);
      FilesSorted(ex, prefix, es[..|es| - 1]);
      LastLeaf(ex, prefix, es);
      SortedConcat(Files(ex, prefix, es[..|es| - 1]).value, Leaf(ex, prefix, es[|es| - 1]).value);
      DistinctConcat(Files(ex, prefix, es[..|es| - 1]).value, Leaf(ex, prefix, es[|es| - 1]).value);
    }
  }

  lemma BranchesCompare(ex: Exclusions, prefix: bytes, e: Entry, f: Entry, x: Record, y: Record)
    requires e.name != [] && 47 !in e.name && WellNamed(e.node) && InBranch(ex, prefix, e, x)
    requires f.name != [] && 47 !in f.name && WellNamed(f.node) && InBranch(ex, prefix, f, y)
    requires e.name != f.name
    ensures !Below(y.path, x.path) <==> Below(Slashed(e.name), Slashed(f.name))
  {
    BranchUnder(ex, prefix, e, x);
    BranchUnder(ex, prefix, f, y);
    var p, q := Base(prefix) + Slashed(e.name), Base(prefix) + Slashed(f.name);
    assert x.path == p + x.path[|p|..] && y.path == q + y.path[|q|..];
    AcrossFolders(Base(prefix), f.name, y.path[|q|..], e.name, x.path[|p|..]);
  }

  lemma KindsCompare(ex: Exclusions, prefix: bytes, e: Entry, f: Entry, x: Record, y: Record)
    requires e.name != [] && 47 !in e.name && Treat(ex, prefix, e) == Emit(x)
    requires f.name != [] && WellNamed(f.node) && InBranch(ex, prefix, f, y)
    ensures !Below(y.path, x.path) <==> Below(e.name, Slashed(f.name))
  {
    BaseUnder(prefix, e.name);
    BranchUnder(ex, prefix, f, y);
    var q := Base(prefix) + Slashed(f.name);
    assert y.path == q + y.path[|q|..];
    AcrossKinds(Base(prefix), e.name, f.name, y.path[|q|..]);
  }

  ghost predicate LastReversed(ex: Exclusions, prefix: bytes, es: seq<Entry>)
    requires es != []
  {
    var e := es[|es| - 1];
    forall i :: 0 <= i < |es| - 1 && Busy(ex, prefix, es[i]) && Busy(ex, prefix, e) ==>
      Below(Slashed(e.name), Slashed(es[i].name))
  }

  lemma BusyAll(ex: Exclusions, prefix: bytes, t: Tree, es: seq<Entry>)
    requires Inside(es, t) && Folders(ex, prefix, t, es).Some?
    ensures forall i :: 0 <= i < |es| ==>
              Branch(ex, prefix, es[i]).Some? && (Busy(ex, prefix, es[i]) <==> Branch(ex, prefix, es[i]).value != [])
  {
    forall i | 0 <= i < |es|
      ensures Branch(ex, prefix, es[i]).Some? && (Busy(ex, prefix, es[i]) <==> Branch(ex, prefix, es[i]).value != [])
    {
      SomeBranches(ex, prefix, t, es, i);
      BusyIffEmits(ex, prefix, es[i]);
    }
  }

  /** A later subdirectory's records all precede those of the earlier ones exactly when the
      slashed names say so. */
  lemma LastFolderFirst(ex: Exclusions, prefix: bytes, t: Tree, es: seq<Entry>)
    requires es != [] && Inside(es, t) && WellListed(es) && Folders(ex, prefix, t, es).Some?
    ensures AllBefore(Branch(ex, prefix, es[|es| - 1]).value, Folders(ex, prefix, t, es[..|es| - 1]).value)
       <==> LastReversed(ex, prefix, es)
  {
    var init, e := es[..|es| - 1], es[|es| - 1];
    BusyAll(ex, prefix, t, es);
    var branch, rest := Branch(ex, prefix, e).value, Folders(ex, prefix, t, init).value;
    if AllBefore(branch, rest) {
      forall i | 0 <= i < |init| && Busy(ex, prefix, es[i]) && Busy(ex, prefix, e)
        ensures Below(Slashed(e.name), Slashed(es[i].name))
      {
        var x, y := branch[0], Branch(ex, prefix, es[i]).value[0];
        FoldersMembers(ex, prefix, t, init, y);
        assert InBranch(ex, prefix, init[i], y);
        assert NameOf(es[i]) != NameOf(e);
        BranchesCompare(ex, prefix, e, es[i], x, y);
      }
    }
    if LastReversed(ex, prefix, es) {
      forall x, y | x in branch && y in rest ensures !Below(y.path, x.path) {
        FoldersMembers(ex, prefix, t, init, y);
        var i :| 0 <= i < |init| && InBranch(ex, prefix, init[i], y);
        assert init[i] == es[i] && NameOf(es[i]) != NameOf(e);
        assert Busy(ex, prefix, es[i]) && Busy(ex, prefix, e);
        BranchesCompare(ex, prefix, e, es[i], x, y);
      }
    }
  }

  ghost predicate BranchesSorted(ex: Exclusions, prefix: bytes, es: seq<Entry>) {
    forall i :: 0 <= i < |es| ==>
      Branch(ex, prefix, es[i]).Some? && SortedBy(Branch(ex, prefix, es[i]).value, PathOf)
  }

  lemma {:induction false} FoldersSorted(ex: Exclusions, prefix: bytes, t: Tree, es: seq<Entry>)
    requires Inside(es, t) && WellListed(es) && Folders(ex, prefix, t, es).Some?
    ensures SortedBy(Folders(ex, prefix, t, es).value, PathOf)
       <==> FoldersReversed(ex, prefix, es) && BranchesSorted(ex, prefix, es)
  {
    if es != [] {
      var init, e := es[..|es| - 1], es[|es| - 1];
      FoldersSorted(ex, prefix, t, init);
      LastFolderFirst(ex, prefix, t, es);
      SortedConcat(Branch(ex, prefix, e).value, Folders(ex, prefix, t, init).value);
      ReversedStep(ex, prefix, es);
      BranchesStep(ex, prefix, es);
    }
  }

  lemma ReversedStep(ex: Exclusions, prefix: bytes, es: seq<Entry>)
    requires es != []
    ensures FoldersReversed(ex, prefix, es)
       <==> FoldersReversed(ex, prefix, es[..|es| - 1]) && LastReversed(ex, prefix, es)
  {
    var init := es[..|es| - 1];
    assert forall i :: 0 <= i < |init| ==> init[i] == es[i];
  }

  lemma BranchesStep(ex: Exclusions, prefix: bytes, es: seq<Entry>)
    requires es != [] && Branch(ex, prefix, es[|es| - 1]).Some?
    ensures BranchesSorted(ex, prefix, es)
       <==> BranchesSorted(ex, prefix, es[..|es| - 1]) && SortedBy(Branch(ex, prefix, es[|es| - 1]).value, PathOf)
  {
    var init := es[..|es| - 1];
    assert forall i :: 0 <= i < |init| ==> init[i] == es[i];
  }

  lemma FilesBeforeFolders(ex: Exclusions, prefix: bytes, t: Tree, es: seq<Entry>)
    requires Inside(es, t) && WellListed(es) && Files(ex, prefix, es).Some? && Folders(ex, prefix, t, es).Some?
    ensures AllBefore(Files(ex, prefix, es).value, Folders(ex, prefix, t, es).value) <==> FilesFirst(ex, prefix, es)
  {
    var files, folders := Files(ex, prefix, es).value, Folders(ex, prefix, t, es).value;
    BusyAll(ex, prefix, t, es);
    if AllBefore(files, folders) {
      forall i, j | 0 <= i < |es| && 0 <= j < |es| && Treat(ex, prefix, es[i]).Emit? && Busy(ex, prefix, es[j])
        ensures Below(es[i].name, Slashed(es[j].name))
      {
        var x, y := Treat(ex, prefix, es[i]).record, Branch(ex, prefix, es[j]).value[0];
        FilesMembers(ex, prefix, es, x);
        FoldersMembers(ex, prefix, t, es, y);
        assert InBranch(ex, prefix, es[j], y);
        KindsCompare(ex, prefix, es[i], es[j], x, y);
      }
    }
    if FilesFirst(ex, prefix, es) {
      forall x, y | x in files && y in folders ensures !Below(y.path, x.path) {
        FilesMembers(ex, prefix, es, x);
        FoldersMembers(ex, prefix, t, es, y);
        var i :| 0 <= i < |es| && Treat(ex, prefix, es[i]) == Emit(x);
        var j :| 0 <= j < |es| && InBranch(ex, prefix, es[j], y);
        assert Busy(ex, prefix, es[j]);
        KindsCompare(ex, prefix, es[i], es[j], x, y);
      }
    }
  }

  ghost predicate SubtreesTidy(ex: Exclusions, prefix: bytes, es: seq<Entry>) {
    forall e :: e in es ==> SubtreeTidy(ex, prefix, e)
  }

  lemma SubtreesTidyIff(ex: Exclusions, prefix: bytes, t: Tree, es: seq<Entry>)
    requires Inside(es, t) && WellListed(es) && Folders(ex, prefix, t, es).Some?
    ensures BranchesSorted(ex, prefix, es) <==> SubtreesTidy(ex, prefix, es)
    decreases t, 0
  {
    forall i | 0 <= i < |es|
      ensures Branch(ex, prefix, es[i]).Some?
      ensures SortedBy(Branch(ex, prefix, es[i]).value, PathOf) <==> SubtreeTidy(ex, prefix, es[i])
    {
      assert es[i] in es;
      SomeBranches(ex, prefix, t, es, i);
      BranchTidy(ex, prefix, es[i]);
    }
  }

  lemma BranchTidy(ex: Exclusions, prefix: bytes, e: Entry)
    requires WellNamed(e.node) && Branch(ex, prefix, e).Some?
    ensures SortedBy(Branch(ex, prefix, e).value, PathOf) <==> SubtreeTidy(ex, prefix, e)
    decreases e.node, 2
  {
    if Treat(ex, prefix, e).Descend? {
      TidyIffSorted(ex, PathUnder(prefix, e.name), e.node);
    }
  }

  lemma SomeBranches(ex: Exclusions, prefix: bytes, t: Tree, es: seq<Entry>, i: nat)
    requires Inside(es, t) && Folders(ex, prefix, t, es).Some? && i < |es|
    ensures Branch(ex, prefix, es[i]).Some?
  {
    FoldersMembers(ex, prefix, t, es, Record([], [], 0, []));
  }

  /** The walk emits in path order exactly on the tidy trees. */
  lemma {:induction false} TidyIffSorted(ex: Exclusions, prefix: bytes, t: Tree)
    requires t.Folder? && WellNamed(t) && Walked(ex, prefix, t).Some?
    ensures SortedBy(Walked(ex, prefix, t).value, PathOf) <==> Tidy(ex, prefix, t)
    decreases t, 1
  {
    ListedInside(t);
    ListedWell(t);
    var es := Listed(t);
    FilesSorted(ex, prefix, es);
    FoldersSorted(ex, prefix, t, es);
    FilesBeforeFolders(ex, prefix, t, es);
    SortedConcat(Files(ex, prefix, es).value, Folders(ex, prefix, t, es).value);
    SubtreesTidyIff(ex, prefix, t, es);
  }

  // ---------- distinct paths ----------

  lemma {:induction false} FoldersDistinct(ex: Exclusions, prefix: bytes, t: Tree, es: seq<Entry>)
    requires Inside(es, t) && WellListed(es) && Folders(ex, prefix, t, es).Some?
    ensures DistinctBy(Folders(ex, prefix, t, es).value, PathOf)
    decreases t, 0, |es|
  {
    if es != [] {
      var init, e := es[..|es| - 1], es[|es| - 1];
      assert e in es;
      FoldersDistinct(ex, prefix, t, init);
      if Treat(ex, prefix, e).Descend? {
        WalkedDistinct(ex, PathUnder(prefix, e.name), e.node);
      }
      BranchApart(ex, prefix, t, es);
      DistinctConcat(Branch(ex, prefix, e).value, Folders(ex, prefix, t, init).value);
    }
  }

  lemma BranchApart(ex: Exclusions, prefix: bytes, t: Tree, es: seq<Entry>)
    requires es != [] && Inside(es, t) && WellListed(es) && Folders(ex, prefix, t, es).Some?
    ensures Apart(Branch(ex, prefix, es[|es| - 1]).value, Folders(ex, prefix, t, es[..|es| - 1]).value)
  {
    var init, e := es[..|es| - 1], es[|es| - 1];
    forall x, y | x in Branch(ex, prefix, e).value && y in Folders(ex, prefix, t, init).value
      ensures x.path != y.path
    {
      FoldersMembers(ex, prefix, t, init, y);
      var i :| 0 <= i < |init| && InBranch(ex, prefix, init[i], y);
      assert init[i] == es[i] && NameOf(es[i]) != NameOf(e);
      BranchesCompare(ex, prefix, e, es[i], x, y);
      BranchesCompare(ex, prefix, es[i], e, y, x);
      BelowIrreflexive(x.path);
      if Below(Slashed(e.name), Slashed(es[i].name)) {
        BelowAsymmetric(Slashed(e.name), Slashed(es[i].name));
      }
    }
  }

  lemma KindsApart(ex: Exclusions, prefix: bytes, e: Entry, f: Entry, x: Record, y: Record)
    requires e.name != [] && 47 !in e.name && Treat(ex, prefix, e) == Emit(x)
    requires f.name != [] && WellNamed(f.node) && InBranch(ex, prefix, f, y)
    ensures x.path != y.path
  {
    BaseUnder(prefix, e.name);
    BranchUnder(ex, prefix, f, y);
    var q := Base(prefix) + Slashed(f.name);
    var v := y.path[|q|..];
    assert y.path == Base(prefix) + (Slashed(f.name) + v);
    SamePrefix(Base(prefix), e.name, Slashed(f.name) + v);
    SlashInside(f.name, e.name);
  }

  /** No path is emitted twice. */
  lemma {:induction false} WalkedDistinct(ex: Exclusions, prefix: bytes, t: Tree)
    requires t.Folder? && WellNamed(t) && Walked(ex, prefix, t).Some?
    ensures DistinctBy(Walked(ex, prefix, t).value, PathOf)
    decreases t, 1, 0
  {
    ListedInside(t);
    ListedWell(t);
    var es := Listed(t);
    var files, folders := Files(ex, prefix, es).value, Folders(ex, prefix, t, es).value;
    FilesSorted(ex, prefix, es);
    FoldersDistinct(ex, prefix, t, es);
    forall x, y | x in files && y in folders ensures x.path != y.path {
      FilesMembers(ex, prefix, es, x);
      FoldersMembers(ex, prefix, t, es, y);
      var i :| 0 <= i < |es| && Treat(ex, prefix, es[i]) == Emit(x);
      var j :| 0 <= j < |es| && InBranch(ex, prefix, es[j], y);
      KindsApart(ex, prefix, es[i], es[j], x, y);
    }
    DistinctConcat(files, folders);
  }

  // ---------- the fingerprint ----------

  /** The bytes the live walk hashes are the bytes the oracle hashes exactly on tidy trees. */
  lemma FingerprintAgreesIffTidy(ex: Exclusions, t: Tree)
    requires t.Folder? && WellNamed(t) && Walked(ex, [], t).Some?
    requires SourceBytes(NO_GIT_MODEL, Walked(ex, [], t).value).Ok?
    ensures Visit(ex, [], t).Some?
    ensures SourceBytes(NO_GIT_MODEL, Walked(ex, [], t).value) == DigestBytes(NO_GIT_MODEL, Visit(ex, [], t).value)
       <==> Tidy(ex, [], t)
  {
    SameWalk(ex, [], t);
    var w, v := Walked(ex, [], t).value, Visit(ex, [], t).value;
    TidyIffSorted(ex, [], t);
    WalkedDistinct(ex, [], t);
    SortForgetsOrder(w, v, PathOf);
    if Tidy(ex, [], t) {
      SortOfSorted(w, PathOf);
    }
    if SourceBytes(NO_GIT_MODEL, w) == DigestBytes(NO_GIT_MODEL, v) {
      UniqueDecodability(NO_GIT_MODEL, w, SourceBytes(NO_GIT_MODEL, w).value);
      UniqueDecodability(NO_GIT_MODEL, SortBy(v, PathOf), SourceBytes(NO_GIT_MODEL, w).value);
      SortIsSorted(v, PathOf);
    }
  }

  const INNER: Entry := Entry([97], Folder([Entry([120], Regular(false, []))]))
  const UNTIDY: Tree := Folder([INNER, Entry([98], Regular(false, []))])

  lemma InnerBusy(ex: Exclusions)
    requires ex == Exclusions({}, {})
    ensures Busy(ex, [], INNER)
  {
    var x := Entry([120], Regular(false, []));
    assert Listed(INNER.node) == [x];
    assert x in Listed(INNER.node) && Treat(ex, PathUnder([], [97]), x).Emit?;
  }

  lemma UntidyListing()
    ensures UNTIDY.Folder? && WellNamed(UNTIDY) && Listed(UNTIDY) == [INNER, Entry([98], Regular(false, []))]
  {
    BelowAsymmetric([97], [98]);
    assert SortedBy(UNTIDY.entries, NameOf) && DistinctBy(UNTIDY.entries, NameOf);
    SortOfSorted(UNTIDY.entries, NameOf);
    assert WellNamed(INNER.node);
  }

  /** A directory `a` holding a file `x`, beside a file `b`: the walk emits `b` before `a/x`. */
  lemma UntidyTree(ex: Exclusions)
    requires ex == Exclusions({}, {})
    ensures UNTIDY.Folder? && WellNamed(UNTIDY) && !Tidy(ex, [], UNTIDY)
  {
    UntidyListing();
    InnerBusy(ex);
    var es := Listed(UNTIDY);
    assert Treat(ex, [], es[1]).Emit? && Busy(ex, [], es[0]);
    assert !Below(es[1].name, Slashed(es[0].name));
    assert !FilesFirst(ex, [], es);
  }
}
