/** The binding of declared nested repositories (tools/freshness.py `_nested_binding`): one part for
    each of them, over the canonical list of what is declared. */
module NestedBinding {
  import opened Outcome
  import opened ByteStrings
  import opened GitDelta
  import opened GitListing
  import Capture
  import Identity

  /** What Git answers inside a nested repository. */
  datatype Repo = Repo(head: bytes, raw: bytes, untracked: bytes)

  /** What stands at a declared path: a work tree of its own, or something that fails the capture. */
  type Repos = bytes -> Option<Repo>

  /** The hash of a listing, and the JSON text of the canonical list. */
  datatype Texts = Texts(hash: bytes -> bytes, canon: seq<bytes> -> bytes)

  const MAGIC: bytes := Ascii("git-delta-v1-nested") + [0]

  function Itself(b: bytes): bytes { b }

  // ---------- sorted(set(declared)) ----------

  function Distinct(s: seq<bytes>): seq<bytes> {
    if s == [] then []
    else
      var front, last := s[..|s| - 1], s[|s| - 1];
      if last in front then Distinct(front) else Distinct(front) + [last]
  }

  function Canonical(declared: seq<bytes>): seq<bytes> {
    SortBy(Distinct(declared), Itself)
  }

  lemma {:induction false} DistinctMembers(s: seq<bytes>)
    ensures forall x :: x in Distinct(s) <==> x in s
    ensures DistinctBy(Distinct(s), Itself)
  {
    if s != [] {
      var front, last := s[..|s| - 1], s[|s| - 1];
      assert s == front + [last];
      DistinctMembers(front);
    }
  }

  /** The canonical list has every declared path once, in ascending order. */
  lemma CanonicalMeaning(declared: seq<bytes>)
    ensures forall x :: x in Canonical(declared) <==> x in declared
    ensures forall i, j :: 0 <= i < j < |Canonical(declared)| ==> Below(Canonical(declared)[i], Canonical(declared)[j])
  {
    var d, c := Distinct(declared), Canonical(declared);
    DistinctMembers(declared);
    SortKeepsMembers(d, Itself);
    SortIsSorted(d, Itself);
    SortKeepsDistinct(d, Itself);
    forall i, j | 0 <= i < j < |c| ensures Below(c[i], c[j]) {
      assert !Below(Itself(c[j]), Itself(c[i])) && Itself(c[i]) != Itself(c[j]);
      BelowTotal(c[i], c[j]);
    }
  }

  lemma DistinctCount(s: seq<bytes>, x: bytes)
    requires DistinctBy(s, Itself)
    ensures multiset(s)[x] == if x in s then 1 else 0
  {
    if s != [] {
      var front, last := s[..|s| - 1], s[|s| - 1];
      assert s == front + [last];
      forall i, j | 0 <= i < j < |front| ensures Itself(front[i]) != Itself(front[j]) {
        assert Itself(s[i]) != Itself(s[j]);
      }
      DistinctCount(front, x);
      forall i | 0 <= i < |front| ensures front[i] != last {
        assert Itself(s[i]) != Itself(s[|front|]);
      }
    }
  }

  /** Reordering the declaration or repeating an entry changes nothing; adding or removing one does. */
  lemma CanonicalIff(a: seq<bytes>, b: seq<bytes>)
    ensures Canonical(a) == Canonical(b) <==> forall x :: x in a <==> x in b
  {
    CanonicalMeaning(a);
    CanonicalMeaning(b);
    if forall x :: x in a <==> x in b {
      DistinctMembers(a);
      DistinctMembers(b);
      forall x ensures multiset(Distinct(a))[x] == multiset(Distinct(b))[x] {
        DistinctCount(Distinct(a), x);
        DistinctCount(Distinct(b), x);
      }
      SortForgetsOrder(Distinct(a), Distinct(b), Itself);
    }
  }

  // ---------- the binding ----------

  function ListingText(r: Repo): bytes { r.raw + [0] + r.untracked }

  function PartOf(texts: Texts, rel: bytes, r: Repo): bytes {
    [0] + rel + [0] + r.head + [0] + texts.hash(ListingText(r))
  }

  /** The parts of these repositories, unless one of them fails. */
  function PartsOf(texts: Texts, rels: seq<bytes>, repos: Repos): Option<bytes> {
    if rels == [] then Some([])
    else match (PartsOf(texts, rels[..|rels| - 1], repos), repos(rels[|rels| - 1]))
      case (Some(front), Some(r)) => Some(front + PartOf(texts, rels[|rels| - 1], r))
      case _ => None
  }

  function BindingOf(texts: Texts, declared: seq<bytes>, repos: Repos): Result<bytes, Error> {
    if declared == [] then Ok([])
    else match PartsOf(texts, Canonical(declared), repos)
      case None => Err(NestedFailed)
      case Some(parts) => Ok(MAGIC + texts.canon(Canonical(declared)) + parts)
  }

  lemma PartsStop(texts: Texts, rels: seq<bytes>, repos: Repos, i: nat)
    requires i < |rels| && repos(rels[i]) == None
    ensures PartsOf(texts, rels, repos) == None
  {
    if i < |rels| - 1 {
      PartsStop(texts, rels[..|rels| - 1], repos, i);
    }
  }

  /** What the loop has appended after `i` repositories. */
  ghost predicate Appended(texts: Texts, rels: seq<bytes>, repos: Repos, i: nat, head: bytes, parts: bytes) {
    i <= |rels| && PartsOf(texts, rels[..i], repos).Some? && parts == head + PartsOf(texts, rels[..i], repos).value
  }

  lemma AppendedEnds(texts: Texts, rels: seq<bytes>, repos: Repos, head: bytes, parts: bytes)
    ensures Appended(texts, rels, repos, 0, head, head)
    ensures Appended(texts, rels, repos, |rels|, head, parts) ==>
              PartsOf(texts, rels, repos).Some? && parts == head + PartsOf(texts, rels, repos).value
  {
    assert head + [] == head && rels[..|rels|] == rels;
  }

  lemma AppendedMoves(texts: Texts, rels: seq<bytes>, repos: Repos, i: nat, head: bytes, parts: bytes)
    requires i < |rels| && Appended(texts, rels, repos, i, head, parts) && repos(rels[i]).Some?
    ensures Appended(texts, rels, repos, i + 1, head, parts + PartOf(texts, rels[i], repos(rels[i]).value))
  {
    assert rels[..i + 1][..i] == rels[..i];
    Associative(head, PartsOf(texts, rels[..i], repos).value, PartOf(texts, rels[i], repos(rels[i]).value));
  }

  /** `_nested_binding`: the loop over the canonical list. */
  method BindNested(texts: Texts, declared: seq<bytes>, repos: Repos) returns (r: Result<bytes, Error>)
    ensures r == BindingOf(texts, declared, repos)
  {
    if declared == [] {
      return Ok([]);
    }
    var rels := Canonical(declared);
    var parts := MAGIC + texts.canon(rels);
    ghost var head := parts;
    AppendedEnds(texts, rels, repos, head, parts);
    for i := 0 to |rels|
      invariant Appended(texts, rels, repos, i, head, parts)
    {
      var repo := repos(rels[i]);
      if repo.None? {
        PartsStop(texts, rels, repos, i);
        return Err(NestedFailed);
      }
      AppendedMoves(texts, rels, repos, i, head, parts);
      parts := parts + PartOf(texts, rels[i], repo.value);
    }
    AppendedEnds(texts, rels, repos, head, parts);
    return Ok(parts);
  }

  /** The binding fails exactly if a declared repository does, and is empty exactly if none is declared. */
  lemma BindingFailsIff(texts: Texts, declared: seq<bytes>, repos: Repos)
    ensures BindingOf(texts, declared, repos).Err? <==> exists rel :: rel in declared && repos(rel) == None
    ensures BindingOf(texts, declared, repos) == Ok([]) <==> declared == []
  {
    CanonicalMeaning(declared);
    PartsFailIff(texts, Canonical(declared), repos);
  }

  lemma {:induction false} PartsFailIff(texts: Texts, rels: seq<bytes>, repos: Repos)
    ensures PartsOf(texts, rels, repos) == None <==> exists rel :: rel in rels && repos(rel) == None
  {
    if rels != [] {
      var front, last := rels[..|rels| - 1], rels[|rels| - 1];
      assert rels == front + [last];
      PartsFailIff(texts, front, repos);
    }
  }

  lemma {:induction false} MorePlaces(texts: Texts, rels: seq<bytes>, rel: bytes, repos: Repos)
    ensures PartsOf(texts, [], repos) == Some([])
    ensures PartsOf(texts, rels, repos).Some? && repos(rel).Some? ==>
              var r := repos(rel).value;
              PartsOf(texts, rels + [rel], repos)
              == Some(PartsOf(texts, rels, repos).value
                      + ([0] + rel + [0] + r.head + [0] + texts.hash(r.raw + [0] + r.untracked)))
  {
    assert (rels + [rel])[..|rels|] == rels;
  }

  /** The bytes of a binding: its name, the canonical list, and then the parts. */
  lemma BindingText(texts: Texts, declared: seq<bytes>, repos: Repos)
    requires declared != [] && PartsOf(texts, Canonical(declared), repos).Some?
    ensures BindingOf(texts, declared, repos)
         == Ok(Ascii("git-delta-v1-nested") + [0] + texts.canon(Canonical(declared))
               + PartsOf(texts, Canonical(declared), repos).value)
  {
  }

  // ---------- what a binding tells apart ----------

  /** Paths and heads hold no zero byte, neither does JSON text, and a digest has 32 bytes. */
  ghost predicate Plain(texts: Texts, declared: seq<bytes>, repos: Repos) {
    && (forall x :: |texts.hash(x)| == 32) && (forall x :: 0 !in texts.canon(x))
    && (forall rel :: rel in declared ==> 0 !in rel && repos(rel).Some? && 0 !in repos(rel).value.head)
  }

  predicate HashedApart(texts: Texts, x: bytes, y: bytes) {
    texts.hash(x) == texts.hash(y) ==> x == y
  }

  /** No two of the listings that are hashed collide. */
  ghost predicate NoCollision(texts: Texts, a: seq<bytes>, ra: Repos, b: seq<bytes>, rb: Repos) {
    forall x, y :: x in a && y in b && ra(x).Some? && rb(y).Some? ==>
      HashedApart(texts, ListingText(ra(x).value), ListingText(rb(y).value))
  }

  /** The digest is the last 32 bytes, and what is before it ends at zero bytes. */
  lemma LastPart(a: bytes, texts: Texts, rel: bytes, r: Repo, b: bytes, rel': bytes, r': Repo)
    requires a + PartOf(texts, rel, r) == b + PartOf(texts, rel', r')
    requires |texts.hash(ListingText(r))| == |texts.hash(ListingText(r'))|
    requires 0 !in rel && 0 !in rel' && 0 !in r.head && 0 !in r'.head
    ensures a == b && rel == rel' && r.head == r'.head && texts.hash(ListingText(r)) == texts.hash(ListingText(r'))
  {
    var d, d' := texts.hash(ListingText(r)), texts.hash(ListingText(r'));
    var x, x' := a + [0] + rel + [0] + r.head, b + [0] + rel' + [0] + r'.head;
    assert a + PartOf(texts, rel, r) == (x + [0]) + d && b + PartOf(texts, rel', r') == (x' + [0]) + d';
    SameSuffix(x + [0], d, x' + [0], d');
    SameSuffix(x, [0], x', [0]);
    LastZero(a + [0] + rel, r.head, b + [0] + rel', r'.head);
    LastZero(a, rel, b, rel');
  }

  lemma SameSuffix(a: bytes, d: bytes, b: bytes, e: bytes)
    requires |d| == |e| && a + d == b + e
    ensures a == b && d == e
  {
    CutConcat(a, d);
    CutConcat(b, e);
    assert |a| == |b|;
  }

  /** One repository looks alike from both sides. */
  predicate SameRepo(x: Option<Repo>, y: Option<Repo>) {
    x.Some? && y.Some? && x.value.head == y.value.head && ListingText(x.value) == ListingText(y.value)
  }

  lemma {:induction false} PartsSeparate(texts: Texts, a: seq<bytes>, ra: Repos, b: seq<bytes>, rb: Repos)
    requires Plain(texts, a, ra) && Plain(texts, b, rb) && NoCollision(texts, a, ra, b, rb)
    requires PartsOf(texts, a, ra).Some? && PartsOf(texts, a, ra) == PartsOf(texts, b, rb)
    ensures a == b && forall rel :: rel in a ==> SameRepo(ra(rel), rb(rel))
  {
    if a != [] && b != [] {
      var fa, la, fb, lb := a[..|a| - 1], a[|a| - 1], b[..|b| - 1], b[|b| - 1];
      assert a == fa + [la] && b == fb + [lb] && la in a && lb in b;
      LastPart(PartsOf(texts, fa, ra).value, texts, la, ra(la).value, PartsOf(texts, fb, rb).value, lb, rb(lb).value);
      assert HashedApart(texts, ListingText(ra(la).value), ListingText(rb(lb).value));
      PartsSeparate(texts, fa, ra, fb, rb);
    }
  }

  lemma {:induction false} PartsAlike(texts: Texts, rels: seq<bytes>, ra: Repos, rb: Repos)
    requires forall rel :: rel in rels ==> SameRepo(ra(rel), rb(rel))
    ensures PartsOf(texts, rels, ra) == PartsOf(texts, rels, rb)
  {
    if rels != [] {
      var front, last := rels[..|rels| - 1], rels[|rels| - 1];
      assert rels == front + [last] && last in rels;
      PartsAlike(texts, front, ra, rb);
    }
  }

  lemma {:induction false} PartsStart(texts: Texts, rels: seq<bytes>, repos: Repos)
    requires rels != [] && PartsOf(texts, rels, repos).Some?
    ensures PartsOf(texts, rels, repos).value != [] && PartsOf(texts, rels, repos).value[0] == 0
  {
    if |rels| > 1 {
      PartsStart(texts, rels[..|rels| - 1], repos);
    }
  }

  lemma HeadCut(c: bytes, x: bytes, d: bytes, y: bytes)
    requires 0 !in c && 0 !in d && x != [] && y != [] && x[0] == 0 && y[0] == 0
    requires MAGIC + c + x == MAGIC + d + y
    ensures x == y
  {
    assert x == [0] + x[1..] && y == [0] + y[1..];
    assert MAGIC + c + x == MAGIC + (c + [0] + x[1..]) && MAGIC + d + y == MAGIC + (d + [0] + y[1..]);
    CutConcat(MAGIC, c + [0] + x[1..]);
    CutConcat(MAGIC, d + [0] + y[1..]);
    FirstZero(c, x[1..], d, y[1..]);
  }

  lemma PlainCanonical(texts: Texts, declared: seq<bytes>, repos: Repos)
    requires Plain(texts, declared, repos)
    ensures Plain(texts, Canonical(declared), repos) && (declared == [] <==> Canonical(declared) == [])
    ensures PartsOf(texts, Canonical(declared), repos).Some?
  {
    CanonicalMeaning(declared);
    PartsFailIff(texts, Canonical(declared), repos);
    EmptyTogether(declared, Canonical(declared));
  }

  lemma EmptyTogether(a: seq<bytes>, b: seq<bytes>)
    requires forall x :: x in a <==> x in b
    ensures a == [] <==> b == []
  {
    if a != [] { assert a[0] in b; }
    if b != [] { assert b[0] in a; }
  }

  /** Two bindings are equal if and only if the same repositories are declared, in whatever order and
      however often, and each has the same head and the same listing. */
  lemma BindingIff(texts: Texts, a: seq<bytes>, ra: Repos, b: seq<bytes>, rb: Repos)
    requires Plain(texts, a, ra) && Plain(texts, b, rb) && NoCollision(texts, a, ra, b, rb)
    ensures BindingOf(texts, a, ra) == BindingOf(texts, b, rb) <==>
              (forall rel :: rel in a <==> rel in b) && forall rel :: rel in a ==> SameRepo(ra(rel), rb(rel))
  {
    CanonicalIff(a, b);
    CanonicalMeaning(a);
    CanonicalMeaning(b);
    PlainCanonical(texts, a, ra);
    PlainCanonical(texts, b, rb);
    var ca, cb := Canonical(a), Canonical(b);
    if BindingOf(texts, a, ra) == BindingOf(texts, b, rb) && a != [] && b != [] {
      PartsStart(texts, ca, ra);
      PartsStart(texts, cb, rb);
      HeadCut(texts.canon(ca), PartsOf(texts, ca, ra).value, texts.canon(cb), PartsOf(texts, cb, rb).value);
      PartsSeparate(texts, ca, ra, cb, rb);
    }
    if (forall rel :: rel in a <==> rel in b) && forall rel :: rel in a ==> SameRepo(ra(rel), rb(rel)) {
      PartsAlike(texts, ca, ra, rb);
      EmptyTogether(a, b);
    }
  }

  /** A tree captured with its nested repositories has another identity exactly if another set of them
      is declared, or one of them has another head or listing. */
  lemma IdentityKnowsNested(texts: Texts, w: Capture.World, a: seq<bytes>, ra: Repos, b: seq<bytes>, rb: Repos)
    requires Plain(texts, a, ra) && Plain(texts, b, rb) && NoCollision(texts, a, ra, b, rb)
    requires Identity.StaticCapture(w).Ok?
    ensures BindingOf(texts, a, ra).Ok? && BindingOf(texts, b, rb).Ok?
    ensures var c := Identity.StaticCapture(w).value;
            Identity.Bound(c, BindingOf(texts, a, ra).value).identity == Identity.Bound(c, BindingOf(texts, b, rb).value).identity
            <==> (forall rel :: rel in a <==> rel in b) && forall rel :: rel in a ==> SameRepo(ra(rel), rb(rel))
  {
    BindingFailsIff(texts, a, ra);
    BindingFailsIff(texts, b, rb);
    BindingIff(texts, a, ra, b, rb);
    Identity.SameIdentityIff(w, w, BindingOf(texts, a, ra).value, BindingOf(texts, b, rb).value);
  }

  // ---------- the hashed listing ----------

  predicate Fields(fields: seq<bytes>) {
    forall f :: f in fields ==> f != [] && 0 !in f
  }

  lemma FieldsTail(fields: seq<bytes>)
    requires Fields(fields) && fields != []
    ensures Fields(fields[1..]) && fields[0] != [] && 0 !in fields[0]
  {
    assert fields[0] in fields && forall f :: f in fields[1..] ==> f in fields;
  }

  /** Fields, an empty one, and what follows. */
  function Parted(f: seq<bytes>, x: seq<bytes>): seq<bytes> {
    f + [[]] + x
  }

  lemma PartedStep(f: seq<bytes>, x: seq<bytes>)
    requires Fields(f)
    ensures Parted(f, x)[0] == [] <==> f == []
    ensures f == [] ==> Parted(f, x) == [[]] + x && Parted(f, x)[1..] == x
    ensures f != [] ==> Parted(f, x) == [f[0]] + Parted(f[1..], x) && Parted(f, x)[1..] == Parted(f[1..], x)
  {
    if f != [] {
      FieldsTail(f);
    }
  }

  lemma TextStep(f: seq<bytes>, text: bytes)
    requires f != []
    ensures Terminated(f) + [0] + text == f[0] + [0] + (Terminated(f[1..]) + [0] + text)
  {
  }

  lemma {:induction false} SplitListing(f: seq<bytes>, u: seq<bytes>)
    requires Fields(f) && Fields(u)
    ensures Split(Terminated(f) + [0] + Terminated(u), 0) == Parted(f, u + [[]])
  {
    PartedStep(f, u + [[]]);
    if f == [] {
      SplitTerminated(u);
      SplitPrepend([], Terminated(u), 0);
      assert Terminated(f) + [0] + Terminated(u) == [] + [0] + Terminated(u);
    } else {
      FieldsTail(f);
      SplitListing(f[1..], u);
      TextStep(f, Terminated(u));
      SplitPrepend(f[0], Terminated(f[1..]) + [0] + Terminated(u), 0);
    }
  }

  lemma {:induction false} FirstEmpty(f: seq<bytes>, x: seq<bytes>, g: seq<bytes>, y: seq<bytes>)
    requires Fields(f) && Fields(g) && Parted(f, x) == Parted(g, y)
    ensures f == g && x == y
  {
    PartedStep(f, x);
    PartedStep(g, y);
    if f != [] && g != [] {
      FieldsTail(f);
      FieldsTail(g);
      FirstEmpty(f[1..], x, g[1..], y);
      assert f == [Parted(f, x)[0]] + f[1..] && g == [Parted(g, y)[0]] + g[1..];
    }
  }

  lemma SameBefore(u: seq<bytes>, v: seq<bytes>, last: bytes)
    requires u + [last] == v + [last]
    ensures u == v
  {
    assert u == (u + [last])[..|u|] && v == (v + [last])[..|v|];
  }

  /** The two halves of a listing are hashed with one zero byte between them, and that loses nothing of
      listings as Git prints them. */
  lemma ListingTextSeparates(f: seq<bytes>, u: seq<bytes>, g: seq<bytes>, v: seq<bytes>, head: bytes)
    requires Fields(f) && Fields(u) && Fields(g) && Fields(v)
    ensures ListingText(Repo(head, Terminated(f), Terminated(u))) == ListingText(Repo(head, Terminated(g), Terminated(v)))
       <==> f == g && u == v
  {
    if ListingText(Repo(head, Terminated(f), Terminated(u))) == ListingText(Repo(head, Terminated(g), Terminated(v))) {
      SplitListing(f, u);
      SplitListing(g, v);
      FirstEmpty(f, u + [[]], g, v + [[]]);
      SameBefore(u, v, []);
    }
  }
}
