/** The no-Git tree walk: the explicit-stack `_iter_no_git` (tools/freshness.py) and the
    recursive `visit` of the oracle (tools/freshness_golden_v1.py). */
module NoGitWalk {
  import opened Outcome
  import opened ByteStrings
  import opened Framing
  import opened GitDelta
  import opened Capture

  /** A directory lists its entries in whatever order the file system enumerates them. `Gone`
      cannot be stat'ed, `Unreadable` is a regular file whose read fails, `Closed` a directory
      that cannot be enumerated. */
  datatype Tree =
    | Regular(executable: bool, content: bytes)
    | Symlink(target: bytes)
    | Folder(entries: seq<Entry>)
    | Socket
    | Gone
    | Unreadable
    | Closed

  datatype Entry = Entry(name: bytes, node: Tree)

  /** The excluded directory names and root file names; the live walk and the oracle differ in
      them, so every statement holds for any choice. */
  datatype Exclusions = Exclusions(folders: set<bytes>, rootFiles: set<bytes>)

  function NameOf(e: Entry): bytes { e.name }

  function Listed(t: Tree): seq<Entry>
    requires t.Folder?
  {
    SortBy(t.entries, NameOf)
  }

  function PathUnder(prefix: bytes, name: bytes): bytes {
    if prefix == [] then name else prefix + [47] + name
  }

  datatype Treatment = Skip | Emit(record: Record) | Descend | Fail

  /** What both walks do with one entry, in the order of their tests. */
  function Treat(ex: Exclusions, prefix: bytes, e: Entry): Treatment {
    var root := prefix == [];
    var path := PathUnder(prefix, e.name);
    if e.node.Gone? then Fail
    else if (e.node.Folder? || e.node.Closed?) && ((root && e.name == SAIPEN) || e.name in ex.folders) then Skip
    else if root && e.name in ex.rootFiles then Skip
    else match e.node
      case Symlink(target) => Emit(Record(KIND_LINK, path, MODE_LINK, target))
      case Folder(_) => Descend
      case Regular(executable, content) =>
        Emit(Record(KIND_FILE, path, if executable then MODE_EXECUTABLE else MODE_FILE, content))
      case _ => Fail
  }

  /** Concatenation of two walks that may both fail. */
  function Then(a: Option<seq<Record>>, b: Option<seq<Record>>): Option<seq<Record>> {
    match (a, b)
    case (Some(x), Some(y)) => Some(x + y)
    case _ => None
  }

  lemma ThenAssociative(a: Option<seq<Record>>, b: Option<seq<Record>>, c: Option<seq<Record>>)
    ensures Then(Then(a, b), c) == Then(a, Then(b, c))
  {
    if a.Some? && b.Some? && c.Some? {
      assert a.value + b.value + c.value == a.value + (b.value + c.value);
    }
  }

  lemma ThenUnits(a: Option<seq<Record>>)
    ensures Then(Some([]), a) == a == Then(a, Some([]))
  {
    if a.Some? {
      assert [] + a.value == a.value == a.value + [];
    }
  }

  ghost predicate Inside(es: seq<Entry>, t: Tree) {
    forall e :: e in es ==> e.node < t
  }

  lemma ListedInside(t: Tree)
    requires t.Folder?
    ensures Inside(Listed(t), t)
  {
    forall e | e in Listed(t) ensures e.node < t {
      SortIsPermutation(t.entries, NameOf);
      assert e in multiset(Listed(t));
      assert e in t.entries;
    }
  }

  // ---------- the oracle's recursion ----------

  function Visit(ex: Exclusions, prefix: bytes, t: Tree): Option<seq<Record>>
    requires t.Folder?
    decreases t, 1, 0
  {
    ListedInside(t);
    VisitEntries(ex, prefix, t, Listed(t))
  }

  function VisitEntries(ex: Exclusions, prefix: bytes, t: Tree, es: seq<Entry>): Option<seq<Record>>
    requires Inside(es, t)
    decreases t, 0, |es|
  {
    if es == [] then Some([])
    else
      assert es[0] in es;
      var first := match Treat(ex, prefix, es[0])
        case Skip => Some([])
        case Fail => None
        case Emit(r) => Some([r])
        case Descend => Visit(ex, PathUnder(prefix, es[0].name), es[0].node);
      Then(first, VisitEntries(ex, prefix, t, es[1..]))
  }

  // ---------- the order of the explicit stack ----------

  /** What an entry adds to its directory's own records. */
  function Leaf(ex: Exclusions, prefix: bytes, e: Entry): Option<seq<Record>> {
    match Treat(ex, prefix, e)
    case Emit(r) => Some([r])
    case Fail => None
    case _ => Some([])
  }

  /** The records of a directory itself, in name order. */
  function Files(ex: Exclusions, prefix: bytes, es: seq<Entry>): Option<seq<Record>> {
    if es == [] then Some([])
    else Then(Files(ex, prefix, es[..|es| - 1]), Leaf(ex, prefix, es[|es| - 1]))
  }

  /** What an entry adds once it is popped. */
  function Branch(ex: Exclusions, prefix: bytes, e: Entry): Option<seq<Record>>
    decreases e.node, 2, 0
  {
    if Treat(ex, prefix, e).Descend? then Walked(ex, PathUnder(prefix, e.name), e.node) else Some([])
  }

  /** Its subdirectories: the one pushed last is popped first. */
  function Folders(ex: Exclusions, prefix: bytes, t: Tree, es: seq<Entry>): Option<seq<Record>>
    requires Inside(es, t)
    decreases t, 0, |es|
  {
    if es == [] then Some([])
    else
      assert es[|es| - 1] in es;
      Then(Branch(ex, prefix, es[|es| - 1]), Folders(ex, prefix, t, es[..|es| - 1]))
  }

  /** What the live walk emits below one directory. */
  function Walked(ex: Exclusions, prefix: bytes, t: Tree): Option<seq<Record>>
    requires t.Folder?
    decreases t, 1, 0
  {
    ListedInside(t);
    Then(Files(ex, prefix, Listed(t)), Folders(ex, prefix, t, Listed(t)))
  }

  // ---------- the size of a tree ----------

  function Size(t: Tree): nat
    decreases t, 1, 0
  {
    if t.Folder? then 1 + SizeAll(t, t.entries) else 1
  }

  function SizeAll(t: Tree, es: seq<Entry>): nat
    requires Inside(es, t)
    decreases t, 0, |es|
  {
    if es == [] then 0 else assert es[0] in es; Size(es[0].node) + SizeAll(t, es[1..])
  }

  lemma {:induction false} InsertSize(t: Tree, x: Entry, es: seq<Entry>)
    requires Inside(es, t) && x.node < t
    ensures Inside(Insert(x, es, NameOf), t)
    ensures SizeAll(t, Insert(x, es, NameOf)) == Size(x.node) + SizeAll(t, es)
  {
    InsertIsPermutation(x, es, NameOf);
    forall e | e in Insert(x, es, NameOf) ensures e.node < t {
      assert e in multiset(Insert(x, es, NameOf));
      assert e == x || e in es;
    }
    if es != [] && Below(NameOf(es[0]), NameOf(x)) {
      InsertSize(t, x, es[1..]);
      assert Insert(x, es, NameOf)[1..] == Insert(x, es[1..], NameOf);
    } else {
      assert ([x] + es)[1..] == es;
    }
  }

  lemma {:induction false} SortSize(t: Tree, es: seq<Entry>)
    requires Inside(es, t)
    ensures Inside(SortBy(es, NameOf), t) && SizeAll(t, SortBy(es, NameOf)) == SizeAll(t, es)
  {
    if es != [] {
      assert es[0] in es;
      SortSize(t, es[1..]);
      InsertSize(t, es[0], SortBy(es[1..], NameOf));
    }
  }

  // ---------- the walk itself ----------

  /** A directory waiting on the stack. */
  datatype Waiting = Waiting(prefix: bytes, folder: Tree)

  predicate AllFolders(stack: seq<Waiting>) {
    forall f :: f in stack ==> f.folder.Folder?
  }

  /** What the stack will still emit, its top first. */
  ghost function Remaining(ex: Exclusions, stack: seq<Waiting>): Option<seq<Record>>
    requires AllFolders(stack)
  {
    if stack == [] then Some([])
    else
      var top := stack[|stack| - 1];
      assert top in stack;
      Then(Walked(ex, top.prefix, top.folder), Remaining(ex, stack[..|stack| - 1]))
  }

  ghost function StackSize(stack: seq<Waiting>): nat {
    if stack == [] then 0 else Size(stack[|stack| - 1].folder) + StackSize(stack[..|stack| - 1])
  }

  lemma PushRemaining(ex: Exclusions, stack: seq<Waiting>, f: Waiting)
    requires AllFolders(stack) && f.folder.Folder?
    ensures AllFolders(stack + [f])
    ensures Remaining(ex, stack + [f]) == Then(Walked(ex, f.prefix, f.folder), Remaining(ex, stack))
    ensures StackSize(stack + [f]) == Size(f.folder) + StackSize(stack)
  {
    assert (stack + [f])[..|stack|] == stack;
  }

  lemma {:induction false} FilesPrefix(ex: Exclusions, prefix: bytes, es: seq<Entry>, k: nat)
    requires k <= |es| && Files(ex, prefix, es).Some?
    ensures Files(ex, prefix, es[..k]).Some? && Files(ex, prefix, es[..k]).value <= Files(ex, prefix, es).value
  {
    if k < |es| {
      var init := es[..|es| - 1];
      FilesPrefix(ex, prefix, init, k);
      assert init[..k] == es[..k];
    } else {
      assert es[..k] == es;
    }
  }

  lemma FramesPrefix(a: seq<Record>, b: seq<Record>)
    requires a <= b && Frames(a).Err?
    ensures Frames(b).Err?
  {
    assert b == a + b[|a|..];
    FramesAppend(a, b[|a|..]);
  }

  /** Walking fails where the tree does, or where an emitted record cannot be framed. */
  ghost predicate Unframable(rs: Option<seq<Record>>, framed: bool) {
    rs.None? || (framed && Frames(rs.value).Err?)
  }

  /** After `k` of a directory's entries: what was emitted, and what was pushed on `stack`. */
  ghost predicate Progress(ex: Exclusions, prefix: bytes, t: Tree, es: seq<Entry>, k: nat,
                           stack: seq<Waiting>, pushed: seq<Waiting>, recs: seq<Record>)
  {
    && k <= |es| && Inside(es, t) && Inside(es[..k], t) && Inside(es[k..], t)
    && Files(ex, prefix, es[..k]) == Some(recs)
    && AllFolders(stack) && AllFolders(pushed)
    && Remaining(ex, pushed) == Then(Folders(ex, prefix, t, es[..k]), Remaining(ex, stack))
    && StackSize(pushed) + SizeAll(t, es[k..]) <= StackSize(stack) + SizeAll(t, es)
  }

  lemma NoProgress(ex: Exclusions, prefix: bytes, t: Tree, es: seq<Entry>, stack: seq<Waiting>)
    requires Inside(es, t) && AllFolders(stack)
    ensures Progress(ex, prefix, t, es, 0, stack, stack, [])
  {
    assert es[..0] == [] && es[0..] == es;
    ThenUnits(Remaining(ex, stack));
  }

  lemma SliceStep(t: Tree, es: seq<Entry>, k: nat)
    requires k < |es| && Inside(es, t)
    ensures es[..k + 1][..k] == es[..k] && es[..k + 1][k] == es[k]
    ensures Inside(es[..k + 1], t) && Inside(es[k + 1..], t) && Inside(es[k..], t)
    ensures es[k] in es && SizeAll(t, es[k..]) == Size(es[k].node) + SizeAll(t, es[k + 1..])
  {
    assert es[k..][1..] == es[k + 1..];
  }

  lemma SkipProgress(ex: Exclusions, prefix: bytes, t: Tree, es: seq<Entry>, k: nat,
                     stack: seq<Waiting>, pushed: seq<Waiting>, recs: seq<Record>)
    requires k < |es| && Progress(ex, prefix, t, es, k, stack, pushed, recs) && Treat(ex, prefix, es[k]).Skip?
    ensures Progress(ex, prefix, t, es, k + 1, stack, pushed, recs)
  {
    SliceStep(t, es, k);
    ThenUnits(Some(recs));
    ThenUnits(Folders(ex, prefix, t, es[..k]));
  }

  lemma EmitProgress(ex: Exclusions, prefix: bytes, t: Tree, es: seq<Entry>, k: nat,
                     stack: seq<Waiting>, pushed: seq<Waiting>, recs: seq<Record>, record: Record)
    requires k < |es| && Progress(ex, prefix, t, es, k, stack, pushed, recs)
    requires Treat(ex, prefix, es[k]) == Emit(record)
    ensures Progress(ex, prefix, t, es, k + 1, stack, pushed, recs + [record])
  {
    SliceStep(t, es, k);
    ThenUnits(Folders(ex, prefix, t, es[..k]));
  }

  lemma PushProgress(ex: Exclusions, prefix: bytes, t: Tree, es: seq<Entry>, k: nat,
                     stack: seq<Waiting>, pushed: seq<Waiting>, recs: seq<Record>)
    requires k < |es| && Progress(ex, prefix, t, es, k, stack, pushed, recs) && Treat(ex, prefix, es[k]).Descend?
    ensures Progress(ex, prefix, t, es, k + 1, stack,
                     pushed + [Waiting(PathUnder(prefix, es[k].name), es[k].node)], recs)
  {
    SliceStep(t, es, k);
    ThenUnits(Some(recs));
    var f := Waiting(PathUnder(prefix, es[k].name), es[k].node);
    PushRemaining(ex, pushed, f);
    ThenAssociative(Walked(ex, f.prefix, f.folder), Folders(ex, prefix, t, es[..k]), Remaining(ex, stack));
  }

  /** A failing entry, or an unframable one, fails the whole directory. */
  lemma StopsAt(ex: Exclusions, prefix: bytes, t: Tree, es: seq<Entry>, k: nat,
                stack: seq<Waiting>, pushed: seq<Waiting>, recs: seq<Record>, framed: bool)
    requires k < |es| && Progress(ex, prefix, t, es, k, stack, pushed, recs)
    requires var what := Treat(ex, prefix, es[k]);
             what.Fail? || (framed && what.Emit? && Frame(what.record).Err?)
    ensures Unframable(Files(ex, prefix, es), framed)
  {
    SliceStep(t, es, k);
    if Files(ex, prefix, es).Some? {
      FilesPrefix(ex, prefix, es, k + 1);
      var record := Treat(ex, prefix, es[k]).record;
      assert Files(ex, prefix, es[..k + 1]) == Some(recs + [record]);
      FramesAppend(recs, [record]);
      FramesSingle(record);
      FramesPrefix(recs + [record], Files(ex, prefix, es).value);
    }
  }

  /** The body of the outer loop: one directory's entries in name order. */
  method WalkFolder(ex: Exclusions, prefix: bytes, t: Tree, stack: seq<Waiting>, sink: DigestSink?)
    returns (r: Result<seq<Waiting>, Error>, found: seq<Evidence>, ghost recs: seq<Record>)
    requires t.Folder? && AllFolders(stack) && Inside(Listed(t), t)
    modifies if sink == null then {} else {sink}
    ensures r.Ok? ==> Progress(ex, prefix, t, Listed(t), |Listed(t)|, stack, r.value, recs) && found == Evidences(recs)
    ensures r.Ok? && sink != null ==> Fed(old(sink.fed), sink.fed, recs)
    ensures r.Err? ==> Unframable(Files(ex, prefix, Listed(t)), sink != null)
  {
    var es := Listed(t);
    var pushed := stack;
    found, recs := [], [];
    NoProgress(ex, prefix, t, es, stack);
    if sink != null {
      FedNothing(sink.fed);
    }
    for k := 0 to |es|
      invariant Progress(ex, prefix, t, es, k, stack, pushed, recs) && found == Evidences(recs)
      invariant sink != null ==> Fed(old(sink.fed), sink.fed, recs)
    {
      var e := es[k];
      var what := Treat(ex, prefix, e);
      match what {
        case Fail =>
          StopsAt(ex, prefix, t, es, k, stack, pushed, recs, sink != null);
          return Err(CannotRead(e.name)), found, recs;
        case Skip =>
          SkipProgress(ex, prefix, t, es, k, stack, pushed, recs);
        case Descend =>
          PushProgress(ex, prefix, t, es, k, stack, pushed, recs);
          pushed := pushed + [Waiting(PathUnder(prefix, e.name), e.node)];
        case Emit(record) =>
          if sink != null {
            ghost var fed := sink.fed;
            var seen := sink.Observe(record);
            if seen.Err? {
              StopsAt(ex, prefix, t, es, k, stack, pushed, recs, true);
              return Err(BadFrame(seen.error)), found, recs;
            }
            FedOne(fed, record);
            FedMore(old(sink.fed), fed, recs, sink.fed, [record]);
          }
          EmitProgress(ex, prefix, t, es, k, stack, pushed, recs, record);
          EvidencesAppend(recs, [record]);
          assert Evidences([record]) == [EvidenceOf(record)];
          found, recs := found + [EvidenceOf(record)], recs + [record];
      }
    }
    r := Ok(pushed);
  }

  /** One directory done: its own records are out, its subdirectories are next. */
  lemma FolderDone(ex: Exclusions, prefix: bytes, t: Tree, stack: seq<Waiting>, pushed: seq<Waiting>,
                   recs: seq<Record>, out: seq<Record>)
    requires t.Folder? && Inside(Listed(t), t) && AllFolders(stack)
    requires Progress(ex, prefix, t, Listed(t), |Listed(t)|, stack, pushed, recs)
    ensures Then(Some(out + recs), Remaining(ex, pushed))
         == Then(Some(out), Then(Walked(ex, prefix, t), Remaining(ex, stack)))
    ensures StackSize(pushed) < StackSize(stack) + Size(t)
  {
    var es := Listed(t);
    assert es[..|es|] == es;
    SortSize(t, t.entries);
    ThenAssociative(Some(recs), Folders(ex, prefix, t, es), Remaining(ex, stack));
    ThenAssociative(Some(out), Some(recs), Remaining(ex, pushed));
  }

  lemma FolderStops(ex: Exclusions, prefix: bytes, t: Tree, stack: seq<Waiting>, out: seq<Record>, framed: bool)
    requires t.Folder? && AllFolders(stack) && Unframable(Files(ex, prefix, Listed(t)), framed)
    ensures Unframable(Then(Some(out), Then(Walked(ex, prefix, t), Remaining(ex, stack))), framed)
  {
    ListedInside(t);
    var files, folders := Files(ex, prefix, Listed(t)), Folders(ex, prefix, t, Listed(t));
    if files.Some? && folders.Some? && Remaining(ex, stack).Some? {
      var rest := folders.value + Remaining(ex, stack).value;
      assert out + (files.value + folders.value + Remaining(ex, stack).value) == out + files.value + rest;
      FramesAppend(out, files.value);
      FramesAppend(out + files.value, rest);
    }
  }

  /** `recs` are out and the stack holds the rest. */
  ghost predicate Midway(ex: Exclusions, root: Tree, stack: seq<Waiting>, recs: seq<Record>) {
    root.Folder? && AllFolders(stack) && Then(Some(recs), Remaining(ex, stack)) == Walked(ex, [], root)
  }

  lemma MidwayStart(ex: Exclusions, root: Tree)
    requires root.Folder?
    ensures Midway(ex, root, [Waiting([], root)], [])
  {
    PushRemaining(ex, [], Waiting([], root));
    assert [] + [Waiting([], root)] == [Waiting([], root)];
    ThenUnits(Walked(ex, [], root));
  }

  lemma MidwayTop(ex: Exclusions, root: Tree, stack: seq<Waiting>, recs: seq<Record>)
    requires Midway(ex, root, stack, recs) && stack != []
    ensures var top, rest := stack[|stack| - 1], stack[..|stack| - 1];
            top.folder.Folder? && AllFolders(rest) && Inside(Listed(top.folder), top.folder)
  {
    var top := stack[|stack| - 1];
    assert top in stack;
    ListedInside(top.folder);
  }

  lemma MidwayStep(ex: Exclusions, root: Tree, stack: seq<Waiting>, recs: seq<Record>, top: Waiting,
                   rest: seq<Waiting>, pushed: seq<Waiting>, more: seq<Record>)
    requires Midway(ex, root, stack, recs) && stack == rest + [top] && top.folder.Folder?
    requires Progress(ex, top.prefix, top.folder, Listed(top.folder), |Listed(top.folder)|, rest, pushed, more)
    ensures Midway(ex, root, pushed, recs + more)
    ensures StackSize(pushed) < StackSize(stack)
  {
    PushRemaining(ex, rest, top);
    FolderDone(ex, top.prefix, top.folder, rest, pushed, more, recs);
  }

  lemma MidwayStop(ex: Exclusions, root: Tree, stack: seq<Waiting>, recs: seq<Record>, top: Waiting,
                   rest: seq<Waiting>, framed: bool)
    requires Midway(ex, root, stack, recs) && stack == rest + [top] && top.folder.Folder? && AllFolders(rest)
    requires Unframable(Files(ex, top.prefix, Listed(top.folder)), framed)
    ensures Unframable(Walked(ex, [], root), framed)
  {
    PushRemaining(ex, rest, top);
    FolderStops(ex, top.prefix, top.folder, rest, recs, framed);
  }

  lemma MidwayEnd(ex: Exclusions, root: Tree, recs: seq<Record>)
    requires Midway(ex, root, [], recs)
    ensures Walked(ex, [], root) == Some(recs)
  {
    ThenUnits(Some(recs));
  }

  /** `_iter_no_git`: directories wait on a stack, and the walk ends when it is empty. */
  method Walk(ex: Exclusions, root: Tree, sink: DigestSink?)
    returns (r: Result<seq<Evidence>, Error>, ghost recs: seq<Record>)
    requires root.Folder?
    modifies if sink == null then {} else {sink}
    ensures r.Ok? ==> Walked(ex, [], root) == Some(recs) && r.value == Evidences(recs)
    ensures r.Ok? && sink != null ==> Fed(old(sink.fed), sink.fed, recs)
    ensures r.Err? ==> Unframable(Walked(ex, [], root), sink != null)
  {
    var stack := [Waiting([], root)];
    MidwayStart(ex, root);
    var out: seq<Evidence> := [];
    recs := [];
    if sink != null {
      FedNothing(sink.fed);
    }
    while stack != []
      invariant Midway(ex, root, stack, recs) && out == Evidences(recs)
      invariant sink != null ==> Fed(old(sink.fed), sink.fed, recs)
      decreases StackSize(stack)
    {
      MidwayTop(ex, root, stack, recs);
      var top, rest := stack[|stack| - 1], stack[..|stack| - 1];
      assert stack == rest + [top];
      ghost var fed := if sink != null then sink.fed else [];
      var next, found, more := WalkFolder(ex, top.prefix, top.folder, rest, sink);
      if next.Err? {
        MidwayStop(ex, root, stack, recs, top, rest, sink != null);
        return Err(next.error), recs;
      }
      MidwayStep(ex, root, stack, recs, top, rest, next.value, more);
      EvidencesAppend(recs, more);
      if sink != null {
        FedMore(old(sink.fed), fed, recs, sink.fed, more);
      }
      out, recs := out + found, recs + more;
      stack := next.value;
    }
    MidwayEnd(ex, root, recs);
    r := Ok(out);
  }
}
