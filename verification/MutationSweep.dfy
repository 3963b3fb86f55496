/** The sweep over all mutation cases (tools/audit_checks.py `mutation_sweep_probe`): selection,
    strided chunks, one copy a worker, and the accounting. */
module MutationSweep {
  import opened Outcome
  import opened ByteStrings
  import opened MutationCase

  // ---------- what one case is worth ----------

  datatype Kind = NotExercised | Always | Skipped(reason: Option<bytes>) | Dead | Live | Crashed

  /** A case tried on a fresh copy of its own. */
  function Trial(lab: Lab, pristine: Tree, c: Case): Kind {
    var (after, v) := Apply(lab, pristine, c.rel, c.mutation);
    match v
    case Raised => Crashed
    case NotApplied => Skipped(None)
    case Because(reason) => Skipped(Some(reason))
    case Applied => if lab.says(lab.output(after, c.gate), c.expected, c.gate) then Live else Dead
  }

  predicate Absent(lab: Lab, pristine: Tree, c: Case) {
    c.needs.Some? && c.needs.value != [] && lab.reports(lab.output(pristine, None), c.needs.value)
  }

  predicate SaidAnyway(lab: Lab, pristine: Tree, c: Case) {
    lab.says(lab.output(pristine, c.gate), c.expected, c.gate)
  }

  function Classified(lab: Lab, pristine: Tree, c: Case): Kind {
    if Absent(lab, pristine, c) then NotExercised
    else if SaidAnyway(lab, pristine, c) then Always
    else Trial(lab, pristine, c)
  }

  datatype Skip = Skip(title: bytes, reason: Option<bytes>)

  /** What each list keeps of a case. */
  function DeadOf(lab: Lab, pristine: Tree): Case -> Option<bytes> {
    c => if Trial(lab, pristine, c).Dead? then Some(c.title) else None
  }

  function SkipOf(lab: Lab, pristine: Tree): Case -> Option<Skip> {
    c => var k := Trial(lab, pristine, c); if k.Skipped? then Some(Skip(c.title, k.reason)) else None
  }

  function Select<T, U>(s: seq<T>, f: T -> Option<U>): seq<U> {
    if s == [] then []
    else Select(s[..|s| - 1], f) + (match f(s[|s| - 1]) case None => [] case Some(u) => [u])
  }

  lemma SelectMore<T, U>(s: seq<T>, x: T, f: T -> Option<U>)
    ensures Select(s + [x], f) == Select(s, f) + (match f(x) case None => [] case Some(u) => [u])
  {
    assert (s + [x])[..|s|] == s;
  }

  // ---------- strided chunks ----------

  /** `s[i::w]`. */
  function Strided<T>(s: seq<T>, i: nat, w: nat): seq<T>
    requires w > 0
    decreases |s| - i
  {
    if i >= |s| then [] else [s[i]] + Strided(s, i + w, w)
  }

  lemma {:induction false} StridedMore<T>(s: seq<T>, x: T, i: nat, w: nat)
    requires w > 0
    ensures Strided(s + [x], i, w)
         == Strided(s, i, w) + if i <= |s| && (|s| - i) % w == 0 then [x] else []
    decreases |s| - i
  {
    if i > |s| {
    } else if i == |s| {
      assert Strided(s + [x], i + w, w) == [];
    } else {
      StridedMore(s, x, i + w, w);
      if i + w <= |s| {
        assert (|s| - i) % w == (|s| - (i + w)) % w by { ModMinus(|s| - i, w); }
      } else {
        assert (|s| - i) % w != 0 by { SmallMod(|s| - i, w); }
      }
    }
  }

  lemma ModMinus(a: nat, w: nat)
    requires w > 0 && a >= w
    ensures a % w == (a - w) % w
  {
    var q := a / w;
    assert a == w * q + a % w;
    assert a - w == w * (q - 1) + a % w;
    ModUnique(a - w, w, q - 1, a % w);
  }

  lemma ModUnique(a: nat, w: nat, q: int, r: nat)
    requires w > 0 && r < w && a == w * q + r
    ensures a % w == r
  {
    var p := a / w;
    assert a == w * p + a % w;
    assert w * (p - q) == r - a % w;
    MulFar(w, p - q);
  }

  lemma MulFar(w: nat, d: int)
    ensures d >= 1 ==> w * d >= w
    ensures d <= -1 ==> w * d + w <= 0
  {
  }

  lemma SmallMod(a: nat, w: nat)
    requires 0 < a < w
    ensures a % w == a
  {
  }

  /** What one chunk selects. */
  ghost function ChunkBag<T, U>(s: seq<T>, w: nat, f: T -> Option<U>): nat -> multiset<U>
    requires w > 0
  {
    (i: nat) => multiset(Select(Strided(s, i, w), f))
  }

  ghost function SumFirst<U>(bag: nat -> multiset<U>, n: nat): multiset<U> {
    if n == 0 then multiset{} else SumFirst(bag, n - 1) + bag(n - 1)
  }

  lemma {:induction false} SumFirstMore<U>(bag: nat -> multiset<U>, more: nat -> multiset<U>, n: nat, r: nat, extra: multiset<U>)
    requires forall i: nat :: i < n ==> more(i) == bag(i) + if i == r then extra else multiset{}
    ensures SumFirst(more, n) == SumFirst(bag, n) + if r < n then extra else multiset{}
  {
    if n > 0 {
      SumFirstMore(bag, more, n - 1, r, extra);
    }
  }

  /** One more case goes to the chunk of its position, and to no other. */
  lemma ChunkBagMore<T, U>(s: seq<T>, x: T, w: nat, f: T -> Option<U>, i: nat)
    requires i < w
    ensures ChunkBag(s + [x], w, f)(i)
         == ChunkBag(s, w, f)(i) + if i == |s| % w then multiset(Select([x], f)) else multiset{}
  {
    StridedGets(s, x, i, w);
    SelectOneOrNone(Strided(s, i, w), x, f, i == |s| % w);
  }

  lemma StridedGets<T>(s: seq<T>, x: T, i: nat, w: nat)
    requires i < w
    ensures Strided(s + [x], i, w) == Strided(s, i, w) + if i == |s| % w then [x] else []
  {
    StridedMore(s, x, i, w);
    ChunkOf(|s|, i, w);
  }

  lemma SelectOneOrNone<T, U>(s: seq<T>, x: T, f: T -> Option<U>, one: bool)
    ensures multiset(Select(s + if one then [x] else [], f))
         == multiset(Select(s, f)) + if one then multiset(Select([x], f)) else multiset{}
  {
    SelectMore(s, x, f);
    SelectMore([], x, f);
    assert [] + [x] == [x] && s + [] == s;
  }

  /** Position `a` belongs to the chunk that starts at `a % w`. */
  lemma ChunkOf(a: nat, i: nat, w: nat)
    requires i < w
    ensures i <= a && (a - i) % w == 0 <==> a % w == i
  {
    var q := a / w;
    assert a == w * q + a % w;
    if a % w == i {
      assert w * q >= 0;
      ModUnique(a - i, w, q, 0);
    }
    if i <= a && (a - i) % w == 0 {
      var p := (a - i) / w;
      assert a - i == w * p;
      ModUnique(a, w, p, i);
    }
  }

  lemma {:induction false} NoneFromNothing<T, U>(w: nat, n: nat, f: T -> Option<U>)
    requires w > 0
    ensures SumFirst(ChunkBag([], w, f), n) == multiset{}
  {
    if n > 0 {
      NoneFromNothing(w, n - 1, f);
      assert Strided<T>([], n - 1, w) == [];
    }
  }

  /** The strided chunks partition the cases: together they select what the whole list does. */
  lemma {:induction false} ChunksPartition<T, U>(s: seq<T>, w: nat, f: T -> Option<U>)
    requires w > 0
    ensures SumFirst(ChunkBag(s, w, f), w) == multiset(Select(s, f))
  {
    if s == [] {
      NoneFromNothing(w, w, f);
    } else {
      var front, last := s[..|s| - 1], s[|s| - 1];
      assert s == front + [last];
      ChunksPartition(front, w, f);
      forall i: nat | i < w
        ensures ChunkBag(s, w, f)(i) == ChunkBag(front, w, f)(i) + if i == |front| % w then multiset(Select([last], f)) else multiset{}
      {
        ChunkBagMore(front, last, w, f, i);
      }
      SumFirstMore(ChunkBag(front, w, f), ChunkBag(s, w, f), w, |front| % w, multiset(Select([last], f)));
      SelectMore(front, last, f);
      SelectMore([], last, f);
      assert [] + [last] == [last];
    }
  }

  /** Workers finish at any time: what a set of chunks selects, in whatever order. */
  ghost function SumSet<U>(bag: nat -> multiset<U>, chunks: set<nat>): multiset<U> {
    if chunks == {} then multiset{}
    else
      var i :| i in chunks;
      bag(i) + SumSet(bag, chunks - {i})
  }

  lemma {:induction false} SumSetTake<U>(bag: nat -> multiset<U>, chunks: set<nat>, i: nat)
    requires i in chunks
    ensures SumSet(bag, chunks) == bag(i) + SumSet(bag, chunks - {i})
  {
    var j :| j in chunks && SumSet(bag, chunks) == bag(j) + SumSet(bag, chunks - {j});
    if j != i {
      SumSetTake(bag, chunks - {j}, i);
      SumSetTake(bag, chunks - {i}, j);
      assert chunks - {j} - {i} == chunks - {i} - {j};
    }
  }

  function Workers(n: nat): (r: set<nat>)
    ensures forall i: nat :: i in r <==> i < n
  {
    if n == 0 then {} else Workers(n - 1) + {n - 1}
  }

  lemma {:induction false} SumSetIsSumFirst<U>(bag: nat -> multiset<U>, n: nat)
    ensures SumSet(bag, Workers(n)) == SumFirst(bag, n)
  {
    if n > 0 {
      SumSetTake(bag, Workers(n), n - 1);
      assert Workers(n) - {n - 1} == Workers(n - 1);
      SumSetIsSumFirst(bag, n - 1);
    }
  }

  // ---------- one worker ----------

  predicate AnyCrash(lab: Lab, pristine: Tree, cases: seq<Case>) {
    exists i :: 0 <= i < |cases| && Trial(lab, pristine, cases[i]).Crashed?
  }

  /** The first loop body of `run_chunk`: the case is tried on the worker's copy, which is then
      the pristine tree again. */
  method RunCase(lab: Lab, ghost pristine: Tree, worker: Worker, c: Case) returns (k: Kind)
    requires worker.tree == pristine && NoLinks(pristine)
    modifies worker
    ensures k == Trial(lab, pristine, c) && worker.tree == pristine
  {
    var files := FilesOf(lab, worker.tree, c.rel, c.mutation);
    var saved := Saved(worker.tree, files);
    RestoreUndoesApply(lab, pristine, c.rel, c.mutation);
    var v := worker.ApplyCase(lab, c.rel, c.mutation);
    match v {
      case Raised => k := Crashed;
      case NotApplied => k := Skipped(None);
      case Because(reason) => k := Skipped(Some(reason));
      case Applied => k := if lab.says(lab.output(worker.tree, c.gate), c.expected, c.gate) then Live else Dead;
    }
    worker.RestoreCaseFiles(saved);
  }

  datatype ChunkReport = Reported(dead: seq<bytes>, skipped: seq<Skip>, error: bool) | Broken

  /** `run_chunk`: one copy serves every case of the chunk, each as if the copy were its own. */
  method RunChunk(lab: Lab, pristine: Tree, chunk: seq<Case>, control: bytes) returns (r: ChunkReport)
    requires NoLinks(pristine) && control == lab.output(pristine, None)
    ensures r == if AnyCrash(lab, pristine, chunk) then Broken
                 else Reported(Select(chunk, DeadOf(lab, pristine)), Select(chunk, SkipOf(lab, pristine)), false)
  {
    var worker := new Worker(pristine);
    var dead: seq<bytes>, skipped: seq<Skip> := [], [];
    if lab.output(worker.tree, None) != control {
      return Reported(dead, skipped, true);
    }
    for i := 0 to |chunk|
      invariant worker.tree == pristine
      invariant !AnyCrash(lab, pristine, chunk[..i])
      invariant dead == Select(chunk[..i], DeadOf(lab, pristine))
      invariant skipped == Select(chunk[..i], SkipOf(lab, pristine))
    {
      var c := chunk[i];
      assert chunk[..i + 1] == chunk[..i] + [c];
      SelectMore(chunk[..i], c, DeadOf(lab, pristine));
      SelectMore(chunk[..i], c, SkipOf(lab, pristine));
      var k := RunCase(lab, pristine, worker, c);
      match k {
        case Crashed => return Broken;
        case Skipped(reason) => skipped := skipped + [Skip(c.title, reason)];
        case Dead => dead := dead + [c.title];
        case _ =>
      }
    }
    assert chunk[..|chunk|] == chunk;
    if lab.output(worker.tree, None) != control {
      return Reported(dead, skipped, true);
    }
    return Reported(dead, skipped, false);
  }

  // ---------- the whole sweep ----------

  datatype Sweep = Sweep(dead: seq<bytes>, skipped: seq<Skip>, always: seq<bytes>, notExercised: seq<bytes>, live: int)

  predicate Runnable(lab: Lab, pristine: Tree, c: Case) {
    !Absent(lab, pristine, c) && !SaidAnyway(lab, pristine, c)
  }

  function RunnableOf(lab: Lab, pristine: Tree): Case -> Option<Case> {
    c => if Runnable(lab, pristine, c) then Some(c) else None
  }

  function AlwaysOf(lab: Lab, pristine: Tree): Case -> Option<bytes> {
    c => if Classified(lab, pristine, c).Always? then Some(c.title) else None
  }

  function NotExercisedOf(lab: Lab, pristine: Tree): Case -> Option<bytes> {
    c => if Classified(lab, pristine, c).NotExercised? then Some(c.title) else None
  }

  function FreshDeadOf(lab: Lab, pristine: Tree): Case -> Option<bytes> {
    c => if Classified(lab, pristine, c).Dead? then Some(c.title) else None
  }

  function FreshSkipOf(lab: Lab, pristine: Tree): Case -> Option<Skip> {
    c => var k := Classified(lab, pristine, c); if k.Skipped? then Some(Skip(c.title, k.reason)) else None
  }

  function LiveOf(lab: Lab, pristine: Tree): Case -> Option<bytes> {
    c => if Classified(lab, pristine, c).Live? then Some(c.title) else None
  }

  /** What the selection has made of the cases seen so far. */
  ghost predicate Selecting(lab: Lab, pristine: Tree, seen: seq<Case>, runnable: seq<Case>, always: seq<bytes>, notExercised: seq<bytes>) {
    runnable == Select(seen, RunnableOf(lab, pristine))
    && always == Select(seen, AlwaysOf(lab, pristine))
    && notExercised == Select(seen, NotExercisedOf(lab, pristine))
  }

  lemma SelectingMoves(lab: Lab, pristine: Tree, seen: seq<Case>, c: Case,
                       runnable: seq<Case>, always: seq<bytes>, notExercised: seq<bytes>)
    requires Selecting(lab, pristine, seen, runnable, always, notExercised)
    ensures Absent(lab, pristine, c) ==>
              Selecting(lab, pristine, seen + [c], runnable, always, notExercised + [c.title])
    ensures !Absent(lab, pristine, c) && SaidAnyway(lab, pristine, c) ==>
              Selecting(lab, pristine, seen + [c], runnable, always + [c.title], notExercised)
    ensures Runnable(lab, pristine, c) ==>
              Selecting(lab, pristine, seen + [c], runnable + [c], always, notExercised)
  {
    SelectMore(seen, c, RunnableOf(lab, pristine));
    SelectMore(seen, c, AlwaysOf(lab, pristine));
    SelectMore(seen, c, NotExercisedOf(lab, pristine));
    TrialIsTried(lab, pristine, c);
    assert runnable + [] == runnable && always + [] == always && notExercised + [] == notExercised;
  }

  lemma TrialIsTried(lab: Lab, pristine: Tree, c: Case)
    ensures Trial(lab, pristine, c) !in {NotExercised, Always}
  {
  }

  /** The selection loop. */
  method Selected(lab: Lab, pristine: Tree, cases: seq<Case>, control: bytes)
    returns (runnable: seq<Case>, always: seq<bytes>, notExercised: seq<bytes>)
    requires control == lab.output(pristine, None)
    ensures Selecting(lab, pristine, cases, runnable, always, notExercised)
  {
    runnable, always, notExercised := [], [], [];
    var controls: map<Option<bytes>, bytes> := map[None := control];
    for i := 0 to |cases|
      invariant forall g :: g in controls ==> controls[g] == lab.output(pristine, g)
      invariant None in controls
      invariant Selecting(lab, pristine, cases[..i], runnable, always, notExercised)
    {
      var c := cases[i];
      assert cases[..i + 1] == cases[..i] + [c];
      SelectingMoves(lab, pristine, cases[..i], c, runnable, always, notExercised);
      if c.needs.Some? && c.needs.value != [] && lab.reports(control, c.needs.value) {
        notExercised := notExercised + [c.title];
        continue;
      }
      if c.gate !in controls {
        controls := controls[c.gate := lab.output(pristine, c.gate)];
      }
      if lab.says(controls[c.gate], c.expected, c.gate) {
        always := always + [c.title];
        continue;
      }
      runnable := runnable + [c];
    }
    assert cases[..|cases|] == cases;
  }

  lemma {:induction false} SelectTwice<T, U>(s: seq<T>, g: T -> Option<T>, f: T -> Option<U>, h: T -> Option<U>)
    requires forall x :: g(x) in {None, Some(x)}
    requires forall x :: h(x) == if g(x).Some? then f(x) else None
    ensures Select(Select(s, g), f) == Select(s, h)
  {
    if s != [] {
      var front, last := s[..|s| - 1], s[|s| - 1];
      assert s == front + [last];
      SelectTwice(front, g, f, h);
      SelectMore(front, last, g);
      SelectMore(front, last, h);
      if g(last).Some? {
        SelectMore(Select(front, g), last, f);
      } else {
        assert Select(front, g) + [] == Select(front, g);
      }
    }
  }

  predicate SomeCrash(lab: Lab, pristine: Tree, cases: seq<Case>) {
    exists i :: 0 <= i < |cases| && Classified(lab, pristine, cases[i]).Crashed?
  }

  /** Every case is counted in exactly one of the five lists. */
  lemma {:induction false} CountedOnce(lab: Lab, pristine: Tree, cases: seq<Case>)
    requires !SomeCrash(lab, pristine, cases)
    ensures |cases| == |Select(cases, LiveOf(lab, pristine))| + |Select(cases, FreshDeadOf(lab, pristine))|
                       + |Select(cases, FreshSkipOf(lab, pristine))| + |Select(cases, AlwaysOf(lab, pristine))|
                       + |Select(cases, NotExercisedOf(lab, pristine))|
  {
    if cases != [] {
      var front, last := cases[..|cases| - 1], cases[|cases| - 1];
      assert cases == front + [last];
      CountedOnce(lab, pristine, front);
      SelectMore(front, last, LiveOf(lab, pristine));
      SelectMore(front, last, FreshDeadOf(lab, pristine));
      SelectMore(front, last, FreshSkipOf(lab, pristine));
      SelectMore(front, last, AlwaysOf(lab, pristine));
      SelectMore(front, last, NotExercisedOf(lab, pristine));
    }
  }

  // ---------- workers in any order ----------

  function CrashOf(lab: Lab, pristine: Tree): Case -> Option<bytes> {
    c => if Trial(lab, pristine, c).Crashed? then Some(c.title) else None
  }

  function FreshCrashOf(lab: Lab, pristine: Tree): Case -> Option<bytes> {
    c => if Classified(lab, pristine, c).Crashed? then Some(c.title) else None
  }

  predicate Selects<T, U>(s: seq<T>, f: T -> Option<U>) {
    exists i :: 0 <= i < |s| && f(s[i]).Some?
  }

  lemma SelectsSplits<T, U>(front: seq<T>, last: T, f: T -> Option<U>)
    ensures Selects(front + [last], f) <==> Selects(front, f) || f(last).Some?
  {
    var all := front + [last];
    assert all[|front|] == last;
    assert forall i :: 0 <= i < |front| ==> all[i] == front[i];
  }

  lemma {:induction false} SelectsIsSelected<T, U>(s: seq<T>, f: T -> Option<U>)
    ensures Selects(s, f) <==> Select(s, f) != []
  {
    if s != [] {
      var front, last := s[..|s| - 1], s[|s| - 1];
      assert s == front + [last];
      SelectsIsSelected(front, f);
      SelectMore(front, last, f);
      SelectsSplits(front, last, f);
    }
  }

  lemma NotEmpty<U>(s: seq<U>)
    ensures s != [] <==> multiset(s) != multiset{}
  {
    if s != [] {
      assert s[0] in multiset(s);
    }
  }

  lemma CrashIsSelected(lab: Lab, pristine: Tree, cases: seq<Case>)
    ensures AnyCrash(lab, pristine, cases) <==> multiset(Select(cases, CrashOf(lab, pristine))) != multiset{}
    ensures SomeCrash(lab, pristine, cases) <==> multiset(Select(cases, FreshCrashOf(lab, pristine))) != multiset{}
  {
    SelectsIsSelected(cases, CrashOf(lab, pristine));
    SelectsIsSelected(cases, FreshCrashOf(lab, pristine));
    NotEmpty(Select(cases, CrashOf(lab, pristine)));
    NotEmpty(Select(cases, FreshCrashOf(lab, pristine)));
    assert AnyCrash(lab, pristine, cases) <==> Selects(cases, CrashOf(lab, pristine));
    assert SomeCrash(lab, pristine, cases) <==> Selects(cases, FreshCrashOf(lab, pristine));
  }

  /** All the chunks of the runnable cases together give what the fresh classification of every
      case gives. */
  lemma ChunksGiveFresh<U>(lab: Lab, pristine: Tree, cases: seq<Case>, w: nat, f: Case -> Option<U>, h: Case -> Option<U>)
    requires w > 0
    requires forall c :: h(c) == if Runnable(lab, pristine, c) then f(c) else None
    ensures SumSet(ChunkBag(Select(cases, RunnableOf(lab, pristine)), w, f), Workers(w)) == multiset(Select(cases, h))
  {
    var runnable := Select(cases, RunnableOf(lab, pristine));
    SumSetIsSumFirst(ChunkBag(runnable, w, f), w);
    ChunksPartition(runnable, w, f);
    SelectTwice(cases, RunnableOf(lab, pristine), f, h);
  }

  lemma NothingRunnable<U>(lab: Lab, pristine: Tree, cases: seq<Case>, f: Case -> Option<U>, h: Case -> Option<U>)
    requires Select(cases, RunnableOf(lab, pristine)) == []
    requires forall c :: h(c) == if Runnable(lab, pristine, c) then f(c) else None
    ensures Select(cases, h) == []
  {
    SelectTwice(cases, RunnableOf(lab, pristine), f, h);
  }

  lemma SameNumber<U>(a: seq<U>, b: seq<U>)
    requires multiset(a) == multiset(b)
    ensures |a| == |b|
  {
    assert |multiset(a)| == |a| && |multiset(b)| == |b|;
  }
}
