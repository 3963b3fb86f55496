/** The whole sweep (tools/audit_checks.py `mutation_sweep_probe`): what the workers bring home, in
    the order they finish, and the accounting. */
module MutationProbe {
  import opened Outcome
  import opened ByteStrings
  import opened MutationCase
  import opened MutationSweep
  import opened MutationSandbox

  /** What the three lists owe to the chunks still to come. */
  datatype Bags = Bags(crash: nat -> multiset<bytes>, dead: nat -> multiset<bytes>, skip: nat -> multiset<Skip>)

  ghost function BagsOf(lab: Lab, pristine: Tree, runnable: seq<Case>, w: nat): Bags
    requires w > 0
  {
    Bags(ChunkBag(runnable, w, CrashOf(lab, pristine)), ChunkBag(runnable, w, DeadOf(lab, pristine)),
         ChunkBag(runnable, w, SkipOf(lab, pristine)))
  }

  ghost predicate Gathering(b: Bags, all: set<nat>, todo: set<nat>, crashed: multiset<bytes>,
                            dead: multiset<bytes>, skipped: multiset<Skip>, failed: bool, fair: bool)
  {
    crashed + SumSet(b.crash, todo) == SumSet(b.crash, all)
    && (failed <==> crashed != multiset{})
    && (!failed && fair ==> dead + SumSet(b.dead, todo) == SumSet(b.dead, all))
    && (!failed ==> skipped + SumSet(b.skip, todo) == SumSet(b.skip, all))
  }

  lemma GatheringMoves(b: Bags, all: set<nat>, todo: set<nat>, crashed: multiset<bytes>,
                       dead: multiset<bytes>, skipped: multiset<Skip>, failed: bool, fair: bool, index: nat, more: multiset<bytes>)
    requires Gathering(b, all, todo, crashed, dead, skipped, failed, fair) && index in todo
    requires b.crash(index) == multiset{} && (fair ==> more == b.dead(index))
    ensures Gathering(b, all, todo - {index}, crashed + b.crash(index), dead + more, skipped + b.skip(index), failed, fair)
  {
    SumSetTake(b.crash, todo, index);
    SumSetTake(b.dead, todo, index);
    SumSetTake(b.skip, todo, index);
  }

  lemma GatheringFails(b: Bags, all: set<nat>, todo: set<nat>, crashed: multiset<bytes>,
                       dead: multiset<bytes>, skipped: multiset<Skip>, failed: bool, fair: bool, index: nat)
    requires Gathering(b, all, todo, crashed, dead, skipped, failed, fair) && index in todo
    requires b.crash(index) != multiset{}
    ensures Gathering(b, all, todo - {index}, crashed + b.crash(index), dead, skipped, true, fair)
  {
    SumSetTake(b.crash, todo, index);
    NoneTogether(crashed, b.crash(index));
  }

  lemma NoneTogether<U>(a: multiset<U>, b: multiset<U>)
    ensures a + b == multiset{} <==> a == multiset{} && b == multiset{}
  {
    if a + b == multiset{} {
      forall x ensures a[x] == 0 && b[x] == 0 {
        assert (a + b)[x] == 0;
      }
    }
  }

  function Chunks(runnable: seq<Case>, w: nat): seq<seq<Case>>
    requires w > 0
  {
    seq(w, i requires 0 <= i < w => Strided(runnable, i, w))
  }

  /** What worker i brings home is what its bags hold. */
  ghost predicate Brings(b: Bags, i: nat, h: Hand, pristine: Tree, fair: bool) {
    (h.failed <==> b.crash(i) != multiset{})
    && (!h.failed ==> h.tree == pristine && multiset(h.skipped) == b.skip(i) && (fair ==> multiset(h.dead) == b.dead(i)))
  }

  lemma HomeBrings(lab: Lab, pristine: Tree, runnable: seq<Case>, w: nat, i: nat, h: Hand, fair: bool)
    requires w > 0 && BroughtHome(lab, pristine, Strided(runnable, i, w), h, fair)
    ensures Brings(BagsOf(lab, pristine, runnable, w), i, h, pristine, fair)
  {
    CrashIsSelected(lab, pristine, Strided(runnable, i, w));
  }

  /** The executor's loop over finished workers, in whatever order they finish: every chunk is taken
      once; a crash anywhere, or a copy that has drifted, fails the gate. */
  method Gather(lab: Lab, ghost pristine: Tree, control: bytes, hands: seq<Hand>, external: Option<bytes>,
                ghost b: Bags, ghost fair: bool)
    returns (dead: seq<bytes>, skipped: seq<Skip>, failed: bool)
    requires NoLinks(pristine) && control == lab.output(pristine, None)
    requires forall i: nat :: i < |hands| ==> Brings(b, i, hands[i], pristine, fair)
    ensures failed <==> SumSet(b.crash, Workers(|hands|)) != multiset{}
    ensures !failed && fair ==> multiset(dead) == SumSet(b.dead, Workers(|hands|))
    ensures !failed ==> multiset(skipped) == SumSet(b.skip, Workers(|hands|))
  {
    dead, skipped, failed := [], [], false;
    ghost var all, crashed: multiset<bytes> := Workers(|hands|), multiset{};
    var todo := Workers(|hands|);
    while todo != {}
      invariant todo <= all && Gathering(b, all, todo, crashed, multiset(dead), multiset(skipped), failed, fair)
      decreases todo
    {
      var index :| index in todo;
      var h := hands[index];
      assert Brings(b, index, h, pristine, fair);
      NothingLinked(pristine, external);
      if h.failed || lab.output(Read(h.tree, external), None) != control {
        GatheringFails(b, all, todo, crashed, multiset(dead), multiset(skipped), failed, fair, index);
        failed := true;
      } else {
        GatheringMoves(b, all, todo, crashed, multiset(dead), multiset(skipped), failed, fair, index, multiset(h.dead));
        dead, skipped := dead + h.dead, skipped + h.skipped;
      }
      crashed := crashed + b.crash(index);
      todo := todo - {index};
    }
    GatheredAll(b, all, crashed, multiset(dead), multiset(skipped), failed, fair);
  }

  /** The pool's run and its gathering. */
  method RunPool(lab: Lab, pristine: Tree, runnable: seq<Case>, w: nat, control: bytes)
    returns (dead: seq<bytes>, skipped: seq<Skip>, failed: bool)
    requires NoLinks(pristine) && control == lab.output(pristine, None) && w > 0
    ensures var b := BagsOf(lab, pristine, runnable, w);
            (failed <==> SumSet(b.crash, Workers(w)) != multiset{})
            && (!failed && Agree(lab, pristine, Chunks(runnable, w)) ==> multiset(dead) == SumSet(b.dead, Workers(w)))
            && (!failed ==> multiset(skipped) == SumSet(b.skip, Workers(w)))
  {
    var chunks := Chunks(runnable, w);
    var pool := new Pool(pristine, chunks);
    pool.RunChunks(lab, pristine, chunks);
    ghost var b, fair := BagsOf(lab, pristine, runnable, w), Agree(lab, pristine, chunks);
    forall i: nat | i < w ensures Brings(b, i, pool.hands[i], pristine, fair) {
      assert BroughtHome(lab, pristine, chunks[i], pool.hands[i], fair);
      HomeBrings(lab, pristine, runnable, w, i, pool.hands[i], fair);
    }
    dead, skipped, failed := Gather(lab, pristine, control, pool.hands, pool.external, b, fair);
  }

  /** What the fresh classification says the lists are, but for the order workers finished in. */
  ghost predicate AsFresh(lab: Lab, pristine: Tree, cases: seq<Case>, dead: seq<bytes>, skipped: seq<Skip>, failed: bool, fair: bool) {
    (failed <==> SomeCrash(lab, pristine, cases))
    && (!failed && fair ==> multiset(dead) == multiset(Select(cases, FreshDeadOf(lab, pristine))))
    && (!failed ==> multiset(skipped) == multiset(Select(cases, FreshSkipOf(lab, pristine))))
  }

  lemma BagsAreFresh(lab: Lab, pristine: Tree, cases: seq<Case>, w: nat)
    requires w > 0
    ensures var b := BagsOf(lab, pristine, Select(cases, RunnableOf(lab, pristine)), w);
            SumSet(b.crash, Workers(w)) == multiset(Select(cases, FreshCrashOf(lab, pristine)))
            && SumSet(b.dead, Workers(w)) == multiset(Select(cases, FreshDeadOf(lab, pristine)))
            && SumSet(b.skip, Workers(w)) == multiset(Select(cases, FreshSkipOf(lab, pristine)))
  {
    ChunksGiveFresh(lab, pristine, cases, w, CrashOf(lab, pristine), FreshCrashOf(lab, pristine));
    ChunksGiveFresh(lab, pristine, cases, w, DeadOf(lab, pristine), FreshDeadOf(lab, pristine));
    ChunksGiveFresh(lab, pristine, cases, w, SkipOf(lab, pristine), FreshSkipOf(lab, pristine));
  }

  lemma GatheredAll(b: Bags, all: set<nat>, crashed: multiset<bytes>, dead: multiset<bytes>, skipped: multiset<Skip>, failed: bool,
                    fair: bool)
    requires Gathering(b, all, {}, crashed, dead, skipped, failed, fair)
    ensures failed <==> SumSet(b.crash, all) != multiset{}
    ensures !failed && fair ==> dead == SumSet(b.dead, all)
    ensures !failed ==> skipped == SumSet(b.skip, all)
  {
  }

  lemma NothingIsFresh(lab: Lab, pristine: Tree, cases: seq<Case>)
    requires Select(cases, RunnableOf(lab, pristine)) == []
    ensures AsFresh(lab, pristine, cases, [], [], false, true)
  {
    CrashIsSelected(lab, pristine, cases);
    NothingRunnable(lab, pristine, cases, CrashOf(lab, pristine), FreshCrashOf(lab, pristine));
    NothingRunnable(lab, pristine, cases, DeadOf(lab, pristine), FreshDeadOf(lab, pristine));
    NothingRunnable(lab, pristine, cases, SkipOf(lab, pristine), FreshSkipOf(lab, pristine));
  }

  function WorkerCount(runnable: nat, cpus: int): (w: nat)
    ensures w > 0 <==> runnable > 0
  {
    var pool: nat := if cpus > 1 then cpus else 1;
    var w: nat := if runnable < 8 then runnable else 8;
    if pool < w then pool else w
  }

  /** The workers of this sweep link no two files that differ. */
  predicate LinksAgree(lab: Lab, pristine: Tree, cases: seq<Case>, cpus: int) {
    var runnable := Select(cases, RunnableOf(lab, pristine));
    var w := WorkerCount(|runnable|, cpus);
    w > 0 ==> Agree(lab, pristine, Chunks(runnable, w))
  }

  lemma {:induction false} SelectedIsCase(lab: Lab, pristine: Tree, cases: seq<Case>, c: Case)
    requires c in Select(cases, RunnableOf(lab, pristine))
    ensures c in cases
  {
    var front, last := cases[..|cases| - 1], cases[|cases| - 1];
    assert cases == front + [last];
    if c in Select(front, RunnableOf(lab, pristine)) {
      SelectedIsCase(lab, pristine, front, c);
    }
  }

  lemma {:induction false} StridedIsCase(s: seq<Case>, i: nat, w: nat, c: Case)
    requires w > 0 && c in Strided(s, i, w)
    ensures c in s
    decreases |s| - i
  {
    if c != s[i] {
      StridedIsCase(s, i + w, w, c);
    }
  }

  /** For any number of workers it is enough that all cases that link a file link the same content,
      as when there is only one. */
  lemma SameLinksAgree(lab: Lab, pristine: Tree, cases: seq<Case>, cpus: int)
    requires forall c, d :: c in cases && d in cases && Linked(lab, pristine, c) && Linked(lab, pristine, d) ==>
               pristine[c.rel] == pristine[d.rel]
    ensures LinksAgree(lab, pristine, cases, cpus)
  {
    var runnable := Select(cases, RunnableOf(lab, pristine));
    var w := WorkerCount(|runnable|, cpus);
    if w > 0 {
      var chunks := Chunks(runnable, w);
      forall i, a | 0 <= i < w && 0 <= a < |chunks[i]| ensures chunks[i][a] in cases {
        assert chunks[i][a] in Strided(runnable, i, w);
        StridedIsCase(runnable, i, w, chunks[i][a]);
        SelectedIsCase(lab, pristine, cases, chunks[i][a]);
      }
    }
  }

  /** `mutation_sweep_probe`, up to its report: one worker's crash is the gate's failure. Otherwise
      what was skipped, already said or not exercised is what fresh copies would have shown; and so
      are the dead and the live cases, if the workers link no two files that differ. */
  method MutationSweepProbe(lab: Lab, pristine: Tree, cases: seq<Case>, control: bytes, cpus: int) returns (r: Option<Sweep>)
    requires NoLinks(pristine) && control == lab.output(pristine, None)
    ensures r.None? <==> SomeCrash(lab, pristine, cases)
    ensures r.Some? ==>
              multiset(r.value.skipped) == multiset(Select(cases, FreshSkipOf(lab, pristine)))
              && r.value.always == Select(cases, AlwaysOf(lab, pristine))
              && r.value.notExercised == Select(cases, NotExercisedOf(lab, pristine))
              && r.value.live + |r.value.dead| + |r.value.skipped| + |r.value.always| + |r.value.notExercised| == |cases|
    ensures r.Some? && LinksAgree(lab, pristine, cases, cpus) ==>
              multiset(r.value.dead) == multiset(Select(cases, FreshDeadOf(lab, pristine)))
              && r.value.live == |Select(cases, LiveOf(lab, pristine))|
  {
    var runnable, always, notExercised := Selected(lab, pristine, cases, control);
    var w := WorkerCount(|runnable|, cpus);
    var dead: seq<bytes>, skipped: seq<Skip>, failed := [], [], false;
    ghost var fair := LinksAgree(lab, pristine, cases, cpus);
    if w > 0 {
      dead, skipped, failed := RunPool(lab, pristine, runnable, w, control);
      BagsAreFresh(lab, pristine, cases, w);
      CrashIsSelected(lab, pristine, cases);
    } else {
      NothingIsFresh(lab, pristine, cases);
    }
    if failed {
      return None;
    }
    CountedOnce(lab, pristine, cases);
    if fair {
      SameNumber(dead, Select(cases, FreshDeadOf(lab, pristine)));
    }
    SameNumber(skipped, Select(cases, FreshSkipOf(lab, pristine)));
    return Some(Sweep(dead, skipped, always, notExercised, |cases| - |dead| - |skipped| - |always| - |notExercised|));
  }
}
