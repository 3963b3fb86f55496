/** All workers of the sweep at once (tools/audit_checks.py `mutation_sweep_probe`): each has its own
    copy, but the file an external link points to is one for the whole sandbox. */
module MutationSandbox {
  import opened Outcome
  import opened ByteStrings
  import opened MutationCase
  import opened MutationSweep

  // ---------- the file they share ----------

  /** Does the case write the shared file? It copies its target there before it makes the link. */
  predicate Exports(t: Tree, c: Case) {
    c.mutation.SymlinkExternal? && c.rel in t && t[c.rel].File?
  }

  /** What is read in a tree while the shared file has some content. */
  function Read(t: Tree, external: Option<bytes>): Tree {
    map p | p in t :: if t[p].Link? && external.Some? then Link(external.value) else t[p]
  }

  lemma NothingLinked(t: Tree, external: Option<bytes>)
    requires NoLinks(t)
    ensures Read(t, external) == t
  {
  }

  lemma {:induction false} DemotedKeepsFiles(t: Tree, paths: seq<bytes>, demote: bytes -> bytes)
    requires NoLinks(t)
    ensures NoLinks(Demoted(t, paths, demote).0)
    decreases |paths|
  {
    if paths != [] && paths[0] in t {
      DemotedKeepsFiles(Rewritten(t, paths[0], demote).0, paths[1..], demote);
    }
  }

  lemma {:induction false} ChangedKeepsFiles(t: Tree, changes: seq<Change>)
    requires NoLinks(t)
    ensures NoLinks(ChangedAll(t, changes).0)
    decreases |changes|
  {
    if changes != [] {
      ChangedKeepsFiles(Changed(t, changes[0]).0, changes[1..]);
    }
  }

  /** Only a case that writes the shared file, on a host that makes links, leaves a link. */
  lemma LinksComeFromExports(lab: Lab, t: Tree, c: Case)
    requires NoLinks(t)
    ensures !(Exports(t, c) && lab.linking.Links?) ==> NoLinks(Apply(lab, t, c.rel, c.mutation).0)
    ensures Exports(t, c) && lab.linking.Links? ==>
              Apply(lab, t, c.rel, c.mutation) == (t[c.rel := Link(t[c.rel].content)], Applied)
  {
    match c.mutation
    case Demote => DemotedKeepsFiles(t, lab.history(t.Keys), lab.demote);
    case Multi(changes) => ChangedKeepsFiles(t, changes);
    case SymlinkExternal =>
      if Exports(t, c) && lab.linking.Links? {
        assert Unlinked(t, c.rel)[c.rel := Link(t[c.rel].content)] == t[c.rel := Link(t[c.rel].content)];
      }
    case _ =>
  }

  // ---------- one worker, step by step ----------

  /** Between its steps a worker may be interrupted: before the case, with the shared file written,
      with the case applied, with its verdict given. */
  datatype Phase = Idle | Exported | Tried(verdict: Verdict) | Judged

  datatype Hand = Hand(done: nat, phase: Phase, tree: Tree, saved: seq<Save>, dead: seq<bytes>, skipped: seq<Skip>, failed: bool)

  predicate Finished(chunk: seq<Case>, h: Hand) {
    h.done >= |chunk| || (h.phase.Idle? && h.failed)
  }

  function Try(lab: Lab, h: Hand, c: Case): Hand {
    var (after, v) := Apply(lab, h.tree, c.rel, c.mutation);
    h.(tree := after, phase := Tried(v))
  }

  function Judge(lab: Lab, external: Option<bytes>, h: Hand, c: Case, v: Verdict): Hand {
    var judged := h.(phase := Judged);
    match v
    case Raised => judged.(failed := true)
    case NotApplied => judged.(skipped := h.skipped + [Skip(c.title, None)])
    case Because(reason) => judged.(skipped := h.skipped + [Skip(c.title, Some(reason))])
    case Applied =>
      if lab.says(lab.output(Read(h.tree, external), c.gate), c.expected, c.gate) then judged
      else judged.(dead := h.dead + [c.title])
  }

  /** The next step of a worker, and what it makes of the shared file. */
  function Next(lab: Lab, chunk: seq<Case>, external: Option<bytes>, h: Hand): (Option<bytes>, Hand)
    requires !Finished(chunk, h)
  {
    var c := chunk[h.done];
    match h.phase
    case Idle =>
      var ready := h.(saved := Saved(h.tree, FilesOf(lab, h.tree, c.rel, c.mutation)));
      if Exports(h.tree, c) then (Some(h.tree[c.rel].content), ready.(phase := Exported)) else (external, Try(lab, ready, c))
    case Exported => (external, Try(lab, h, c))
    case Tried(v) => (external, Judge(lab, external, h, c, v))
    case Judged => (external, h.(tree := Restored(h.tree, h.saved), phase := Idle, done := h.done + 1))
  }

  // ---------- what every step keeps ----------

  /** The lists after n cases: the dead ones are the fresh ones only if nobody disturbs the links. */
  predicate ListsAre(lab: Lab, pristine: Tree, seen: seq<Case>, h: Hand, fair: bool) {
    (fair ==> h.dead == Select(seen, DeadOf(lab, pristine)))
    && h.skipped == Select(seen, SkipOf(lab, pristine))
    && (h.failed <==> AnyCrash(lab, pristine, seen))
  }

  predicate HandIs(lab: Lab, pristine: Tree, chunk: seq<Case>, h: Hand, fair: bool) {
    h.done <= |chunk|
    && match h.phase
       case Idle => h.tree == pristine && ListsAre(lab, pristine, chunk[..h.done], h, fair)
       case Exported =>
         h.done < |chunk| && AtCase(lab, pristine, chunk, h, fair) && h.tree == pristine && Exports(pristine, chunk[h.done])
       case Tried(v) =>
         h.done < |chunk| && AtCase(lab, pristine, chunk, h, fair)
         && Apply(lab, pristine, chunk[h.done].rel, chunk[h.done].mutation) == (h.tree, v)
       case Judged =>
         h.done < |chunk| && ListsAre(lab, pristine, chunk[..h.done + 1], h, fair)
         && h.tree == Apply(lab, pristine, chunk[h.done].rel, chunk[h.done].mutation).0 && SavedFor(lab, pristine, chunk[h.done], h)
  }

  predicate AtCase(lab: Lab, pristine: Tree, chunk: seq<Case>, h: Hand, fair: bool)
    requires h.done < |chunk|
  {
    ListsAre(lab, pristine, chunk[..h.done], h, fair) && !h.failed && SavedFor(lab, pristine, chunk[h.done], h)
  }

  predicate SavedFor(lab: Lab, pristine: Tree, c: Case, h: Hand) {
    h.saved == Saved(pristine, FilesOf(lab, pristine, c.rel, c.mutation))
  }

  /** Is the worker between writing the shared file and having its verdict? */
  predicate Relies(lab: Lab, pristine: Tree, chunk: seq<Case>, h: Hand) {
    h.done < |chunk| && (h.phase.Exported? || h.phase.Tried?) && Linked(lab, pristine, chunk[h.done])
  }

  /** A case that reads the shared file through a link. */
  predicate Linked(lab: Lab, pristine: Tree, c: Case) {
    lab.linking.Links? && Exports(pristine, c)
  }

  predicate HoldsFor(lab: Lab, pristine: Tree, chunk: seq<Case>, h: Hand, external: Option<bytes>) {
    Relies(lab, pristine, chunk, h) ==> external == Some(pristine[chunk[h.done].rel].content)
  }

  /** The verdict on a case is the fresh one if the shared file is as the case left it. */
  lemma JudgedFresh(lab: Lab, pristine: Tree, chunk: seq<Case>, h: Hand, external: Option<bytes>)
    requires NoLinks(pristine) && HandIs(lab, pristine, chunk, h, true) && h.phase.Tried? && HoldsFor(lab, pristine, chunk, h, external)
    ensures Read(h.tree, external) == h.tree
  {
    var c := chunk[h.done];
    LinksComeFromExports(lab, pristine, c);
    if Linked(lab, pristine, c) {
      assert h.tree == pristine[c.rel := Link(pristine[c.rel].content)];
    } else {
      NothingLinked(h.tree, external);
    }
  }

  lemma ListsGrow(lab: Lab, pristine: Tree, seen: seq<Case>, c: Case)
    ensures Select(seen + [c], DeadOf(lab, pristine)) == Select(seen, DeadOf(lab, pristine)) + (if Trial(lab, pristine, c).Dead? then [c.title] else [])
    ensures Select(seen + [c], SkipOf(lab, pristine))
         == Select(seen, SkipOf(lab, pristine))
            + (if Trial(lab, pristine, c).Skipped? then [Skip(c.title, Trial(lab, pristine, c).reason)] else [])
    ensures AnyCrash(lab, pristine, seen + [c]) <==> AnyCrash(lab, pristine, seen) || Trial(lab, pristine, c).Crashed?
  {
    SelectMore(seen, c, DeadOf(lab, pristine));
    SelectMore(seen, c, SkipOf(lab, pristine));
    assert (seen + [c])[|seen|] == c && forall i :: 0 <= i < |seen| ==> (seen + [c])[i] == seen[i];
  }

  lemma JudgedLists(lab: Lab, pristine: Tree, seen: seq<Case>, c: Case, external: Option<bytes>, h: Hand, v: Verdict, fair: bool)
    requires ListsAre(lab, pristine, seen, h, fair) && !h.failed && Apply(lab, pristine, c.rel, c.mutation) == (h.tree, v)
    requires fair ==> Read(h.tree, external) == h.tree
    ensures ListsAre(lab, pristine, seen + [c], Judge(lab, external, h, c, v), fair)
  {
    ListsGrow(lab, pristine, seen, c);
    assert h.dead + [] == h.dead && h.skipped + [] == h.skipped;
  }

  lemma JudgeStep(lab: Lab, pristine: Tree, chunk: seq<Case>, external: Option<bytes>, h: Hand, fair: bool)
    requires NoLinks(pristine) && HandIs(lab, pristine, chunk, h, fair) && h.phase.Tried?
    requires fair ==> HoldsFor(lab, pristine, chunk, h, external)
    ensures HandIs(lab, pristine, chunk, Judge(lab, external, h, chunk[h.done], h.phase.verdict), fair)
  {
    var c, seen := chunk[h.done], chunk[..h.done];
    assert chunk[..h.done + 1] == seen + [c];
    if fair {
      JudgedFresh(lab, pristine, chunk, h, external);
    }
    JudgedLists(lab, pristine, seen, c, external, h, h.phase.verdict, fair);
    JudgeTouches(lab, external, h, c, h.phase.verdict);
  }

  lemma JudgeTouches(lab: Lab, external: Option<bytes>, h: Hand, c: Case, v: Verdict)
    ensures var j := Judge(lab, external, h, c, v);
            j.phase == Judged && j.done == h.done && j.tree == h.tree && j.saved == h.saved
  {
  }

  /** A worker's own step keeps what it is, whatever the others have done. */
  lemma NextKeeps(lab: Lab, pristine: Tree, chunk: seq<Case>, external: Option<bytes>, h: Hand, fair: bool)
    requires NoLinks(pristine) && HandIs(lab, pristine, chunk, h, fair) && !Finished(chunk, h)
    requires fair ==> HoldsFor(lab, pristine, chunk, h, external)
    ensures var (now, next) := Next(lab, chunk, external, h);
            HandIs(lab, pristine, chunk, next, fair) && (fair ==> HoldsFor(lab, pristine, chunk, next, now))
            && (now == external || (Exports(pristine, chunk[h.done]) && now == Some(pristine[chunk[h.done].rel].content)))
  {
    var c := chunk[h.done];
    match h.phase
    case Idle =>
    case Exported =>
    case Tried(_) => JudgeStep(lab, pristine, chunk, external, h, fair);
    case Judged => RestoreUndoesApply(lab, pristine, c.rel, c.mutation);
  }

  // ---------- all workers ----------

  /** The shared file and the workers. */
  datatype Sandbox = Sandbox(external: Option<bytes>, hands: seq<Hand>)

  /** Cases of different workers that link a file link files with the same content. */
  predicate Agree(lab: Lab, pristine: Tree, chunks: seq<seq<Case>>) {
    forall i, j :: 0 <= i < |chunks| && 0 <= j < |chunks| && i != j ==> NoConflict(lab, pristine, chunks[i], chunks[j])
  }

  predicate NoConflict(lab: Lab, pristine: Tree, xs: seq<Case>, ys: seq<Case>) {
    forall a, b :: 0 <= a < |xs| && 0 <= b < |ys| && Linked(lab, pristine, xs[a]) && Linked(lab, pristine, ys[b]) ==>
      pristine[xs[a].rel] == pristine[ys[b].rel]
  }

  predicate HandStands(lab: Lab, pristine: Tree, chunk: seq<Case>, h: Hand, external: Option<bytes>, fair: bool) {
    HandIs(lab, pristine, chunk, h, fair) && (fair ==> HoldsFor(lab, pristine, chunk, h, external))
  }

  predicate AllStand(lab: Lab, pristine: Tree, chunks: seq<seq<Case>>, s: Sandbox, fair: bool) {
    |s.hands| == |chunks| && forall i :: 0 <= i < |chunks| ==> HandStands(lab, pristine, chunks[i], s.hands[i], s.external, fair)
  }

  function Fresh(pristine: Tree): Hand {
    Hand(0, Idle, pristine, [], [], [], false)
  }

  function Start(pristine: Tree, chunks: seq<seq<Case>>): Sandbox {
    Sandbox(None, seq(|chunks|, _ => Fresh(pristine)))
  }

  lemma StartStands(lab: Lab, pristine: Tree, chunks: seq<seq<Case>>, fair: bool)
    ensures AllStand(lab, pristine, chunks, Start(pristine, chunks), fair)
  {
  }

  /** Worker k does its next step, if it has one. */
  function Step(lab: Lab, chunks: seq<seq<Case>>, s: Sandbox, k: nat): Sandbox
    requires |s.hands| == |chunks| && k < |chunks|
  {
    if Finished(chunks[k], s.hands[k]) then s
    else
      var (now, next) := Next(lab, chunks[k], s.external, s.hands[k]);
      Sandbox(now, s.hands[k := next])
  }

  /** Another worker's writing the shared file does no harm to one that links the same content. */
  lemma OthersStand(lab: Lab, pristine: Tree, xs: seq<Case>, h: Hand, ys: seq<Case>, d: Case, external: Option<bytes>, now: Option<bytes>)
    requires HoldsFor(lab, pristine, xs, h, external) && d in ys && NoConflict(lab, pristine, xs, ys)
    requires now == external || (Exports(pristine, d) && now == Some(pristine[d.rel].content))
    ensures HoldsFor(lab, pristine, xs, h, now)
  {
    if Relies(lab, pristine, xs, h) && Exports(pristine, d) {
      var b :| 0 <= b < |ys| && ys[b] == d;
      assert Linked(lab, pristine, xs[h.done]) && Linked(lab, pristine, ys[b]);
    }
  }

  lemma StepStands(lab: Lab, pristine: Tree, chunks: seq<seq<Case>>, s: Sandbox, k: nat, fair: bool)
    requires NoLinks(pristine) && AllStand(lab, pristine, chunks, s, fair) && k < |chunks|
    requires fair ==> Agree(lab, pristine, chunks)
    ensures AllStand(lab, pristine, chunks, Step(lab, chunks, s, k), fair)
  {
    if !Finished(chunks[k], s.hands[k]) {
      assert HandStands(lab, pristine, chunks[k], s.hands[k], s.external, fair);
      NextKeeps(lab, pristine, chunks[k], s.external, s.hands[k], fair);
      var (now, next) := Next(lab, chunks[k], s.external, s.hands[k]);
      forall i | 0 <= i < |chunks| ensures HandStands(lab, pristine, chunks[i], s.hands[k := next][i], now, fair) {
        assert HandStands(lab, pristine, chunks[i], s.hands[i], s.external, fair);
        if i != k && fair {
          assert NoConflict(lab, pristine, chunks[i], chunks[k]);
          OthersStand(lab, pristine, chunks[i], s.hands[i], chunks[k], chunks[k][s.hands[k].done], s.external, now);
        }
      }
    }
  }

  // ---------- it ends ----------

  function PhaseIndex(p: Phase): nat {
    match p
    case Idle => 0
    case Exported => 1
    case Tried(_) => 2
    case Judged => 3
  }

  function Left(chunk: seq<Case>, h: Hand): nat {
    if h.done >= |chunk| then 0 else 4 * (|chunk| - h.done) - PhaseIndex(h.phase)
  }

  function AllLeft(chunks: seq<seq<Case>>, hands: seq<Hand>): nat
    requires |hands| == |chunks|
  {
    if chunks == [] then 0 else Left(chunks[0], hands[0]) + AllLeft(chunks[1..], hands[1..])
  }

  lemma {:induction false} LeftShrinks(chunks: seq<seq<Case>>, hands: seq<Hand>, k: nat, h: Hand)
    requires |hands| == |chunks| && k < |chunks| && Left(chunks[k], h) < Left(chunks[k], hands[k])
    ensures AllLeft(chunks, hands[k := h]) < AllLeft(chunks, hands)
  {
    if k > 0 {
      LeftShrinks(chunks[1..], hands[1..], k - 1, h);
      assert hands[k := h][1..] == hands[1..][k - 1 := h];
    } else {
      assert hands[k := h][1..] == hands[1..];
    }
  }

  lemma NextShrinks(lab: Lab, chunk: seq<Case>, external: Option<bytes>, h: Hand)
    requires !Finished(chunk, h)
    ensures Left(chunk, Next(lab, chunk, external, h).1) < Left(chunk, h)
  {
    if h.phase.Tried? {
      JudgeTouches(lab, external, h, chunk[h.done], h.phase.verdict);
    }
  }

  lemma StepShrinks(lab: Lab, chunks: seq<seq<Case>>, s: Sandbox, k: nat)
    requires |s.hands| == |chunks| && k < |chunks| && !Finished(chunks[k], s.hands[k])
    ensures AllLeft(chunks, Step(lab, chunks, s, k).hands) < AllLeft(chunks, s.hands)
  {
    var next := Next(lab, chunks[k], s.external, s.hands[k]).1;
    NextShrinks(lab, chunks[k], s.external, s.hands[k]);
    LeftShrinks(chunks, s.hands, k, next);
  }

  // ---------- when, exactly, a worker is disturbed ----------

  predicate Schedule(schedule: seq<nat>, n: nat) {
    forall k :: 0 <= k < |schedule| ==> schedule[k] < n
  }

  function RunAll(lab: Lab, chunks: seq<seq<Case>>, s: Sandbox, schedule: seq<nat>): (t: Sandbox)
    requires |s.hands| == |chunks| && Schedule(schedule, |chunks|)
    ensures |t.hands| == |chunks|
    decreases |schedule|
  {
    if schedule == [] then s
    else
      RunAll(lab, chunks, Step(lab, chunks, s, schedule[0]), schedule[1..])
  }

  /** Worker i is about to have its case judged in a tree that no fresh copy shows. */
  predicate Disturbed(chunks: seq<seq<Case>>, s: Sandbox, i: nat)
    requires |s.hands| == |chunks| && i < |chunks|
  {
    s.hands[i].phase == Tried(Applied) && Read(s.hands[i].tree, s.external) != s.hands[i].tree
  }

  lemma {:induction false} RunStands(lab: Lab, pristine: Tree, chunks: seq<seq<Case>>, s: Sandbox, schedule: seq<nat>, fair: bool)
    requires NoLinks(pristine) && AllStand(lab, pristine, chunks, s, fair) && (fair ==> Agree(lab, pristine, chunks))
    requires Schedule(schedule, |chunks|)
    ensures AllStand(lab, pristine, chunks, RunAll(lab, chunks, s, schedule), fair)
    decreases |schedule|
  {
    if schedule != [] {
      StepStands(lab, pristine, chunks, s, schedule[0], fair);
      RunStands(lab, pristine, chunks, Step(lab, chunks, s, schedule[0]), schedule[1..], fair);
    }
  }

  /** Where the linked files agree, no interleaving disturbs anyone. */
  lemma AgreedIsUndisturbed(lab: Lab, pristine: Tree, chunks: seq<seq<Case>>, schedule: seq<nat>, i: nat)
    requires NoLinks(pristine) && Agree(lab, pristine, chunks) && i < |chunks|
    requires Schedule(schedule, |chunks|)
    ensures !Disturbed(chunks, RunAll(lab, chunks, Start(pristine, chunks), schedule), i)
  {
    StartStands(lab, pristine, chunks, true);
    RunStands(lab, pristine, chunks, Start(pristine, chunks), schedule, true);
    var s := RunAll(lab, chunks, Start(pristine, chunks), schedule);
    assert HandStands(lab, pristine, chunks[i], s.hands[i], s.external, true);
    if s.hands[i].phase.Tried? {
      JudgedFresh(lab, pristine, chunks[i], s.hands[i], s.external);
    }
  }

  lemma {:induction false} RunInTurn(lab: Lab, chunks: seq<seq<Case>>, s: Sandbox, a: seq<nat>, b: seq<nat>)
    requires |s.hands| == |chunks| && Schedule(a, |chunks|) && Schedule(b, |chunks|)
    ensures Schedule(a + b, |chunks|)
    ensures RunAll(lab, chunks, s, a + b) == RunAll(lab, chunks, RunAll(lab, chunks, s, a), b)
    decreases |a|
  {
    if a == [] {
      assert a + b == b;
    } else {
      assert (a + b)[0] == a[0] && (a + b)[1..] == a[1..] + b;
      RunInTurn(lab, chunks, Step(lab, chunks, s, a[0]), a[1..], b);
    }
  }

  /** The same sandbox but for worker i. */
  predicate OnlyMoved(s: Sandbox, t: Sandbox, i: nat) {
    |t.hands| == |s.hands| && forall j :: 0 <= j < |s.hands| && j != i ==> t.hands[j] == s.hands[j]
  }

  /** Worker i stands before its case n. */
  predicate Before(s: Sandbox, i: nat, n: nat) {
    i < |s.hands| && s.hands[i].phase.Idle? && !s.hands[i].failed && s.hands[i].done == n
  }

  lemma Quietly(lab: Lab, pristine: Tree, chunk: seq<Case>, n: nat)
    requires !AnyCrash(lab, pristine, chunk) && n < |chunk|
    ensures !Trial(lab, pristine, chunk[n]).Crashed?
    ensures Apply(lab, pristine, chunk[n].rel, chunk[n].mutation).1 != Raised
  {
  }

  /** One step of worker i alone. */
  lemma SoloStep(lab: Lab, pristine: Tree, chunks: seq<seq<Case>>, s: Sandbox, i: nat)
    requires NoLinks(pristine) && AllStand(lab, pristine, chunks, s, false) && i < |chunks|
    ensures var t := RunAll(lab, chunks, s, [i]);
            t == Step(lab, chunks, s, i) && AllStand(lab, pristine, chunks, t, false) && OnlyMoved(s, t, i)
  {
    assert [i][1..] == [];
    StepStands(lab, pristine, chunks, s, i, false);
  }

  /** From trying a case to standing before the next one takes worker i two more steps. */
  lemma SoloFinish(lab: Lab, pristine: Tree, chunks: seq<seq<Case>>, s: Sandbox, i: nat)
    requires NoLinks(pristine) && AllStand(lab, pristine, chunks, s, false) && i < |chunks|
    requires !AnyCrash(lab, pristine, chunks[i]) && s.hands[i].done < |chunks[i]| && s.hands[i].phase.Tried?
    ensures var t := RunAll(lab, chunks, s, [i, i]);
            AllStand(lab, pristine, chunks, t, false) && OnlyMoved(s, t, i) && Before(t, i, s.hands[i].done + 1)
  {
    assert HandStands(lab, pristine, chunks[i], s.hands[i], s.external, false);
    Quietly(lab, pristine, chunks[i], s.hands[i].done);
    SoloStep(lab, pristine, chunks, s, i);
    var t := Step(lab, chunks, s, i);
    JudgeTouches(lab, s.external, s.hands[i], chunks[i][s.hands[i].done], s.hands[i].phase.verdict);
    SoloStep(lab, pristine, chunks, t, i);
    assert [i, i] == [i] + [i];
    RunInTurn(lab, chunks, s, [i], [i]);
  }

  /** Worker i tries its next case: one step, or two if it writes the shared file. */
  lemma SoloTry(lab: Lab, pristine: Tree, chunks: seq<seq<Case>>, s: Sandbox, i: nat) returns (schedule: seq<nat>)
    requires NoLinks(pristine) && AllStand(lab, pristine, chunks, s, false) && i < |chunks|
    requires s.hands[i].done < |chunks[i]| && Before(s, i, s.hands[i].done)
    ensures Schedule(schedule, |chunks|)
    ensures var t := RunAll(lab, chunks, s, schedule);
            AllStand(lab, pristine, chunks, t, false) && OnlyMoved(s, t, i)
            && t.hands[i].phase.Tried? && t.hands[i].done == s.hands[i].done
  {
    assert HandStands(lab, pristine, chunks[i], s.hands[i], s.external, false);
    SoloStep(lab, pristine, chunks, s, i);
    var t := Step(lab, chunks, s, i);
    if Exports(pristine, chunks[i][s.hands[i].done]) {
      SoloStep(lab, pristine, chunks, t, i);
      RunInTurn(lab, chunks, s, [i], [i]);
      schedule := [i] + [i];
    } else {
      schedule := [i];
    }
  }

  lemma {:induction false} SoloTo(lab: Lab, pristine: Tree, chunks: seq<seq<Case>>, s: Sandbox, i: nat, n: nat)
    returns (schedule: seq<nat>)
    requires NoLinks(pristine) && AllStand(lab, pristine, chunks, s, false) && i < |chunks|
    requires !AnyCrash(lab, pristine, chunks[i]) && s.hands[i].done <= n <= |chunks[i]| && Before(s, i, s.hands[i].done)
    ensures Schedule(schedule, |chunks|)
    ensures var t := RunAll(lab, chunks, s, schedule);
            AllStand(lab, pristine, chunks, t, false) && OnlyMoved(s, t, i) && Before(t, i, n)
    decreases n - s.hands[i].done
  {
    if s.hands[i].done == n {
      schedule := [];
    } else {
      var first := SoloTry(lab, pristine, chunks, s, i);
      var t := RunAll(lab, chunks, s, first);
      SoloFinish(lab, pristine, chunks, t, i);
      var u := RunAll(lab, chunks, t, [i, i]);
      var rest := SoloTo(lab, pristine, chunks, u, i, n);
      RunInTurn(lab, chunks, s, first, [i, i]);
      RunInTurn(lab, chunks, s, first + [i, i], rest);
      schedule := first + [i, i] + rest;
    }
  }

  /** Worker i has made its link, then worker j writes the shared file for another. */
  lemma Collide(lab: Lab, pristine: Tree, chunks: seq<seq<Case>>, s: Sandbox, i: nat, j: nat)
    returns (schedule: seq<nat>)
    requires NoLinks(pristine) && AllStand(lab, pristine, chunks, s, false) && i < |chunks| && j < |chunks| && i != j
    requires s.hands[i].done < |chunks[i]| && Before(s, i, s.hands[i].done)
    requires s.hands[j].done < |chunks[j]| && Before(s, j, s.hands[j].done)
    requires Linked(lab, pristine, chunks[i][s.hands[i].done]) && Linked(lab, pristine, chunks[j][s.hands[j].done])
    requires pristine[chunks[i][s.hands[i].done].rel] != pristine[chunks[j][s.hands[j].done].rel]
    ensures Schedule(schedule, |chunks|) && Disturbed(chunks, RunAll(lab, chunks, s, schedule), i)
  {
    var c, d := chunks[i][s.hands[i].done], chunks[j][s.hands[j].done];
    assert HandStands(lab, pristine, chunks[i], s.hands[i], s.external, false);
    assert HandStands(lab, pristine, chunks[j], s.hands[j], s.external, false);
    LinksComeFromExports(lab, pristine, c);
    SoloStep(lab, pristine, chunks, s, i);
    var t := Step(lab, chunks, s, i);
    SoloStep(lab, pristine, chunks, t, i);
    var u := Step(lab, chunks, t, i);
    SoloStep(lab, pristine, chunks, u, j);
    var v := Step(lab, chunks, u, j);
    RunInTurn(lab, chunks, s, [i], [i]);
    RunInTurn(lab, chunks, s, [i] + [i], [j]);
    schedule := [i] + [i] + [j];
    assert v.external == Some(pristine[d.rel].content);
    assert v.hands[i].tree == pristine[c.rel := Link(pristine[c.rel].content)];
    assert Read(v.hands[i].tree, v.external)[c.rel] == Link(pristine[d.rel].content);
  }

  /** Two workers that link differing files can be interleaved so that one disturbs the other. */
  lemma LinksDisturb(lab: Lab, pristine: Tree, chunks: seq<seq<Case>>, i: nat, j: nat, a: nat, b: nat) returns (schedule: seq<nat>)
    requires NoLinks(pristine) && forall k :: 0 <= k < |chunks| ==> !AnyCrash(lab, pristine, chunks[k])
    requires i < |chunks| && j < |chunks| && i != j && a < |chunks[i]| && b < |chunks[j]|
    requires Linked(lab, pristine, chunks[i][a]) && Linked(lab, pristine, chunks[j][b])
    requires pristine[chunks[i][a].rel] != pristine[chunks[j][b].rel]
    ensures Schedule(schedule, |chunks|) && Disturbed(chunks, RunAll(lab, chunks, Start(pristine, chunks), schedule), i)
  {
    var start := Start(pristine, chunks);
    StartStands(lab, pristine, chunks, false);
    var first := SoloTo(lab, pristine, chunks, start, i, a);
    var s := RunAll(lab, chunks, start, first);
    var second := SoloTo(lab, pristine, chunks, s, j, b);
    var t := RunAll(lab, chunks, s, second);
    assert t.hands[i] == s.hands[i];
    var last := Collide(lab, pristine, chunks, t, i, j);
    RunInTurn(lab, chunks, start, first, second);
    RunInTurn(lab, chunks, start, first + second, last);
    schedule := first + second + last;
  }

  ghost predicate CanDisturb(lab: Lab, pristine: Tree, chunks: seq<seq<Case>>, schedule: seq<nat>, i: nat) {
    Schedule(schedule, |chunks|) && i < |chunks|
    && Disturbed(chunks, RunAll(lab, chunks, Start(pristine, chunks), schedule), i)
  }

  /** Isolation, exactly: when no case raises, some interleaving shows some validator a tree that no
      fresh copy shows if and only if two workers link files that differ. */
  lemma DisturbedIffLinksDiffer(lab: Lab, pristine: Tree, chunks: seq<seq<Case>>)
    requires NoLinks(pristine) && forall i :: 0 <= i < |chunks| ==> !AnyCrash(lab, pristine, chunks[i])
    ensures (exists schedule: seq<nat>, i: nat :: CanDisturb(lab, pristine, chunks, schedule, i)) <==> !Agree(lab, pristine, chunks)
  {
    if !Agree(lab, pristine, chunks) {
      var i, j :| 0 <= i < |chunks| && 0 <= j < |chunks| && i != j && !NoConflict(lab, pristine, chunks[i], chunks[j]);
      var a, b :| 0 <= a < |chunks[i]| && 0 <= b < |chunks[j]| && Linked(lab, pristine, chunks[i][a])
                  && Linked(lab, pristine, chunks[j][b]) && pristine[chunks[i][a].rel] != pristine[chunks[j][b].rel];
      var schedule := LinksDisturb(lab, pristine, chunks, i, j, a, b);
      assert CanDisturb(lab, pristine, chunks, schedule, i);
    } else {
      forall schedule: seq<nat>, i: nat ensures !CanDisturb(lab, pristine, chunks, schedule, i) {
        if Schedule(schedule, |chunks|) && i < |chunks| {
          AgreedIsUndisturbed(lab, pristine, chunks, schedule, i);
        }
      }
    }
  }

  // ---------- the pool ----------

  /** What a worker brings home. */
  predicate BroughtHome(lab: Lab, pristine: Tree, chunk: seq<Case>, h: Hand, fair: bool) {
    (h.failed <==> AnyCrash(lab, pristine, chunk))
    && (!h.failed ==> h.tree == pristine && h.skipped == Select(chunk, SkipOf(lab, pristine)))
    && (!h.failed && fair ==> h.dead == Select(chunk, DeadOf(lab, pristine)))
  }

  lemma FinishedIsHome(lab: Lab, pristine: Tree, chunk: seq<Case>, h: Hand, fair: bool)
    requires HandIs(lab, pristine, chunk, h, fair) && Finished(chunk, h)
    ensures BroughtHome(lab, pristine, chunk, h, fair)
  {
    assert chunk[..|chunk|] == chunk;
    if h.failed {
      var i :| 0 <= i < h.done && Trial(lab, pristine, chunk[..h.done][i]).Crashed?;
      assert chunk[i] == chunk[..h.done][i];
    }
  }

  class Pool {
    var external: Option<bytes>
    var hands: seq<Hand>

    constructor (pristine: Tree, chunks: seq<seq<Case>>)
      ensures Value() == Start(pristine, chunks)
    {
      external, hands := None, seq(|chunks|, _ => Fresh(pristine));
    }

    function Value(): Sandbox
      reads this
    {
      Sandbox(external, hands)
    }

    /** The next step of worker k on its own copy and on the shared file. */
    method Advance(lab: Lab, chunks: seq<seq<Case>>, k: nat)
      requires |hands| == |chunks| && k < |chunks| && !Finished(chunks[k], hands[k])
      modifies this
      ensures Value() == Step(lab, chunks, old(Value()), k)
    {
      var h := hands[k];
      var c := chunks[k][h.done];
      var worker := new Worker(h.tree);
      if h.phase.Idle? {
        h := h.(saved := Saved(worker.tree, FilesOf(lab, worker.tree, c.rel, c.mutation)));
      }
      if h.phase.Idle? && Exports(worker.tree, c) {
        external := Some(worker.tree[c.rel].content);
        h := h.(phase := Exported);
      } else if h.phase.Idle? || h.phase.Exported? {
        var v := worker.ApplyCase(lab, c.rel, c.mutation);
        h := h.(tree := worker.tree, phase := Tried(v));
      } else if h.phase.Tried? {
        h := Judge(lab, external, h, c, h.phase.verdict);
      } else {
        worker.RestoreCaseFiles(h.saved);
        h := h.(tree := worker.tree, phase := Idle, done := h.done + 1);
      }
      hands := hands[k := h];
    }

    /** The workers run until none has a step left, interleaved in any way. */
    method RunChunks(lab: Lab, pristine: Tree, chunks: seq<seq<Case>>)
      requires Value() == Start(pristine, chunks) && NoLinks(pristine)
      modifies this
      ensures |hands| == |chunks|
      ensures forall i :: 0 <= i < |chunks| ==> BroughtHome(lab, pristine, chunks[i], hands[i], Agree(lab, pristine, chunks))
    {
      ghost var fair := Agree(lab, pristine, chunks);
      StartStands(lab, pristine, chunks, fair);
      while exists k: nat :: k < |chunks| && !Finished(chunks[k], hands[k])
        invariant AllStand(lab, pristine, chunks, Value(), fair)
        decreases AllLeft(chunks, hands)
      {
        var k: nat :| k < |chunks| && !Finished(chunks[k], hands[k]);
        StepStands(lab, pristine, chunks, Value(), k, fair);
        StepShrinks(lab, chunks, Value(), k);
        Advance(lab, chunks, k);
      }
      forall i | 0 <= i < |chunks| ensures BroughtHome(lab, pristine, chunks[i], hands[i], fair) {
        assert HandStands(lab, pristine, chunks[i], hands[i], external, fair);
        FinishedIsHome(lab, pristine, chunks[i], hands[i], fair);
      }
    }
  }
}
