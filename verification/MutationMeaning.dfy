/** What a mutation leaves in each file and what a case is worth, in their own terms
    (tools/audit_checks.py). */
module MutationMeaning {
  import opened Outcome
  import opened ByteStrings
  import opened MutationCase
  import opened MutationSweep
  import opened MutationSandbox
  import opened MutationProbe

  // ---------- the file a case edits ----------

  predicate HasEvents(lab: Lab, t: Tree, p: bytes) {
    p in t && lab.twoEvents(t[p].content)
  }

  lemma {:induction false} FirstWithEventsIff(lab: Lab, t: Tree, candidates: seq<bytes>, default: bytes, p: bytes)
    ensures FirstWithEvents(lab, t, candidates, default) == p <==>
              || (exists i: nat :: i < |candidates| && candidates[i] == p && HasEvents(lab, t, p)
                                   && forall j :: 0 <= j < i ==> !HasEvents(lab, t, candidates[j]))
              || (p == default && forall j :: 0 <= j < |candidates| ==> !HasEvents(lab, t, candidates[j]))
  {
    if candidates != [] {
      var rest := candidates[1..];
      FirstWithEventsIff(lab, t, rest, default, p);
      assert forall j :: 0 <= j < |rest| ==> rest[j] == candidates[j + 1];
      assert forall j :: 1 <= j < |candidates| ==> candidates[j] == rest[j - 1];
      if i: nat :| i < |rest| && rest[i] == p && HasEvents(lab, t, p) && forall j :: 0 <= j < i ==> !HasEvents(lab, t, rest[j]) {
        assert candidates[i + 1] == p;
      }
      if i: nat :| i < |candidates| && candidates[i] == p && HasEvents(lab, t, p)
                   && forall j :: 0 <= j < i ==> !HasEvents(lab, t, candidates[j]) {
        if i > 0 {
          assert rest[i - 1] == p;
          assert forall j :: 0 <= j < i - 1 ==> !HasEvents(lab, t, rest[j]);
        }
      }
    }
  }

  /** A swap goes to the first of the named file and the log segments that is there with two events,
      or to the named file; anything else to the named file. */
  lemma TargetIff(lab: Lab, t: Tree, rel: bytes, m: Mutation, p: bytes)
    ensures !m.Swap? ==> Target(lab, t, rel, m) == rel
    ensures m.Swap? ==>
              var cs := [rel] + lab.segments(t.Keys);
              (Target(lab, t, rel, m) == p <==>
                 || (exists i: nat :: i < |cs| && cs[i] == p && HasEvents(lab, t, p)
                                      && forall j :: 0 <= j < i ==> !HasEvents(lab, t, cs[j]))
                 || (p == rel && forall j :: 0 <= j < |cs| ==> !HasEvents(lab, t, cs[j])))
  {
    FirstWithEventsIff(lab, t, [rel] + lab.segments(t.Keys), rel, p);
  }

  // ---------- one file ----------

  /** `after` is `t` but for the file at `p`, which holds `data`; a link there is still one. */
  predicate Holds(t: Tree, after: Tree, p: bytes, data: bytes) {
    && p in after && after[p].content == data && (after[p].Link? <==> p in t && t[p].Link?)
    && after.Keys == t.Keys + {p} && forall q :: q in t && q != p ==> after[q] == t[q]
  }

  /** `after` is `t` without the file at `p`. */
  predicate Gone(t: Tree, after: Tree, p: bytes) {
    after.Keys == t.Keys - {p} && forall q :: q in after ==> after[q] == t[q]
  }

  /** What each mutation of one file does, to the tree and as a verdict. */
  lemma ApplyMeaning(lab: Lab, t: Tree, rel: bytes, m: Mutation)
    ensures var (after, v) := Apply(lab, t, rel, m);
            var p := Target(lab, t, rel, m);
            match m
            case Delete => if p in t then v == Applied && Gone(t, after, p) else v == NotApplied && after == t
            case Create(text) => v == Applied && Holds(t, after, p, text)
            case Encode => if p in t then v == Applied && Holds(t, after, p, lab.encode(t[p].content)) else v == NotApplied && after == t
            case Edit(edit) =>
              if p in t && edit(t[p].content) != t[p].content then v == Applied && Holds(t, after, p, edit(t[p].content))
              else v == NotApplied && after == t
            case Swap =>
              if p !in t then v == Raised && after == t
              else if lab.twoEvents(t[p].content) then v == Applied && Holds(t, after, p, lab.swap(t[p].content))
              else v == NotApplied && after == t
            case SymlinkExternal => Externalised(lab, t, p, after, v)
            case Demote => true
            case Multi(_) => true
  {
  }

  /** A file that is no link gives way to a link with its content, or to nothing where the host makes none. */
  predicate Externalised(lab: Lab, t: Tree, p: bytes, after: Tree, v: Verdict) {
    if p !in t || t[p].Link? then v == NotApplied && after == t
    else match lab.linking
      case Links =>
        v == Applied && after.Keys == t.Keys && after[p] == Link(t[p].content) && forall q :: q in t && q != p ==> after[q] == t[q]
      case Refuses(reason) => v == Because(reason) && Gone(t, after, p)
      case Fails => v == NotApplied && Gone(t, after, p)
  }

  // ---------- several files ----------

  predicate AllDifferent(paths: seq<bytes>) {
    forall i, j :: 0 <= i < j < |paths| ==> paths[i] != paths[j]
  }

  /** Over a history without repeats: every file is rewritten, the verdict says whether one of them changed, and a
      missing file stops with an error. */
  lemma {:induction false} DemotedMeaning(t: Tree, paths: seq<bytes>, demote: bytes -> bytes)
    requires AllDifferent(paths)
    ensures var (after, changed) := Demoted(t, paths, demote);
            && (changed == None <==> exists p :: p in paths && p !in t)
            && after.Keys == t.Keys
            && (changed.Some? ==>
                  (changed.value <==> exists p :: p in paths && demote(t[p].content) != t[p].content)
                  && forall p :: p in t ==> after[p].content == if p in paths then demote(t[p].content) else t[p].content)
    decreases |paths|
  {
    if paths != [] {
      var p, rest := paths[0], paths[1..];
      assert forall q :: q in paths <==> q == p || q in rest;
      if p in t {
        var next := Rewritten(t, p, demote).0;
        assert p !in rest;
        DemotedMeaning(next, rest, demote);
        assert next.Keys == t.Keys && forall q :: q in rest && q in t ==> next[q] == t[q];
      }
    }
  }

  /** What one member of a mutation over several files wants there. */
  predicate MemberDone(t: Tree, after: Tree, c: Change) {
    match c.member
    case Creating(text) => c.path in after && after[c.path].content == text
    case Editing(edit) =>
      if c.path in t then c.path in after && after[c.path].content == edit(t[c.path].content) else c.path !in after
  }

  predicate MemberChanges(t: Tree, c: Change) {
    c.member.Creating? || (c.path in t && c.member.edit(t[c.path].content) != t[c.path].content)
  }

  lemma HeadApart(p: bytes, ps: seq<bytes>)
    requires AllDifferent([p] + ps)
    ensures p !in ps && AllDifferent(ps)
  {
    var all := [p] + ps;
    forall i | 0 <= i < |ps| ensures ps[i] != p && ps[i] == all[i + 1] {
      assert all[0] != all[i + 1];
    }
  }

  lemma {:induction false} PathsHas(changes: seq<Change>, c: Change)
    requires c in changes
    ensures c.path in Paths(changes)
  {
    if changes[0] != c {
      PathsHas(changes[1..], c);
    }
  }

  predicate SameAt(t: Tree, after: Tree, p: bytes) {
    (p in after <==> p in t) && (p in t ==> after[p] == t[p])
  }

  /** Every member is done, a file to be edited that is missing is passed over, no other file
      changes, and `changed` says whether a member changed anything. */
  ghost predicate AllDone(t: Tree, after: Tree, changes: seq<Change>, changed: bool) {
    && (forall c :: c in changes ==> MemberDone(t, after, c))
    && (changed <==> exists c :: c in changes && MemberChanges(t, c))
    && forall p :: p !in Paths(changes) ==> SameAt(t, after, p)
  }

  lemma FirstDone(t: Tree, c: Change, next: Tree, one: bool)
    requires (next, one) == Changed(t, c)
    ensures MemberDone(t, next, c) && (one <==> MemberChanges(t, c))
    ensures forall p :: p != c.path ==> SameAt(t, next, p)
  {
  }

  lemma RestDone(t: Tree, c: Change, rest: seq<Change>, next: Tree, one: bool, after: Tree, more: bool)
    requires MemberDone(t, next, c) && (one <==> MemberChanges(t, c)) && forall p :: p != c.path ==> SameAt(t, next, p)
    requires AllDone(next, after, rest, more) && c.path !in Paths(rest)
    ensures AllDone(t, after, [c] + rest, one || more)
  {
    assert forall d :: d in [c] + rest <==> d == c || d in rest;
    assert ([c] + rest)[1..] == rest;
    forall d | d in rest ensures SameAt(t, next, d.path) {
      PathsHas(rest, d);
    }
    assert SameAt(next, after, c.path);
    assert Paths([c] + rest) == [c.path] + Paths(rest);
    forall p | p !in Paths([c] + rest) ensures SameAt(t, after, p) {
      assert SameAt(t, next, p) && SameAt(next, after, p);
    }
  }

  /** A mutation over different files. */
  lemma {:induction false} ChangedAllMeaning(t: Tree, changes: seq<Change>)
    requires AllDifferent(Paths(changes))
    ensures var (after, changed) := ChangedAll(t, changes); AllDone(t, after, changes, changed)
    decreases |changes|
  {
    if changes != [] {
      var c, rest := changes[0], changes[1..];
      var (next, one) := Changed(t, c);
      var (after, more) := ChangedAll(next, rest);
      HeadApart(c.path, Paths(rest));
      ChangedAllMeaning(next, rest);
      FirstDone(t, c, next, one);
      RestDone(t, c, rest, next, one, after, more);
      assert changes == [c] + rest;
    }
  }

  // ---------- what a case is worth ----------

  /** Out of scope where the validator reports what the case needs missing; void where the pristine
      tree already shows its finding at its gate; and otherwise what the mutation of a fresh copy shows. */
  lemma ClassifiedIff(lab: Lab, pristine: Tree, c: Case, reason: Option<bytes>)
    ensures var k := Classified(lab, pristine, c);
            var (after, v) := Apply(lab, pristine, c.rel, c.mutation);
            var absent := c.needs.Some? && c.needs.value != [] && lab.reports(lab.output(pristine, None), c.needs.value);
            var void := lab.says(lab.output(pristine, c.gate), c.expected, c.gate);
            var said := lab.says(lab.output(after, c.gate), c.expected, c.gate);
            && (k == NotExercised <==> absent)
            && (k == Always <==> !absent && void)
            && (k == Crashed <==> !absent && !void && v == Raised)
            && (k == Skipped(reason) <==> !absent && !void && v == if reason.None? then NotApplied else Because(reason.value))
            && (k == Dead <==> !absent && !void && v == Applied && !said)
            && (k == Live <==> !absent && !void && v == Applied && said)
  {
  }

  /** As many workers as cases, processors and eight allow, with a processor at least. */
  lemma WorkerCountIs(runnable: nat, cpus: int, n: nat)
    ensures n <= WorkerCount(runnable, cpus) <==> n <= runnable && n <= 8 && (n <= 1 || n <= cpus)
  {
  }

  /** The shared file is written by a case that makes a link, from a file that is no link. */
  lemma ExportsIff(t: Tree, c: Case)
    ensures Exports(t, c) <==> c.mutation == SymlinkExternal && c.rel in t && !t[c.rel].Link?
  {
  }
}
