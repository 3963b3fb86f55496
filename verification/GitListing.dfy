/** What a delta listing means: the bytes Git writes for a list of changes, parsed back, and
    the projection that removes every `.saipen` path (tools/freshness.py). */
module GitListing {
  import opened Outcome
  import opened ByteStrings
  import opened Numerals
  import opened Framing
  import opened Dicts
  import opened GitDelta

  // ---------- rendering a listing ----------

  /** One `git diff --raw` entry. */
  datatype Change = Change(oldMode: nat, newMode: nat, oldBlob: bytes, newBlob: bytes, status: byte, path: bytes)

  function OctalText(n: nat, width: nat): (t: bytes)
    ensures |t| == width && forall i :: 0 <= i < |t| ==> 48 <= t[i] <= 55
  {
    if width == 0 then [] else OctalText(n / 8, width - 1) + [48 + n % 8]
  }

  function Pow8(width: nat): nat {
    if width == 0 then 1 else 8 * Pow8(width - 1)
  }

  /** The five words of a header; the modes are printed as six octal digits. */
  function HeaderWords(c: Change): seq<bytes> {
    [[58] + OctalText(c.oldMode, 6), OctalText(c.newMode, 6), c.oldBlob, c.newBlob, [c.status]]
  }

  function HeaderOf(c: Change): bytes {
    Join(HeaderWords(c), 32)
  }

  predicate PlainWord(w: bytes) {
    w != [] && forall c :: c in w ==> !IsSpace(c) && c != 0
  }

  /** A change as Git prints it, whatever it is. */
  predicate Printable(c: Change) {
    && c.oldMode < 262144 && c.newMode < 262144 // six octal digits
    && PlainWord(c.oldBlob) && PlainWord(c.newBlob) && PlainWord([c.status])
    && c.path != [] && 0 !in c.path
  }

  function PlanOf(c: Change): Plan {
    Plan(c.status == 68 || c.newMode == 0, c.oldMode, c.newMode)
  }

  function FieldsOf(changes: seq<Change>): seq<bytes> {
    if changes == [] then [] else [HeaderOf(changes[0]), changes[0].path] + FieldsOf(changes[1..])
  }

  /** Every field followed by a NUL. */
  function Terminated(fields: seq<bytes>): bytes {
    if fields == [] then [] else fields[0] + [0] + Terminated(fields[1..])
  }

  // ---------- splitting it again ----------

  lemma {:induction false} SplitTerminated(fields: seq<bytes>)
    requires forall f :: f in fields ==> 0 !in f
    ensures Split(Terminated(fields), 0) == fields + [[]]
  {
    if fields != [] {
      SplitTerminated(fields[1..]);
      SplitPrepend(fields[0], Terminated(fields[1..]), 0);
    }
  }

  lemma {:induction false} WordLengthAt(w: bytes, rest: bytes)
    requires PlainWord(w) && (rest == [] || IsSpace(rest[0]))
    ensures WordLength(w + rest) == |w|
  {
    assert (w + rest)[1..] == w[1..] + rest;
    if |w| == 1 {
      assert (w + rest)[1..] == rest;
    } else {
      WordLengthAt(w[1..], rest);
    }
  }

  lemma WordsPrepend(w: bytes, rest: bytes)
    requires PlainWord(w)
    ensures Words(w + [32] + rest) == [w] + Words(rest)
  {
    var s := w + ([32] + rest);
    assert w + [32] + rest == s;
    WordLengthAt(w, [32] + rest);
    CutConcat(w, [32] + rest);
    assert ([32] + rest)[1..] == rest;
    assert Words([32] + rest) == Words(rest);
  }

  lemma WordsSingle(w: bytes)
    requires PlainWord(w)
    ensures Words(w) == [w]
  {
    WordLengthAt(w, []);
    assert w + [] == w && w[|w|..] == [];
  }

  lemma {:induction false} OctalTextIs(n: nat, width: nat)
    requires 0 < width && n < Pow8(width)
    ensures NumberOf(8, OctalText(n, width)) == n
  {
    var t := OctalText(n, width);
    if width == 1 {
      assert t == [48 + n] && t[..0] == [];
    } else {
      OctalTextIs(n / 8, width - 1);
      assert t[..|t| - 1] == OctalText(n / 8, width - 1);
    }
  }

  lemma OctalRoundTrip(n: nat)
    requires n < 262144
    ensures OctalValue(OctalText(n, 6)) == Some(n)
  {
    assert Pow8(3) == 512 && Pow8(6) == 262144;
    OctalTextIs(n, 6);
    OctalNumeral(OctalText(n, 6), n);
  }

  lemma {:induction false} WordsOfJoin(ws: seq<bytes>)
    requires |ws| > 0 && forall w :: w in ws ==> PlainWord(w)
    ensures Words(Join(ws, 32)) == ws
    ensures ws[0] <= Join(ws, 32)
    ensures 0 !in Join(ws, 32)
  {
    if |ws| == 1 {
      WordsSingle(ws[0]);
    } else {
      WordsOfJoin(ws[1..]);
      WordsPrepend(ws[0], Join(ws[1..], 32));
    }
  }

  lemma HeaderWordsArePlain(c: Change)
    requires Printable(c)
    ensures forall w :: w in HeaderWords(c) ==> PlainWord(w)
  {
    var w0 := [58] + OctalText(c.oldMode, 6);
    assert PlainWord(w0) && PlainWord(OctalText(c.newMode, 6)) && PlainWord([c.status]);
  }

  /** A printed header is a field. */
  lemma HeaderIsField(c: Change)
    requires Printable(c)
    ensures HeaderOf(c) != [] && 0 !in HeaderOf(c) && Words(HeaderOf(c)) == HeaderWords(c)
    ensures OctalValue(HeaderWords(c)[0][1..]) == Some(c.oldMode) && OctalValue(HeaderWords(c)[1]) == Some(c.newMode)
  {
    var ws := HeaderWords(c);
    HeaderWordsArePlain(c);
    WordsOfJoin(ws);
    assert PlainWord(ws[0]);
    OctalRoundTrip(c.oldMode);
    OctalRoundTrip(c.newMode);
    assert ws[0][1..] == OctalText(c.oldMode, 6);
  }

  /** What a change is refused for: a conflict, a status other than A, D, M and T, or a submodule
      that is not deleted. */
  predicate Refused(c: Change, e: Error) {
    if [c.status] == Ascii("U") then e == Unmerged(c.path)
    else if [c.status] !in [Ascii("A"), Ascii("D"), Ascii("M"), Ascii("T")] then e == UnsupportedStatus(c.path)
    else c.newMode == 57344 && [c.status] != Ascii("D") && e == ChangedSubmodule(c.path)
  }

  lemma StatusLetters()
    ensures Ascii("U") == [85] && Ascii("A") == [65] && Ascii("D") == [68] && Ascii("M") == [77] && Ascii("T") == [84]
  {
  }

  lemma HeaderParsed(c: Change)
    requires Printable(c)
    ensures HeaderPlan(HeaderOf(c), c.path)
         == if c.status == 85 then Err(Unmerged(c.path))
            else if c.status !in [65, 68, 77, 84] then Err(UnsupportedStatus(c.path))
            else if c.newMode == 57344 && c.status != 68 then Err(ChangedSubmodule(c.path))
            else Ok(Plan(c.status == 68 || c.newMode == 0, c.oldMode, c.newMode))
  {
    HeaderIsField(c);
  }

  lemma RefusedIff(c: Change, e: Error)
    ensures Refused(c, e)
       <==> if c.status == 85 then e == Unmerged(c.path)
            else if c.status !in [65, 68, 77, 84] then e == UnsupportedStatus(c.path)
            else c.newMode == 57344 && c.status != 68 && e == ChangedSubmodule(c.path)
  {
    StatusLetters();
  }

  /** A printed header, whatever the change: refused for exactly these reasons. */
  lemma HeaderRefusedIff(c: Change, e: Error)
    requires Printable(c)
    ensures HeaderPlan(HeaderOf(c), c.path) == Err(e) <==> Refused(c, e)
  {
    HeaderParsed(c);
    RefusedIff(c, e);
  }

  /** Otherwise it is read back with its modes, deleted if its status is D or its new mode zero. */
  lemma HeaderRoundTrip(c: Change, plan: Plan)
    requires Printable(c)
    ensures HeaderPlan(HeaderOf(c), c.path) == Ok(plan) <==>
              (forall e :: !Refused(c, e))
              && plan == Plan([c.status] == Ascii("D") || c.newMode == 0, c.oldMode, c.newMode)
  {
    HeaderParsed(c);
    StatusLetters();
    forall e ensures Refused(c, e) <==> HeaderPlan(HeaderOf(c), c.path) == Err(e) {
      RefusedIff(c, e);
    }
  }

  // ---------- the meaning of a listing ----------

  function ChangePlans(changes: seq<Change>, d: Plans): Plans {
    if changes == [] then d
    else ChangePlans(changes[1..],
                     if IsSaipen(changes[0].path) then d else Put(d, changes[0].path, PlanOf(changes[0])))
  }

  lemma PlanStep(header: bytes, path: bytes, plan: Plan, rest: seq<bytes>, d: Plans)
    requires header != [] && path != [] && HeaderPlan(header, path) == Ok(plan)
    ensures DeltaPlans([header, path] + rest, d)
         == DeltaPlans(rest, if IsSaipen(path) then d else Put(d, path, plan))
  {
    assert ([header, path] + rest)[2..] == rest;
  }

  /** Outside `.saipen` nothing is refused. */
  ghost predicate Accepted(changes: seq<Change>) {
    forall i, e :: 0 <= i < |changes| && Refused(changes[i], e) ==> IsSaipen(changes[i].path)
  }

  /** `e` is what the first change refused outside `.saipen` is refused for. */
  ghost predicate RefusedAt(changes: seq<Change>, i: nat, e: Error) {
    && i < |changes| && !IsSaipen(changes[i].path) && Refused(changes[i], e)
    && Accepted(changes[..i])
  }

  lemma AcceptedStep(changes: seq<Change>)
    requires changes != []
    ensures Accepted(changes) <==>
              (IsSaipen(changes[0].path) || forall e :: !Refused(changes[0], e)) && Accepted(changes[1..])
  {
    assert forall i :: 0 <= i < |changes[1..]| ==> changes[1..][i] == changes[i + 1];
    if Accepted(changes) {
      forall i, e | 0 <= i < |changes[1..]| && Refused(changes[1..][i], e) ensures IsSaipen(changes[1..][i].path) {
        assert Refused(changes[i + 1], e);
      }
    }
    if (IsSaipen(changes[0].path) || forall e :: !Refused(changes[0], e)) && Accepted(changes[1..]) {
      forall i, e | 0 <= i < |changes| && Refused(changes[i], e) ensures IsSaipen(changes[i].path) {
        assert i > 0 ==> Refused(changes[1..][i - 1], e);
      }
    }
  }

  lemma RefusedAtStep(changes: seq<Change>, i: nat, e: Error)
    requires changes != []
    ensures RefusedAt(changes, 0, e) <==> !IsSaipen(changes[0].path) && Refused(changes[0], e)
    ensures i > 0 ==> (RefusedAt(changes, i, e) <==>
              (IsSaipen(changes[0].path) || forall x :: !Refused(changes[0], x)) && RefusedAt(changes[1..], i - 1, e))
  {
    if 0 < i < |changes| {
      AcceptedStep(changes[..i]);
      assert changes[..i][1..] == changes[1..][..i - 1];
    }
  }

  lemma {:induction false} ChangesParse(changes: seq<Change>, d: Plans)
    requires forall c :: c in changes ==> Printable(c)
    requires Accepted(changes)
    ensures DeltaPlans(FieldsOf(changes) + [[]], d) == Ok(ChangePlans(changes, d))
  {
    if changes != [] {
      var c := changes[0];
      assert c in changes;
      AcceptedStep(changes);
      HeaderIsField(c);
      var rest := FieldsOf(changes[1..]) + [[]];
      assert FieldsOf(changes) + [[]] == [HeaderOf(c), c.path] + rest;
      if !IsSaipen(c.path) {
        StatusLetters();
        HeaderRoundTrip(c, PlanOf(c));
        PlanStep(HeaderOf(c), c.path, PlanOf(c), rest, d);
      } else {
        SkipStep(HeaderOf(c), c.path, rest, d);
      }
      ChangesParse(changes[1..], if IsSaipen(c.path) then d else Put(d, c.path, PlanOf(c)));
    }
  }

  lemma SkipStep(header: bytes, path: bytes, rest: seq<bytes>, d: Plans)
    requires header != [] && path != [] && IsSaipen(path)
    ensures DeltaPlans([header, path] + rest, d) == DeltaPlans(rest, d)
  {
    assert ([header, path] + rest)[2..] == rest;
  }

  lemma {:induction false} ChangesRefused(changes: seq<Change>, i: nat, e: Error, d: Plans)
    requires forall c :: c in changes ==> Printable(c)
    requires RefusedAt(changes, i, e)
    ensures DeltaPlans(FieldsOf(changes) + [[]], d) == Err(e)
  {
    var c := changes[0];
    assert c in changes;
    HeaderIsField(c);
    RefusedAtStep(changes, i, e);
    var rest := FieldsOf(changes[1..]) + [[]];
    assert FieldsOf(changes) + [[]] == [HeaderOf(c), c.path] + rest;
    if i == 0 {
      HeaderRefusedIff(c, e);
    } else if IsSaipen(c.path) {
      SkipStep(HeaderOf(c), c.path, rest, d);
      ChangesRefused(changes[1..], i - 1, e, d);
    } else {
      StatusLetters();
      HeaderRoundTrip(c, PlanOf(c));
      PlanStep(HeaderOf(c), c.path, PlanOf(c), rest, d);
      ChangesRefused(changes[1..], i - 1, e, Put(d, c.path, PlanOf(c)));
    }
  }

  lemma {:induction false} SomeRefusal(changes: seq<Change>)
    requires !Accepted(changes)
    ensures exists i: nat, e :: RefusedAt(changes, i, e)
  {
    if changes != [] {
      AcceptedStep(changes);
      if e :| !IsSaipen(changes[0].path) && Refused(changes[0], e) {
        RefusedAtStep(changes, 0, e);
      } else {
        SomeRefusal(changes[1..]);
        var i: nat, e :| RefusedAt(changes[1..], i, e);
        RefusedAtStep(changes, i + 1, e);
      }
    }
  }

  /** `changes[i]` is the last word on `path`. */
  predicate LastAt(changes: seq<Change>, i: nat, path: bytes) {
    i < |changes| && changes[i].path == path && forall j :: i < j < |changes| ==> changes[j].path != path
  }

  predicate Mentions(changes: seq<Change>, path: bytes) {
    exists i :: 0 <= i < |changes| && changes[i].path == path
  }

  ghost predicate PlannedBy(changes: seq<Change>, p: Pair<Plan>) {
    !IsSaipen(p.key) && exists i: nat :: LastAt(changes, i, p.key) && p.value == PlanOf(changes[i])
  }

  lemma MentionsStep(changes: seq<Change>, path: bytes)
    requires changes != []
    ensures Mentions(changes, path) <==> changes[0].path == path || Mentions(changes[1..], path)
  {
    if Mentions(changes[1..], path) {
      var i :| 0 <= i < |changes[1..]| && changes[1..][i].path == path;
      assert changes[i + 1].path == path;
    }
    if Mentions(changes, path) && changes[0].path != path {
      var i :| 0 <= i < |changes| && changes[i].path == path;
      assert changes[1..][i - 1].path == path;
    }
  }

  lemma LastAtStep(changes: seq<Change>, i: nat, path: bytes)
    requires changes != []
    ensures i > 0 ==> (LastAt(changes, i, path) <==> LastAt(changes[1..], i - 1, path))
    ensures LastAt(changes, 0, path) <==> changes[0].path == path && !Mentions(changes[1..], path)
  {
    var rest := changes[1..];
    assert forall j :: 0 <= j < |rest| ==> rest[j] == changes[j + 1];
    assert forall j :: 1 <= j < |changes| ==> changes[j] == rest[j - 1];
  }

  lemma PlannedByStep(changes: seq<Change>, p: Pair<Plan>)
    requires changes != []
    ensures PlannedBy(changes, p)
       <==> PlannedBy(changes[1..], p)
            || (!IsSaipen(p.key) && changes[0].path == p.key && !Mentions(changes[1..], p.key)
                && p.value == PlanOf(changes[0]))
  {
    LastAtStep(changes, 0, p.key);
    if PlannedBy(changes, p) {
      var i: nat :| LastAt(changes, i, p.key) && p.value == PlanOf(changes[i]);
      LastAtStep(changes, i, p.key);
    }
    if PlannedBy(changes[1..], p) {
      var i: nat :| LastAt(changes[1..], i, p.key) && p.value == PlanOf(changes[1..][i]);
      LastAtStep(changes, i + 1, p.key);
    }
  }

  lemma {:induction false} ChangePlansMembers(changes: seq<Change>, d: Plans, p: Pair<Plan>)
    requires DistinctKeys(d) && forall q :: q in d ==> !IsSaipen(q.key)
    ensures DistinctKeys(ChangePlans(changes, d))
    ensures forall q :: q in ChangePlans(changes, d) ==> !IsSaipen(q.key)
    ensures p in ChangePlans(changes, d)
       <==> PlannedBy(changes, p) || (p in d && !Mentions(changes, p.key))
  {
    if changes != [] {
      var c := changes[0];
      MentionsStep(changes, p.key);
      PlannedByStep(changes, p);
      if IsSaipen(c.path) {
        ChangePlansMembers(changes[1..], d, p);
      } else {
        PutKeepsPlain(d, c.path, PlanOf(c));
        PutMembers(d, c.path, PlanOf(c), p);
        ChangePlansMembers(changes[1..], Put(d, c.path, PlanOf(c)), p);
      }
    }
  }

  lemma PutKeepsPlain(d: Plans, k: bytes, v: Plan)
    requires DistinctKeys(d) && !IsSaipen(k) && forall q :: q in d ==> !IsSaipen(q.key)
    ensures DistinctKeys(Put(d, k, v)) && forall q :: q in Put(d, k, v) ==> !IsSaipen(q.key)
  {
    PutKeepsDistinct(d, k, v);
    forall q | q in Put(d, k, v) ensures !IsSaipen(q.key) {
      PutMembers(d, k, v, q);
    }
  }

  lemma {:induction false} UntrackedMembers(paths: seq<bytes>, d: Plans, p: Pair<Plan>)
    requires DistinctKeys(d) && forall q :: q in d ==> !IsSaipen(q.key)
    ensures p in UntrackedPlans(paths, d)
       <==> if p.key in paths && p.key != [] && !IsSaipen(p.key) then p.value == UNTRACKED else p in d
  {
    if paths != [] {
      var k := paths[0];
      assert paths == [k] + paths[1..];
      if k == [] || IsSaipen(k) {
        UntrackedMembers(paths[1..], d, p);
      } else {
        PutKeepsPlain(d, k, UNTRACKED);
        PutMembers(d, k, UNTRACKED, p);
        UntrackedMembers(paths[1..], Put(d, k, UNTRACKED), p);
      }
    }
  }

  ghost predicate ListedAs(changes: seq<Change>, untracked: seq<bytes>, p: Pair<Plan>) {
    if p.key in untracked then !IsSaipen(p.key) && p.value == UNTRACKED else PlannedBy(changes, p)
  }

  lemma ListingParsed(changes: seq<Change>, untracked: seq<bytes>)
    requires forall c :: c in changes ==> Printable(c)
    requires forall u :: u in untracked ==> u != [] && 0 !in u
    requires Accepted(changes)
    ensures var r := SortedPlans(Terminated(FieldsOf(changes)), Terminated(untracked));
            r.Ok? && SortedBy(r.value, KeyOf<Plan>) && DistinctKeys(r.value)
            && forall p :: p in r.value <==> ListedAs(changes, untracked, p)
  {
    FieldsHaveNoNul(changes);
    SplitTerminated(FieldsOf(changes));
    SplitTerminated(untracked);
    ChangesParse(changes, []);
    var d := ChangePlans(changes, []);
    var all := UntrackedPlans(untracked + [[]], d);
    ListingPlansDistinct(Terminated(FieldsOf(changes)), Terminated(untracked));
    SortIsSorted(all, KeyOf<Plan>);
    SortKeepsDistinct(all, KeyOf<Plan>);
    forall p ensures p in SortBy(all, KeyOf<Plan>) <==> ListedAs(changes, untracked, p) {
      SortIsPermutation(all, KeyOf<Plan>);
      assert p in multiset(SortBy(all, KeyOf<Plan>)) <==> p in multiset(all);
      AllMembers(changes, untracked, p);
    }
  }

  /** What is planned for a path outside `.saipen`: an untracked path is read as it is, any other
      as the last change that names it says. */
  ghost predicate PlannedAs(changes: seq<Change>, untracked: seq<bytes>, p: Pair<Plan>) {
    if p.key in untracked then p.value == Plan(false, 0, 0)
    else exists i: nat :: LastAt(changes, i, p.key)
           && p.value == Plan([changes[i].status] == Ascii("D") || changes[i].newMode == 0,
                              changes[i].oldMode, changes[i].newMode)
  }

  lemma ListedIsPlanned(changes: seq<Change>, untracked: seq<bytes>, p: Pair<Plan>)
    ensures ListedAs(changes, untracked, p) <==> Split(p.key, 47)[0] != Ascii(".saipen") && PlannedAs(changes, untracked, p)
  {
    SaipenIsFirstComponent(p.key);
    StatusLetters();
  }

  /** In path order and once each, exactly the listed paths whose first component is not `.saipen`. */
  ghost predicate PlansExactly(changes: seq<Change>, untracked: seq<bytes>, ps: seq<Pair<Plan>>) {
    && (forall i, j :: 0 <= i < j < |ps| ==> Below(ps[i].key, ps[j].key))
    && (forall p :: p in ps <==> Split(p.key, 47)[0] != Ascii(".saipen") && PlannedAs(changes, untracked, p))
  }

  lemma ParsedIsPlanned(changes: seq<Change>, untracked: seq<bytes>, ps: seq<Pair<Plan>>)
    requires SortedBy(ps, KeyOf<Plan>) && DistinctKeys(ps)
    requires forall p :: p in ps <==> ListedAs(changes, untracked, p)
    ensures PlansExactly(changes, untracked, ps)
  {
    StrictlySorted(ps);
    forall p ensures p in ps <==> Split(p.key, 47)[0] != Ascii(".saipen") && PlannedAs(changes, untracked, p) {
      ListedIsPlanned(changes, untracked, p);
    }
  }

  /** Parsing the bytes Git prints for `changes` and `untracked`: refused exactly if some change
      whose path does not begin with the component `.saipen` is, and otherwise the plans are those. */
  lemma ListingMeaning(changes: seq<Change>, untracked: seq<bytes>)
    requires forall c :: c in changes ==> Printable(c)
    requires forall u :: u in untracked ==> u != [] && 0 !in u
    ensures var r := SortedPlans(Terminated(FieldsOf(changes)), Terminated(untracked));
            && (r.Err? <==> exists c, e :: c in changes && Refused(c, e) && Split(c.path, 47)[0] != Ascii(".saipen"))
            && (r.Ok? ==> PlansExactly(changes, untracked, r.value))
  {
    AcceptedByComponent(changes);
    if Accepted(changes) {
      ListingParsed(changes, untracked);
      ParsedIsPlanned(changes, untracked, SortedPlans(Terminated(FieldsOf(changes)), Terminated(untracked)).value);
    } else {
      SomeRefusal(changes);
      var i: nat, e :| RefusedAt(changes, i, e);
      RefusedGivesError(changes, untracked, i, e);
    }
  }

  lemma StrictlySorted(ps: Plans)
    requires SortedBy(ps, KeyOf<Plan>) && DistinctKeys(ps)
    ensures forall i, j :: 0 <= i < j < |ps| ==> Below(ps[i].key, ps[j].key)
  {
    forall i, j | 0 <= i < j < |ps| ensures Below(ps[i].key, ps[j].key) {
      assert !Below(KeyOf(ps[j]), KeyOf(ps[i]));
      BelowTotal(ps[i].key, ps[j].key);
    }
  }

  lemma AcceptedByComponent(changes: seq<Change>)
    ensures !Accepted(changes)
       <==> exists c, e :: c in changes && Refused(c, e) && Split(c.path, 47)[0] != Ascii(".saipen")
  {
    forall c: Change ensures IsSaipen(c.path) <==> Split(c.path, 47)[0] == Ascii(".saipen") {
      SaipenIsFirstComponent(c.path);
    }
    if c, e :| c in changes && Refused(c, e) && Split(c.path, 47)[0] != Ascii(".saipen") {
      var i :| 0 <= i < |changes| && changes[i] == c;
      assert Refused(changes[i], e);
    }
  }

  lemma RefusedGivesError(changes: seq<Change>, untracked: seq<bytes>, i: nat, e: Error)
    requires forall c :: c in changes ==> Printable(c)
    requires RefusedAt(changes, i, e)
    ensures SortedPlans(Terminated(FieldsOf(changes)), Terminated(untracked)) == Err(e)
  {
    FieldsHaveNoNul(changes);
    SplitTerminated(FieldsOf(changes));
    ChangesRefused(changes, i, e, []);
  }

  /** The error is that of the first change refused outside `.saipen`. */
  lemma ListingRefusedAt(changes: seq<Change>, untracked: seq<bytes>, i: nat, e: Error)
    requires forall c :: c in changes ==> Printable(c)
    requires i < |changes| && Split(changes[i].path, 47)[0] != Ascii(".saipen") && Refused(changes[i], e)
    requires forall j, x :: 0 <= j < i && Refused(changes[j], x) ==> Split(changes[j].path, 47)[0] == Ascii(".saipen")
    ensures SortedPlans(Terminated(FieldsOf(changes)), Terminated(untracked)) == Err(e)
  {
    SaipenIsFirstComponent(changes[i].path);
    forall j, x | 0 <= j < i && Refused(changes[..i][j], x) ensures IsSaipen(changes[..i][j].path) {
      assert Refused(changes[j], x);
      SaipenIsFirstComponent(changes[j].path);
    }
    RefusedGivesError(changes, untracked, i, e);
  }

  lemma AllMembers(changes: seq<Change>, untracked: seq<bytes>, p: Pair<Plan>)
    requires forall u :: u in untracked ==> u != []
    ensures p in UntrackedPlans(untracked + [[]], ChangePlans(changes, [])) <==> ListedAs(changes, untracked, p)
  {
    ChangePlansMembers(changes, [], p);
    UntrackedMembers(untracked + [[]], ChangePlans(changes, []), p);
  }

  lemma {:induction false} FieldsHaveNoNul(changes: seq<Change>)
    requires forall c :: c in changes ==> Printable(c)
    ensures forall f :: f in FieldsOf(changes) ==> 0 !in f
  {
    if changes != [] {
      assert changes[0] in changes;
      HeaderIsField(changes[0]);
      FieldsHaveNoNul(changes[1..]);
    }
  }

  // ---------- the .saipen projection ----------

  datatype Projection = Projection(kept: seq<bytes>, paths: seq<bytes>)

  function KeepDelta(fields: seq<bytes>): Result<seq<bytes>, Error> {
    if fields == [] || fields[0] == [] then Ok([])
    else if |fields| < 2 || fields[1] == [] then Err(TruncatedDelta)
    else match KeepDelta(fields[2..])
      case Err(e) => Err(e)
      case Ok(rest) => Ok(if IsSaipen(fields[1]) then rest else [fields[0], fields[1]] + rest)
  }

  function KeepPaths(paths: seq<bytes>): seq<bytes> {
    if paths == [] then []
    else if paths[0] == [] || IsSaipen(paths[0]) then KeepPaths(paths[1..])
    else [paths[0]] + KeepPaths(paths[1..])
  }

  /** `_filtered_git_listing`. */
  function Filtered(raw: bytes, untracked: bytes): Result<Projection, Error> {
    match KeepDelta(Split(raw, 0))
    case Err(e) => Err(e)
    case Ok(kept) => Ok(Projection(kept, KeepPaths(Split(untracked, 0))))
  }

  function Prepended(kept: seq<bytes>, r: Result<seq<bytes>, Error>): Result<seq<bytes>, Error> {
    match r
    case Err(e) => Err(e)
    case Ok(rest) => Ok(kept + rest)
  }

  lemma PrependedNothing(r: Result<seq<bytes>, Error>)
    ensures Prepended([], r) == r
  {
    if r.Ok? { assert [] + r.value == r.value; }
  }

  lemma KeepStep(fields: seq<bytes>, i: nat, kept: seq<bytes>)
    requires i + 1 < |fields| && fields[i] != [] && fields[i + 1] != []
    ensures Prepended(kept, KeepDelta(fields[i..]))
         == Prepended(if IsSaipen(fields[i + 1]) then kept else kept + [fields[i], fields[i + 1]],
                      KeepDelta(fields[i + 2..]))
  {
    var here := fields[i..];
    assert here[0] == fields[i] && here[1] == fields[i + 1] && here[2..] == fields[i + 2..];
    if KeepDelta(here[2..]).Ok? {
      var rest := KeepDelta(here[2..]).value;
      assert kept + ([here[0], here[1]] + rest) == (kept + [here[0], here[1]]) + rest;
    }
  }

  /** What the loop has kept after `i` fields. */
  predicate Keeping(fields: seq<bytes>, i: nat, kept: seq<bytes>) {
    i <= |fields| && KeepDelta(fields) == Prepended(kept, KeepDelta(fields[i..]))
  }

  lemma KeepingStarts(fields: seq<bytes>)
    ensures Keeping(fields, 0, [])
  {
    PrependedNothing(KeepDelta(fields));
    assert fields[0..] == fields;
  }

  lemma KeepingMoves(fields: seq<bytes>, i: nat, kept: seq<bytes>)
    requires Keeping(fields, i, kept) && i + 1 < |fields| && fields[i] != [] && fields[i + 1] != []
    ensures Keeping(fields, i + 2, if IsSaipen(fields[i + 1]) then kept else kept + [fields[i], fields[i + 1]])
  {
    KeepStep(fields, i, kept);
  }

  lemma KeepingEnds(fields: seq<bytes>, i: nat, kept: seq<bytes>)
    requires Keeping(fields, i, kept)
    ensures i == |fields| || fields[i] == [] ==> KeepDelta(fields) == Ok(kept)
    ensures i < |fields| && fields[i] != [] && (i + 1 == |fields| || fields[i + 1] == []) ==> KeepDelta(fields) == Err(TruncatedDelta)
  {
    assert kept + [] == kept;
  }

  /** `_filtered_git_listing`, its two loops in turn. */
  method FilteredListing(raw: bytes, untracked: bytes) returns (r: Result<Projection, Error>)
    ensures r == Filtered(raw, untracked)
  {
    var kept := KeptFields(Split(raw, 0));
    if kept.Err? {
      return Err(kept.error);
    }
    var paths := KeptPaths(Split(untracked, 0));
    return Ok(Projection(kept.value, paths));
  }

  method KeptFields(fields: seq<bytes>) returns (r: Result<seq<bytes>, Error>)
    ensures r == KeepDelta(fields)
  {
    var kept: seq<bytes> := [];
    var index := 0;
    KeepingStarts(fields);
    while index < |fields| && fields[index] != []
      invariant 0 <= index && Keeping(fields, index, kept)
    {
      var header := fields[index];
      KeepingEnds(fields, index, kept);
      index := index + 1;
      if index >= |fields| || fields[index] == [] {
        return Err(TruncatedDelta);
      }
      var path := fields[index];
      index := index + 1;
      KeepingMoves(fields, index - 2, kept);
      if !IsSaipen(path) {
        kept := kept + [header, path];
      }
    }
    KeepingEnds(fields, index, kept);
    return Ok(kept);
  }

  method KeptPaths(parts: seq<bytes>) returns (paths: seq<bytes>)
    ensures paths == KeepPaths(parts)
  {
    paths := [];
    var k := 0;
    while k < |parts|
      invariant 0 <= k <= |parts|
      invariant KeepPaths(parts) == paths + KeepPaths(parts[k..])
    {
      assert parts[k..][0] == parts[k] && parts[k..][1..] == parts[k + 1..];
      if parts[k] != [] && !IsSaipen(parts[k]) {
        paths := paths + [parts[k]];
      }
      k := k + 1;
    }
    assert paths + KeepPaths([]) == paths;
  }

  lemma {:induction false} DeltaOfKept(fields: seq<bytes>, d: Plans)
    ensures KeepDelta(fields).Ok? ==> DeltaPlans(fields, d) == DeltaPlans(KeepDelta(fields).value, d)
    ensures KeepDelta(fields).Err? ==> DeltaPlans(fields, d).Err?
    decreases |fields|
  {
    if fields != [] && fields[0] != [] && |fields| >= 2 && fields[1] != [] {
      var parsed := HeaderPlan(fields[0], fields[1]);
      DeltaOfKept(fields[2..], if IsSaipen(fields[1]) || parsed.Err? then d else Put(d, fields[1], parsed.value));
      if KeepDelta(fields).Ok? && !IsSaipen(fields[1]) {
        var kept := KeepDelta(fields).value;
        assert kept[2..] == KeepDelta(fields[2..]).value;
      }
    }
  }

  lemma {:induction false} UntrackedOfKept(paths: seq<bytes>, d: Plans)
    ensures UntrackedPlans(paths, d) == UntrackedPlans(KeepPaths(paths), d)
  {
    if paths != [] {
      var d' := if paths[0] == [] || IsSaipen(paths[0]) then d else Put(d, paths[0], UNTRACKED);
      UntrackedOfKept(paths[1..], d');
      if paths[0] != [] && !IsSaipen(paths[0]) {
        assert KeepPaths(paths)[1..] == KeepPaths(paths[1..]);
      }
    }
  }

  /** Noninterference: listings with the same projection are parsed to the same plans, or
      raise the same error, whatever `.saipen` paths either of them carries. */
  lemma SaipenNoninterference(raw1: bytes, untracked1: bytes, raw2: bytes, untracked2: bytes)
    requires Filtered(raw1, untracked1).Ok? && Filtered(raw1, untracked1) == Filtered(raw2, untracked2)
    ensures SortedPlans(raw1, untracked1) == SortedPlans(raw2, untracked2)
  {
    DeltaOfKept(Split(raw1, 0), []);
    DeltaOfKept(Split(raw2, 0), []);
    if DeltaPlans(Split(raw1, 0), []).Ok? {
      var d := DeltaPlans(Split(raw1, 0), []).value;
      UntrackedOfKept(Split(untracked1, 0), d);
      UntrackedOfKept(Split(untracked2, 0), d);
    }
  }

  /** A listing the projection refuses is refused by the parser. */
  lemma FilterErrorIsParseError(raw: bytes, untracked: bytes)
    requires Filtered(raw, untracked).Err?
    ensures SortedPlans(raw, untracked).Err?
  {
    DeltaOfKept(Split(raw, 0), []);
  }

  lemma {:induction false} KeepIsFixed(fields: seq<bytes>)
    requires KeepDelta(fields).Ok?
    ensures KeepDelta(KeepDelta(fields).value + [[]]) == KeepDelta(fields)
    ensures forall f :: f in KeepDelta(fields).value ==> f in fields && f != []
    decreases |fields|
  {
    if fields != [] && fields[0] != [] {
      KeepIsFixed(fields[2..]);
      var kept, rest := KeepDelta(fields).value, KeepDelta(fields[2..]).value;
      if IsSaipen(fields[1]) {
        assert kept == rest;
      } else {
        var again := kept + [[]];
        assert again[2..] == rest + [[]];
      }
    }
  }

  lemma {:induction false} KeepPathsIsFixed(paths: seq<bytes>)
    ensures KeepPaths(KeepPaths(paths) + [[]]) == KeepPaths(paths)
    ensures forall f :: f in KeepPaths(paths) ==> f in paths
  {
    if paths != [] {
      KeepPathsIsFixed(paths[1..]);
      if paths[0] != [] && !IsSaipen(paths[0]) {
        var again := KeepPaths(paths) + [[]];
        assert again[0] == paths[0] && again[1..] == KeepPaths(paths[1..]) + [[]];
      }
    }
  }

  /** The projection is a projection: written back as a listing, it projects to itself and
      is parsed to the same plans as the listing it came from. */
  lemma ProjectionIsFixed(raw: bytes, untracked: bytes)
    requires Filtered(raw, untracked).Ok?
    ensures var p := Filtered(raw, untracked).value;
            Filtered(Terminated(p.kept), Terminated(p.paths)) == Ok(p)
            && SortedPlans(Terminated(p.kept), Terminated(p.paths)) == SortedPlans(raw, untracked)
  {
    var p := Filtered(raw, untracked).value;
    KeepIsFixed(Split(raw, 0));
    KeepPathsIsFixed(Split(untracked, 0));
    SplitTerminated(p.kept);
    SplitTerminated(p.paths);
    SaipenNoninterference(raw, untracked, Terminated(p.kept), Terminated(p.paths));
  }
}
