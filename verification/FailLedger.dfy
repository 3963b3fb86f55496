/** The ledger of the fail surface and its gate (tools/fail_site_inventory.py
    `inventory_errors`, `baseline_ids`, `regenerate`). */
module FailLedger {
  import opened Outcome
  import opened ByteStrings
  import opened FailSites
  import opened FailWalk

  datatype Disposition = Covered | NoMutationCase | Baseline | Unadjudicated | Unknown | Absent

  /** A record: an empty case or reason is a missing one. */
  datatype Row = Row(id: bytes, disposition: Disposition, control: bytes, reason: bytes)

  datatype Ledger = Ledger(rows: seq<Row>, count: Option<int>)

  datatype LedgerFile = Lost | Damaged | Good(ledger: Ledger)

  datatype Source = Missing | Unparsable | Parsed(tree: Node)

  datatype Problem =
    | StillUnadjudicated(id: bytes)
    | OutsideDispositions(id: bytes)
    | NoCase(id: bytes)
    | NoReason(id: bytes)
    | WrongCount(declared: int, listed: nat)

  datatype Report =
    | CannotRead
    | CannotParse
    | NoLedger
    | BadLedger
    | Compared(added: seq<bytes>, removed: seq<bytes>, problems: seq<Problem>)

  // ---------- the gate ----------

  function RowProblems(r: Row): seq<Problem> {
    (if r.disposition.Unadjudicated? then [StillUnadjudicated(r.id)]
     else if r.disposition in {Covered, NoMutationCase, Baseline} then []
     else [OutsideDispositions(r.id)])
    + (if r.disposition.Covered? && r.control == [] then [NoCase(r.id)] else [])
    + (if r.disposition.NoMutationCase? && r.reason == [] then [NoReason(r.id)] else [])
  }

  /** A record the gate has nothing against: COVERED with a case, without a mutation case for a
      reason, or BASELINE. */
  predicate Passes(r: Row) {
    || (r.disposition.Covered? && r.control != [])
    || (r.disposition.NoMutationCase? && r.reason != [])
    || r.disposition.Baseline?
  }

  /** What the gate says of a record. */
  predicate Complaint(r: Row, p: Problem) {
    match p
    case StillUnadjudicated(id) => id == r.id && r.disposition.Unadjudicated?
    case OutsideDispositions(id) => id == r.id && (r.disposition.Unknown? || r.disposition.Absent?)
    case NoCase(id) => id == r.id && r.disposition.Covered? && r.control == []
    case NoReason(id) => id == r.id && r.disposition.NoMutationCase? && r.reason == []
    case WrongCount(_, _) => false
  }

  lemma RowProblemsAre(r: Row)
    ensures Passes(r) ==> RowProblems(r) == []
    ensures !Passes(r) ==> |RowProblems(r)| == 1 && Complaint(r, RowProblems(r)[0])
  {
  }

  /** One complaint for each record that does not pass, in the order of the records; `at` says for which. */
  ghost predicate Listed(rows: seq<Row>, problems: seq<Problem>, at: seq<nat>) {
    && |at| == |problems|
    && (forall i :: 0 <= i < |at| ==> at[i] < |rows| && Complaint(rows[at[i]], problems[i]))
    && (forall i, j :: 0 <= i < j < |at| ==> at[i] < at[j])
    && (forall k: nat :: k < |rows| && !Passes(rows[k]) ==> k in at)
  }

  lemma ListedOneMore(rows: seq<Row>, k: nat, problems: seq<Problem>, at: seq<nat>)
    requires k < |rows| && Listed(rows[..k], problems, at)
    ensures Listed(rows[..k + 1], problems + RowProblems(rows[k]), at + if Passes(rows[k]) then [] else [k])
  {
    RowProblemsAre(rows[k]);
    var more := at + if Passes(rows[k]) then [] else [k];
    assert forall i :: 0 <= i < k ==> rows[..k][i] == rows[..k + 1][i];
    forall i: nat | i < |rows[..k + 1]| && !Passes(rows[..k + 1][i]) ensures i in more {
      if i == k {
        assert more[|at|] == k;
      } else {
        assert i in at;
      }
    }
  }

  lemma ListedNothing(rows: seq<Row>, problems: seq<Problem>, at: seq<nat>)
    requires Listed(rows, problems, at)
    ensures problems == [] <==> forall r :: r in rows ==> Passes(r)
  {
    if problems == [] {
      forall r | r in rows ensures Passes(r) {
        var k :| 0 <= k < |rows| && rows[k] == r;
        assert Passes(rows[k]) || k in at;
      }
    } else {
      assert at[0] < |rows| && rows[at[0]] in rows && Complaint(rows[at[0]], problems[0]);
    }
  }

  function CountProblem(l: Ledger): seq<Problem> {
    if l.count.Some? && l.count.value != |l.rows| then [WrongCount(l.count.value, |l.rows|)] else []
  }

  function LiveIds(hash: bytes -> bytes, pairs: seq<Pair>): set<bytes> {
    set k | k in Numbered(pairs) :: SiteId(hash, k)
  }

  function RecordedIds(rows: seq<Row>): set<bytes> {
    set r | r in rows :: r.id
  }

  function Members(s: seq<bytes>): set<bytes> { set x | x in s }

  /** `sorted` of a set. */
  method SortedSet(s: set<bytes>) returns (r: seq<bytes>)
    ensures (forall i, j :: 0 <= i < j < |r| ==> Below(r[i], r[j])) && Members(r) == s
  {
    r := [];
    var todo := s;
    var own := (x: bytes) => x;
    while todo != {}
      invariant todo <= s && Members(r) == s - todo
      invariant DistinctBy(r, own)
      decreases todo
    {
      var x :| x in todo;
      assert x !in Members(r);
      assert Members(r + [x]) == Members(r) + {x};
      r := r + [x];
      todo := todo - {x};
    }
    SortKeepsMembers(r, own);
    SortIsSorted(r, own);
    SortKeepsDistinct(r, own);
    assert Members(SortBy(r, own)) == Members(r);
    r := SortBy(r, own);
    forall i, j | 0 <= i < j < |r| ensures Below(r[i], r[j]) {
      BelowTotal(r[i], r[j]);
      assert own(r[i]) != own(r[j]);
    }
  }

  method RecordedSet(rows: seq<Row>) returns (recorded: set<bytes>)
    ensures recorded == RecordedIds(rows)
  {
    recorded := {};
    for i := 0 to |rows|
      invariant recorded == RecordedIds(rows[..i])
    {
      RecordedOneMore(rows, i);
      recorded := recorded + {rows[i].id};
    }
    assert rows[..|rows|] == rows;
  }

  method LiveSet(sites: seq<Key>, hash: bytes -> bytes) returns (live: set<bytes>)
    ensures live == set k | k in sites :: SiteId(hash, k)
  {
    live := {};
    for i := 0 to |sites|
      invariant live == set k | k in sites[..i] :: SiteId(hash, k)
    {
      assert sites[..i + 1] == sites[..i] + [sites[i]];
      live := live + {SiteId(hash, sites[i])};
    }
    assert sites[..|sites|] == sites;
  }

  /** What the gate says of the records, in turn. */
  method RecordProblems(rows: seq<Row>) returns (problems: seq<Problem>, ghost at: seq<nat>)
    ensures Listed(rows, problems, at)
  {
    problems, at := [], [];
    for i := 0 to |rows|
      invariant Listed(rows[..i], problems, at)
    {
      ListedOneMore(rows, i, problems, at);
      problems := problems + RowProblems(rows[i]);
      at := at + if Passes(rows[i]) then [] else [i];
    }
    assert rows[..|rows|] == rows;
  }

  /** `inventory_errors`. */
  method InventoryErrors(source: Source, file: LedgerFile, hash: bytes -> bytes)
    returns (report: Report, ghost at: seq<nat>)
    requires Ideal(hash) && (source.Parsed? ==> PlainNames(source.tree))
    ensures report.CannotRead? <==> source.Missing?
    ensures report.CannotParse? <==> source.Unparsable?
    ensures report.NoLedger? <==> source.Parsed? && file.Lost?
    ensures report.BadLedger? <==> source.Parsed? && file.Damaged?
    ensures report.Compared? ==>
              var live := LiveIds(hash, Pairs(source.tree, []));
              var recorded := RecordedIds(file.ledger.rows);
              && Members(report.added) == live - recorded && Members(report.removed) == recorded - live
              && (forall i, j :: 0 <= i < j < |report.added| ==> Below(report.added[i], report.added[j]))
              && (forall i, j :: 0 <= i < j < |report.removed| ==> Below(report.removed[i], report.removed[j]))
              && |at| <= |report.problems| && Listed(file.ledger.rows, report.problems[..|at|], at)
              && report.problems[|at|..] == if WrongCounted(file.ledger)
                                            then [WrongCount(file.ledger.count.value, |file.ledger.rows|)] else []
    ensures report == Compared([], [], []) <==>
              source.Parsed? && file.Good? && Clean(LiveIds(hash, Pairs(source.tree, [])), file.ledger)
  {
    at := [];
    match source
    case Missing => return CannotRead, at;
    case Unparsable => return CannotParse, at;
    case Parsed(tree) =>
      var sites := Sites(tree, hash);
      match file {
        case Lost => return NoLedger, at;
        case Damaged => return BadLedger, at;
        case Good(ledger) =>
          var recorded := RecordedSet(ledger.rows);
          var live := LiveSet(sites, hash);
          SortKeepsMembers(Numbered(Pairs(tree, [])), IdOf(hash));
          assert live == LiveIds(hash, Pairs(tree, []));
          var added := SortedSet(live - recorded);
          var removed := SortedSet(recorded - live);
          var problems;
          problems, at := RecordProblems(ledger.rows);
          NoneLeft(live, recorded, added, removed);
          ListedNothing(ledger.rows, problems, at);
          CutConcatProblems(problems, CountProblem(ledger));
          return Compared(added, removed, problems + CountProblem(ledger)), at;
      }
  }

  lemma CutConcatProblems(a: seq<Problem>, b: seq<Problem>)
    ensures (a + b)[..|a|] == a && (a + b)[|a|..] == b
  {
  }

  predicate WrongCounted(l: Ledger) {
    l.count.Some? && l.count.value != |l.rows|
  }

  /** The gate has nothing to report: the live ids are the recorded ones, every record passes, and
      the count is right or left out. */
  predicate Clean(live: set<bytes>, ledger: Ledger) {
    && live == RecordedIds(ledger.rows)
    && (forall r :: r in ledger.rows ==> Passes(r))
    && ledger.count in {None, Some(|ledger.rows|)}
  }

  lemma NoneLeft(live: set<bytes>, recorded: set<bytes>, added: seq<bytes>, removed: seq<bytes>)
    requires Members(added) == live - recorded && Members(removed) == recorded - live
    ensures added == [] && removed == [] <==> live == recorded
  {
    if added != [] {
      assert added[0] in Members(added);
    }
    if removed != [] {
      assert removed[0] in Members(removed);
    }
    if added == [] && removed == [] {
      forall x ensures x in live <==> x in recorded {
        assert x in live && x !in recorded ==> x in Members(added);
        assert x in recorded && x !in live ==> x in Members(removed);
      }
    }
  }

  lemma RecordedOneMore(rows: seq<Row>, i: nat)
    requires i < |rows|
    ensures RecordedIds(rows[..i + 1]) == RecordedIds(rows[..i]) + {rows[i].id}
  {
    assert rows[..i + 1] == rows[..i] + [rows[i]];
  }

  // ---------- identity, not volume ----------

  function IdSet(keys: seq<Key>, id: Key -> bytes): set<bytes> {
    set k | k in keys :: id(k)
  }

  lemma {:induction false} ImageCount(keys: seq<Key>, id: Key -> bytes)
    requires DistinctBy(keys, id)
    ensures |IdSet(keys, id)| == |keys|
  {
    if keys != [] {
      var front, last := keys[..|keys| - 1], keys[|keys| - 1];
      assert keys == front + [last];
      ImageOneMore(front, last, id);
      ImageCount(front, id);
    }
  }

  lemma ImageOneMore(front: seq<Key>, last: Key, id: Key -> bytes)
    requires DistinctBy(front + [last], id)
    ensures DistinctBy(front, id)
    ensures IdSet(front + [last], id) == IdSet(front, id) + {id(last)} && id(last) !in IdSet(front, id)
  {
    var keys := front + [last];
    assert forall i :: 0 <= i < |front| ==> keys[i] == front[i];
    forall k | k in front ensures id(k) != id(last) {
      var i :| 0 <= i < |front| && front[i] == k;
      assert keys[i] == k && keys[|front|] == last;
    }
  }

  /** Every site has an id of its own. */
  lemma SitesAreCounted(hash: bytes -> bytes, pairs: seq<Pair>)
    requires Ideal(hash) && AllNamed(pairs)
    ensures |LiveIds(hash, pairs)| == |pairs|
  {
    IdsAreDistinct(hash, pairs);
    ImageCount(Numbered(pairs), IdOf(hash));
    assert LiveIds(hash, pairs) == IdSet(Numbered(pairs), IdOf(hash));
    NumberedMeaning(pairs);
  }

  lemma IdKnowsKey(hash: bytes -> bytes, a: seq<Pair>, b: seq<Pair>, k: Key)
    requires Ideal(hash) && AllNamed(a) && AllNamed(b) && k in Numbered(a)
    ensures SiteId(hash, k) in LiveIds(hash, b) <==> k in Numbered(b)
  {
    KeysAreNamed(a, k);
    if SiteId(hash, k) in LiveIds(hash, b) {
      var j :| j in Numbered(b) && SiteId(hash, j) == SiteId(hash, k);
      KeysAreNamed(b, j);
      SiteIdIsInjective(hash, j, k);
    }
  }

  /** Two surfaces have the same ids exactly when they have the same sites, repeats counted. */
  lemma SameSurfaceIff(hash: bytes -> bytes, a: seq<Pair>, b: seq<Pair>)
    requires Ideal(hash) && AllNamed(a) && AllNamed(b)
    ensures LiveIds(hash, a) == LiveIds(hash, b) <==> multiset(a) == multiset(b)
  {
    SameKeysIff(a, b);
    if LiveIds(hash, a) == LiveIds(hash, b) {
      forall k ensures k in Numbered(a) <==> k in Numbered(b) {
        if k in Numbered(a) {
          assert SiteId(hash, k) in LiveIds(hash, a);
          IdKnowsKey(hash, a, b, k);
        }
        if k in Numbered(b) {
          assert SiteId(hash, k) in LiveIds(hash, b);
          IdKnowsKey(hash, b, a, k);
        }
      }
    }
  }

  lemma DifferenceCounts(a: set<bytes>, b: set<bytes>)
    ensures |a - b| - |b - a| == |a| - |b|
    ensures |a| == |b| && a != b ==> a - b != {} && b - a != {}
  {
    assert a == (a - b) + (a * b) && b == (b - a) + (a * b);
    if |a| == |b| && (a - b == {} || b - a == {}) {
      assert |a - b| == 0 && |b - a| == 0;
      assert a == b;
    }
  }

  /** A change that keeps the number of sites but not the sites is reported on both sides; in
      general the two reports differ by exactly the change in number. */
  lemma SwapIsSeenTwice(hash: bytes -> bytes, before: seq<Pair>, after: seq<Pair>)
    requires Ideal(hash) && AllNamed(before) && AllNamed(after)
    ensures var old_, live := LiveIds(hash, before), LiveIds(hash, after);
            |live - old_| - |old_ - live| == |after| - |before|
            && (live - old_ == {} && old_ - live == {} <==> multiset(before) == multiset(after))
            && (|before| == |after| && multiset(before) != multiset(after) ==> live - old_ != {} && old_ - live != {})
  {
    SitesAreCounted(hash, before);
    SitesAreCounted(hash, after);
    SameSurfaceIff(hash, before, after);
    DifferenceCounts(LiveIds(hash, after), LiveIds(hash, before));
    var old_, live := LiveIds(hash, before), LiveIds(hash, after);
    if live - old_ == {} && old_ - live == {} {
      forall x ensures x in live <==> x in old_ {
        assert x in live && x !in old_ ==> x in live - old_;
        assert x in old_ && x !in live ==> x in old_ - live;
      }
    }
  }

  // ---------- regeneration ----------

  /** `ledger_index`: the last record of an id wins. */
  function Index(rows: seq<Row>): map<bytes, Row> {
    if rows == [] then map[] else Index(rows[..|rows| - 1])[rows[|rows| - 1].id := rows[|rows| - 1]]
  }

  function Known(file: LedgerFile): map<bytes, Row> {
    if file.Good? then Index(file.ledger.rows) else map[]
  }

  /** The verdict a site keeps, or the one that awaits it. */
  function Verdict(known: map<bytes, Row>, id: bytes): Row {
    if id !in known then Row(id, Unadjudicated, [], [])
    else
      var r := known[id];
      Row(id, if r.disposition.Absent? then Unadjudicated else r.disposition, r.control, r.reason)
  }

  function Verdicts(hash: bytes -> bytes, sites: seq<Key>, known: map<bytes, Row>): seq<Row> {
    if sites == [] then []
    else
      Verdicts(hash, sites[..|sites| - 1], known) + [Verdict(known, SiteId(hash, sites[|sites| - 1]))]
  }

  function Regenerated(hash: bytes -> bytes, tree: Node, file: LedgerFile): Ledger {
    var rows := Verdicts(hash, Inventory(hash, Pairs(tree, [])), Known(file));
    Ledger(rows, Some(|rows|))
  }

  /** `regenerate`. */
  method Regenerate(tree: Node, file: LedgerFile, hash: bytes -> bytes) returns (ledger: Ledger)
    requires Ideal(hash) && PlainNames(tree)
    ensures ledger == Regenerated(hash, tree, file)
  {
    var sites := Sites(tree, hash);
    var known: map<bytes, Row> := map[];
    if file.Good? {
      for i := 0 to |file.ledger.rows|
        invariant known == Index(file.ledger.rows[..i])
      {
        assert file.ledger.rows[..i + 1][..i] == file.ledger.rows[..i];
        known := known[file.ledger.rows[i].id := file.ledger.rows[i]];
      }
      assert file.ledger.rows[..|file.ledger.rows|] == file.ledger.rows;
    }
    var rows: seq<Row> := [];
    for i := 0 to |sites|
      invariant rows == Verdicts(hash, sites[..i], known)
    {
      assert sites[..i + 1][..i] == sites[..i];
      rows := rows + [Verdict(known, SiteId(hash, sites[i]))];
    }
    assert sites[..|sites|] == sites;
    return Ledger(rows, Some(|rows|));
  }

  lemma {:induction false} VerdictMembers(hash: bytes -> bytes, sites: seq<Key>, known: map<bytes, Row>, r: Row)
    ensures r in Verdicts(hash, sites, known) <==> exists k :: k in sites && r == Verdict(known, SiteId(hash, k))
  {
    if sites != [] {
      var front, last := sites[..|sites| - 1], sites[|sites| - 1];
      assert sites == front + [last];
      VerdictMembers(hash, front, known, r);
    }
  }

  /** A regenerated ledger records exactly the live sites, each with its verdict. */
  lemma RegeneratedRows(hash: bytes -> bytes, tree: Node, file: LedgerFile, r: Row)
    ensures r in Regenerated(hash, tree, file).rows <==>
              r.id in LiveIds(hash, Pairs(tree, [])) && r == Verdict(Known(file), r.id)
  {
    var sites := Inventory(hash, Pairs(tree, []));
    VerdictMembers(hash, sites, Known(file), r);
    SortKeepsMembers(Numbered(Pairs(tree, [])), IdOf(hash));
    if r.id in LiveIds(hash, Pairs(tree, [])) {
      var k :| k in Numbered(Pairs(tree, [])) && SiteId(hash, k) == r.id;
      assert k in sites;
    }
  }

  lemma RegeneratedIds(hash: bytes -> bytes, tree: Node, file: LedgerFile)
    ensures RecordedIds(Regenerated(hash, tree, file).rows) == LiveIds(hash, Pairs(tree, []))
  {
    var rows := Regenerated(hash, tree, file).rows;
    forall id ensures id in RecordedIds(rows) <==> id in LiveIds(hash, Pairs(tree, [])) {
      RegeneratedRows(hash, tree, file, Verdict(Known(file), id));
      if id in RecordedIds(rows) {
        var r :| r in rows && r.id == id;
        RegeneratedRows(hash, tree, file, r);
      }
    }
  }

  /** The gate over a ledger regenerated at one source and a later source: identities agree
      exactly when the sites do, wherever they have moved. */
  lemma GateSeesIdentity(hash: bytes -> bytes, cut: Node, live: Node, file: LedgerFile)
    requires Ideal(hash) && PlainNames(cut) && PlainNames(live)
    ensures LiveIds(hash, Pairs(live, [])) == RecordedIds(Regenerated(hash, cut, file).rows)
       <==> multiset(Pairs(live, [])) == multiset(Pairs(cut, []))
  {
    RegeneratedIds(hash, cut, file);
    PairsAreNamed(cut, []);
    PairsAreNamed(live, []);
    SameSurfaceIff(hash, Pairs(live, []), Pairs(cut, []));
  }

  // ---------- the inherited set only shrinks ----------

  /** `baseline_ids`. */
  function BaselineIds(rows: seq<Row>): set<bytes> {
    set r | r in rows && r.disposition.Baseline? :: r.id
  }

  function BaselineOf(file: LedgerFile): set<bytes> {
    if file.Good? then BaselineIds(file.ledger.rows) else {}
  }

  lemma {:induction false} IndexedRow(rows: seq<Row>, id: bytes)
    ensures id in Index(rows) <==> id in RecordedIds(rows)
    ensures id in Index(rows) ==> exists i: nat :: LastOf(rows, i, id) && rows[i] == Index(rows)[id]
  {
    if rows != [] {
      var n := |rows| - 1;
      IndexedRow(rows[..n], id);
      RecordedOneMore(rows, n);
      assert rows[..|rows|] == rows;
      if rows[n].id == id {
        assert LastOf(rows, n, id);
      } else if id in Index(rows) {
        var i: nat :| LastOf(rows[..n], i, id) && rows[..n][i] == Index(rows[..n])[id];
        assert forall j :: i < j < n ==> rows[j] == rows[..n][j];
        assert LastOf(rows, i, id);
      }
    }
  }

  predicate LastOf(rows: seq<Row>, i: nat, id: bytes) {
    i < |rows| && rows[i].id == id && forall j :: i < j < |rows| ==> rows[j].id != id
  }

  /** A record for `id`, made from the record `q`. */
  predicate KeptFrom(q: Row, r: Row) {
    && r.id == q.id && r.control == q.control && r.reason == q.reason
    && r.disposition == if q.disposition.Absent? then Unadjudicated else q.disposition
  }

  /** A regenerated ledger, record by record: exactly the live sites, in the order of the inventory and counted,
      each with disposition, case and reason of the last record of its id, or UNADJUDICATED with neither. */
  lemma RegeneratedMeaning(hash: bytes -> bytes, tree: Node, file: LedgerFile, r: Row)
    ensures r in Regenerated(hash, tree, file).rows <==>
              r.id in LiveIds(hash, Pairs(tree, []))
              && if file.Good? && r.id in RecordedIds(file.ledger.rows)
                 then exists i: nat :: LastOf(file.ledger.rows, i, r.id) && KeptFrom(file.ledger.rows[i], r)
                 else r == Row(r.id, Unadjudicated, [], [])
    ensures var keys, ledger := Inventory(hash, Pairs(tree, [])), Regenerated(hash, tree, file);
            |ledger.rows| == |keys| && ledger.count == Some(|keys|)
            && forall i :: 0 <= i < |keys| ==> ledger.rows[i].id == SiteId(hash, keys[i])
  {
    RegeneratedRows(hash, tree, file, r);
    VerdictOrder(hash, Inventory(hash, Pairs(tree, [])), Known(file));
    VerdictIs(file, r);
  }

  lemma VerdictIs(file: LedgerFile, r: Row)
    ensures r == Verdict(Known(file), r.id) <==>
              if file.Good? && r.id in RecordedIds(file.ledger.rows)
              then exists i: nat :: LastOf(file.ledger.rows, i, r.id) && KeptFrom(file.ledger.rows[i], r)
              else r == Row(r.id, Unadjudicated, [], [])
  {
    if file.Good? {
      IndexedRow(file.ledger.rows, r.id);
    }
  }

  lemma {:induction false} VerdictOrder(hash: bytes -> bytes, sites: seq<Key>, known: map<bytes, Row>)
    ensures var rows := Verdicts(hash, sites, known);
            |rows| == |sites| && forall i :: 0 <= i < |sites| ==> rows[i].id == SiteId(hash, sites[i])
  {
    if sites != [] {
      VerdictOrder(hash, sites[..|sites| - 1], known);
    }
  }

  /** Regeneration keeps a BASELINE verdict exactly for a live site whose last record had it. */
  lemma RegeneratedBaseline(hash: bytes -> bytes, tree: Node, file: LedgerFile)
    ensures var known := Known(file);
            forall id :: id in BaselineIds(Regenerated(hash, tree, file).rows) <==>
              id in LiveIds(hash, Pairs(tree, [])) && id in known && known[id].disposition.Baseline?
    ensures BaselineIds(Regenerated(hash, tree, file).rows) <= BaselineOf(file)
  {
    var rows, known := Regenerated(hash, tree, file).rows, Known(file);
    forall id
      ensures id in BaselineIds(rows) <==>
                id in LiveIds(hash, Pairs(tree, [])) && id in known && known[id].disposition.Baseline?
    {
      RegeneratedRows(hash, tree, file, Verdict(known, id));
      if id in BaselineIds(rows) {
        var r :| r in rows && r.disposition.Baseline? && r.id == id;
        RegeneratedRows(hash, tree, file, r);
      }
    }
    forall id | id in BaselineIds(rows) ensures id in BaselineOf(file) {
      IndexedRow(file.ledger.rows, id);
    }
  }

  /** What happens to the validator and its ledger: an edit, a regeneration, an adjudication that
      records a control or a reason, or a damaged file. */
  datatype Event =
    | Edit(tree: Node)
    | Regeneration
    | Adjudicate(id: bytes, disposition: Disposition, control: bytes, reason: bytes)
    | Damage

  datatype State = State(tree: Node, file: LedgerFile)

  function Adjudicated(rows: seq<Row>, id: bytes, verdict: Row): seq<Row> {
    if rows == [] then []
    else
      Adjudicated(rows[..|rows| - 1], id, verdict)
      + [if rows[|rows| - 1].id == id then verdict.(id := id) else rows[|rows| - 1]]
  }

  function Next(hash: bytes -> bytes, s: State, e: Event): State {
    match e
    case Edit(tree) => s.(tree := tree)
    case Regeneration => s.(file := Good(Regenerated(hash, s.tree, s.file)))
    case Adjudicate(id, disposition, control, reason) =>
      if s.file.Good? && disposition in {Covered, NoMutationCase} then
        s.(file := Good(s.file.ledger.(rows := Adjudicated(s.file.ledger.rows, id, Row(id, disposition, control, reason)))))
      else s
    case Damage => s.(file := Damaged)
  }

  function Run(hash: bytes -> bytes, s: State, events: seq<Event>): State
    decreases |events|
  {
    if events == [] then s else Run(hash, Next(hash, s, events[0]), events[1..])
  }

  /** Event by event. */
  lemma {:induction false} OneMoreEvent(hash: bytes -> bytes, s: State, events: seq<Event>, e: Event)
    ensures Run(hash, s, []) == s && Run(hash, s, events + [e]) == Next(hash, Run(hash, s, events), e)
    decreases |events|
  {
    if events == [] {
      assert events + [e] == [e] && [e][1..] == [];
    } else {
      assert (events + [e])[0] == events[0] && (events + [e])[1..] == events[1..] + [e];
      OneMoreEvent(hash, Next(hash, s, events[0]), events[1..], e);
    }
  }

  /** What an event does: an edit leaves the ledger, everything else the validator; an adjudication
      rewrites the records of one id, to COVERED or to no mutation case, and no others. */
  lemma EventMeaning(hash: bytes -> bytes, s: State, tree: Node, id: bytes, d: Disposition, control: bytes, reason: bytes, r: Row)
    ensures Next(hash, s, Edit(tree)) == State(tree, s.file) && Next(hash, s, Damage) == State(s.tree, Damaged)
    ensures Next(hash, s, Regeneration) == State(s.tree, Good(Regenerated(hash, s.tree, s.file)))
    ensures var t := Next(hash, s, Adjudicate(id, d, control, reason));
            && t.tree == s.tree && (!s.file.Good? || (d != Covered && d != NoMutationCase) ==> t == s)
            && (s.file.Good? && (d == Covered || d == NoMutationCase) ==>
                  && t.file.Good? && t.file.ledger.count == s.file.ledger.count
                  && |t.file.ledger.rows| == |s.file.ledger.rows|
                  && (r in t.file.ledger.rows <==>
                        || (r in s.file.ledger.rows && r.id != id)
                        || (r == Row(id, d, control, reason) && id in RecordedIds(s.file.ledger.rows))))
  {
    if s.file.Good? {
      AdjudicatedMembers(s.file.ledger.rows, id, Row(id, d, control, reason), r);
    }
  }

  lemma {:induction false} AdjudicationShrinks(rows: seq<Row>, id: bytes, verdict: Row)
    requires verdict.disposition in {Covered, NoMutationCase}
    ensures BaselineIds(Adjudicated(rows, id, verdict)) == BaselineIds(rows) - {id}
  {
    if rows != [] {
      var front, last := rows[..|rows| - 1], rows[|rows| - 1];
      AdjudicationShrinks(front, id, verdict);
      var one := if last.id == id then verdict.(id := id) else last;
      BaselineAppend(front, last);
      BaselineAppend(Adjudicated(front, id, verdict), one);
      assert rows == front + [last];
    }
  }

  lemma BaselineAppend(rows: seq<Row>, r: Row)
    ensures BaselineIds(rows + [r]) == BaselineIds(rows) + if r.disposition.Baseline? then {r.id} else {}
  {
  }

  /** Over any run, the inherited set never gains an id, so one that has left it stays out. */
  lemma {:induction false} BaselineOnlyShrinks(hash: bytes -> bytes, s: State, events: seq<Event>)
    ensures BaselineOf(Run(hash, s, events).file) <= BaselineOf(s.file)
    decreases |events|
  {
    if events != [] {
      var e := events[0];
      if e.Regeneration? {
        RegeneratedBaseline(hash, s.tree, s.file);
      } else if e.Adjudicate? && s.file.Good? && e.disposition in {Covered, NoMutationCase} {
        AdjudicationShrinks(s.file.ledger.rows, e.id, Row(e.id, e.disposition, e.control, e.reason));
      }
      BaselineOnlyShrinks(hash, Next(hash, s, e), events[1..]);
    }
  }

  /** A site the ledger has never seen leaves the gate red after a regeneration. */
  lemma NewSiteStaysRed(hash: bytes -> bytes, tree: Node, file: LedgerFile, id: bytes, live: set<bytes>)
    requires id in LiveIds(hash, Pairs(tree, []))
    requires file.Good? ==> id !in RecordedIds(file.ledger.rows)
    ensures Row(id, Unadjudicated, [], []) in Regenerated(hash, tree, file).rows
    ensures !Clean(live, Regenerated(hash, tree, file))
  {
    var r := Row(id, Unadjudicated, [], []);
    RegeneratedMeaning(hash, tree, file, r);
    assert !Passes(r);
  }

  // ---------- what the gate does not hold ----------

  lemma OneMoreRow(rows: seq<Row>, r: Row)
    ensures RecordedIds(rows + [r]) == RecordedIds(rows) + {r.id}
  {
    assert (rows + [r])[..|rows|] == rows;
    RecordedOneMore(rows + [r], |rows|);
    assert (rows + [r])[..|rows| + 1] == rows + [r];
  }

  /** A record written into the ledger by hand as BASELINE passes exactly when the rest of the
      ledger does, it completes the live ids, and the declared count, if there is one, counts it. */
  lemma HandWrittenBaselineIff(live: set<bytes>, ledger: Ledger, id: bytes, control: bytes, reason: bytes)
    ensures var after := ledger.(rows := ledger.rows + [Row(id, Baseline, control, reason)]);
            id in BaselineIds(after.rows)
            && (Clean(live, after) <==>
                  (forall r :: r in ledger.rows ==> Passes(r)) && live == RecordedIds(ledger.rows) + {id}
                  && ledger.count in {None, Some(|ledger.rows| + 1)})
  {
    var r := Row(id, Baseline, control, reason);
    OneMoreRow(ledger.rows, r);
    BaselineAppend(ledger.rows, r);
    assert forall q :: q in ledger.rows + [r] <==> q in ledger.rows || q == r;
  }

  lemma {:induction false} AdjudicatedMembers(rows: seq<Row>, id: bytes, verdict: Row, r: Row)
    ensures r in Adjudicated(rows, id, verdict) <==>
              (r in rows && r.id != id) || (r == verdict.(id := id) && id in RecordedIds(rows))
    ensures |Adjudicated(rows, id, verdict)| == |rows|
  {
    if rows != [] {
      var front, last := rows[..|rows| - 1], rows[|rows| - 1];
      assert rows == front + [last];
      AdjudicatedMembers(front, id, verdict, r);
      OneMoreRow(front, last);
    }
  }

  /** The rows are the verdicts of the live ids, one for each. */
  ghost predicate CutFor(rows: seq<Row>, live: set<bytes>, known: map<bytes, Row>) {
    forall r :: r in rows <==> r.id in live && r == Verdict(known, r.id)
  }

  function Excuse(id: bytes): Row { Row(id, Baseline, [], []) }

  lemma ExcusedRow(rows: seq<Row>, live: set<bytes>, known: map<bytes, Row>, id: bytes, r: Row)
    requires CutFor(rows, live, known) && id in live
    ensures r in Adjudicated(rows, id, Excuse(id)) <==>
              r == Excuse(id) || (r.id in live && r.id != id && r == Verdict(known, r.id))
  {
    assert Verdict(known, id) in rows;
    assert id in RecordedIds(rows);
    AdjudicatedMembers(rows, id, Excuse(id), r);
  }

  lemma ExcusedIds(rows: seq<Row>, live: set<bytes>, known: map<bytes, Row>, id: bytes)
    requires CutFor(rows, live, known) && id in live
    ensures RecordedIds(Adjudicated(rows, id, Excuse(id))) == live
  {
    var after := Adjudicated(rows, id, Excuse(id));
    forall k ensures k in RecordedIds(after) <==> k in live {
      ExcusedRow(rows, live, known, id, if k == id then Excuse(id) else Verdict(known, k));
      if k in RecordedIds(after) {
        var r :| r in after && r.id == k;
        ExcusedRow(rows, live, known, id, r);
      }
    }
  }

  lemma ExcusedPasses(rows: seq<Row>, live: set<bytes>, known: map<bytes, Row>, id: bytes)
    requires CutFor(rows, live, known) && id in live
    ensures (forall r :: r in Adjudicated(rows, id, Excuse(id)) ==> Passes(r)) <==>
              forall r :: r in rows && r.id != id ==> Passes(r)
  {
    forall r ensures r in Adjudicated(rows, id, Excuse(id)) <==> r == Excuse(id) || (r in rows && r.id != id) {
      ExcusedRow(rows, live, known, id, r);
    }
  }

  /** The ledger after a regeneration, with a new site's record rewritten to BASELINE. */
  function Excused(cut: Ledger, id: bytes): Ledger {
    cut.(rows := Adjudicated(cut.rows, id, Excuse(id)))
  }

  lemma RegeneratedCut(hash: bytes -> bytes, tree: Node, file: LedgerFile)
    ensures var cut := Regenerated(hash, tree, file);
            CutFor(cut.rows, LiveIds(hash, Pairs(tree, [])), Known(file)) && cut.count == Some(|cut.rows|)
  {
    forall r
      ensures r in Regenerated(hash, tree, file).rows <==>
                r.id in LiveIds(hash, Pairs(tree, [])) && r == Verdict(Known(file), r.id)
    {
      RegeneratedRows(hash, tree, file, r);
    }
  }

  /** How the inherited set grows all the same: a site never seen before is regenerated as
      UNADJUDICATED, and rewriting that to BASELINE satisfies the gate exactly when every other
      record satisfies it. */
  lemma NewSiteBecomesBaseline(hash: bytes -> bytes, tree: Node, file: LedgerFile, id: bytes)
    requires id in LiveIds(hash, Pairs(tree, [])) && (file.Good? ==> id !in RecordedIds(file.ledger.rows))
    ensures id !in BaselineOf(file) && id in BaselineIds(Excused(Regenerated(hash, tree, file), id).rows)
    ensures Clean(LiveIds(hash, Pairs(tree, [])), Excused(Regenerated(hash, tree, file), id)) <==>
              forall r :: r in Regenerated(hash, tree, file).rows && r.id != id ==> Passes(r)
  {
    RegeneratedCut(hash, tree, file);
    ExcusedIsClean(Regenerated(hash, tree, file), LiveIds(hash, Pairs(tree, [])), Known(file), id);
  }

  lemma ExcusedIsClean(cut: Ledger, live: set<bytes>, known: map<bytes, Row>, id: bytes)
    requires CutFor(cut.rows, live, known) && cut.count == Some(|cut.rows|) && id in live
    ensures id in BaselineIds(Excused(cut, id).rows)
    ensures Clean(live, Excused(cut, id)) <==> forall r :: r in cut.rows && r.id != id ==> Passes(r)
  {
    ExcusedRow(cut.rows, live, known, id, Excuse(id));
    ExcusedIds(cut.rows, live, known, id);
    ExcusedPasses(cut.rows, live, known, id);
    AdjudicatedMembers(cut.rows, id, Excuse(id), Excuse(id));
  }
}
