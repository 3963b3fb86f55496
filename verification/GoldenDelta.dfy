/** The frozen oracle (tools/freshness_golden_v1.py): parse the listing and read every
    path as it is met, into one dict of records. The live parser refines it. */
module GoldenDelta {
  import opened Outcome
  import opened ByteStrings
  import opened Numerals
  import opened Framing
  import opened Dicts
  import opened GitDelta

  type Records = seq<Pair<Record>>

  /** The oracle's `_path_from_git` has no trailing-slash rule. */
  function GoldenLocate(raw: bytes): Result<bytes, Error> {
    if raw == [] || raw[0] == 47 || 0 in raw then Err(InvalidPath(raw))
    else if !CanonicalParts(raw) then Err(NonCanonicalPath(raw))
    else Ok(raw)
  }

  /** The oracle's `_record_current`, which knows no directories. */
  function GoldenRead(fs: FileSystem, raw: bytes, declared: Option<int>): Result<Record, Error> {
    match GoldenLocate(raw)
    case Err(e) => Err(e)
    case Ok(place) =>
      var node := At(fs, place);
      if node.Broken? then Err(CannotRead(raw))
      else if node.Link? then
        if declared.Some? && declared.value !in [MODE_LINK, 0] then Err(ModeDisagrees(raw))
        else Ok(Record([76], raw, MODE_LINK, node.target))
      else if node.File? then
        var found := if node.executable then MODE_EXECUTABLE else MODE_FILE;
        var mode := if declared.Some? && declared.value in [MODE_FILE, MODE_EXECUTABLE]
                    then declared.value else found;
        if declared.Some? && declared.value !in [mode, 0] then Err(ModeDisagrees(raw))
        else Ok(Record([70], raw, mode, node.content))
      else Err(UnsupportedType(raw))
  }

  /** The record of one tracked entry. */
  function GoldenEntry(fs: FileSystem, header: bytes, path: bytes): Result<Record, Error> {
    var parts := Words(header);
    if |parts| != 5 || !([58] <= parts[0]) then Err(UnparseableHeader(header))
    else
      var oldMode, newMode := OctalValue(parts[0][1..]), OctalValue(parts[1]);
      if oldMode.None? || newMode.None? then Err(InvalidMode(header))
      else GoldenStatus(fs, path, oldMode.value, newMode.value, parts[4][..if parts[4] == [] then 0 else 1])
  }

  function GoldenStatus(fs: FileSystem, path: bytes, oldMode: int, newMode: int, status: bytes): Result<Record, Error> {
    if status == Ascii("U") then Err(Unmerged(path))
    else if status !in [Ascii("A"), Ascii("D"), Ascii("M"), Ascii("T")] then Err(UnsupportedStatus(path))
    else if status == Ascii("D") || newMode == 0 then Ok(Record([68], path, oldMode, []))
    else if newMode == MODE_SUBMODULE then Err(ChangedSubmodule(path))
    else GoldenRead(fs, path, Some(newMode))
  }

  function GoldenTracked(fs: FileSystem, fields: seq<bytes>, d: Records): Result<Records, Error> {
    if fields == [] || fields[0] == [] then Ok(d)
    else if |fields| == 1 || fields[1] == [] then Err(TruncatedDelta)
    else if IsSaipen(fields[1]) then GoldenTracked(fs, fields[2..], d)
    else match GoldenEntry(fs, fields[0], fields[1])
      case Err(e) => Err(e)
      case Ok(r) => GoldenTracked(fs, fields[2..], Put(d, fields[1], r))
  }

  function GoldenUntracked(fs: FileSystem, paths: seq<bytes>, d: Records): Result<Records, Error> {
    if paths == [] then Ok(d)
    else if paths[0] == [] || IsSaipen(paths[0]) then GoldenUntracked(fs, paths[1..], d)
    else match GoldenRead(fs, paths[0], None)
      case Err(e) => Err(e)
      case Ok(r) => GoldenUntracked(fs, paths[1..], Put(d, paths[0], r))
  }

  function Values(d: Records): seq<Record> {
    seq(|d|, i requires 0 <= i < |d| => d[i].value)
  }

  /** The oracle's `_parse_git_delta`. */
  function GoldenRecords(fs: FileSystem, raw: bytes, untracked: bytes): Result<seq<Record>, Error> {
    match GoldenTracked(fs, Split(raw, 0), [])
    case Err(e) => Err(e)
    case Ok(d) =>
      match GoldenUntracked(fs, Split(untracked, 0), d)
      case Err(e) => Err(e)
      case Ok(all) => Ok(Values(all))
  }

  // ---------- the live parser refines the oracle ----------

  /** `g` holds, key by key, what reading the plans of `d` yields. */
  ghost predicate Realises(fs: FileSystem, d: Plans, g: Records) {
    if d == [] then g == []
    else g != [] && g[0].key == d[0].key && PlanRecord(fs, d[0]) == Ok(g[0].value) && Realises(fs, d[1..], g[1..])
  }

  lemma {:induction false} PutRealises(fs: FileSystem, d: Plans, g: Records, k: bytes, p: Plan, r: Record)
    requires Realises(fs, d, g) && PlanRecord(fs, Pair(k, p)) == Ok(r)
    ensures Realises(fs, Put(d, k, p), Put(g, k, r))
  {
    if d != [] && d[0].key != k {
      PutRealises(fs, d[1..], g[1..], k, p, r);
    }
  }

  lemma {:induction false} InsertRealises(fs: FileSystem, p: Pair<Plan>, r: Pair<Record>, d: Plans, g: Records)
    requires Realises(fs, d, g) && p.key == r.key && PlanRecord(fs, p) == Ok(r.value)
    ensures Realises(fs, Insert(p, d, KeyOf<Plan>), Insert(r, g, KeyOf<Record>))
  {
    if d != [] && Below(d[0].key, p.key) {
      InsertRealises(fs, p, r, d[1..], g[1..]);
    } else {
      assert ([p] + d)[1..] == d && ([r] + g)[1..] == g;
    }
  }

  lemma {:induction false} SortRealises(fs: FileSystem, d: Plans, g: Records)
    requires Realises(fs, d, g)
    ensures Realises(fs, SortBy(d, KeyOf<Plan>), SortBy(g, KeyOf<Record>))
  {
    if d != [] {
      SortRealises(fs, d[1..], g[1..]);
      InsertRealises(fs, d[0], g[0], SortBy(d[1..], KeyOf<Plan>), SortBy(g[1..], KeyOf<Record>));
    }
  }

  lemma {:induction false} RealisedRecords(fs: FileSystem, d: Plans, g: Records)
    requires Realises(fs, d, g)
    ensures PlanRecords(fs, d) == Ok(Values(g))
    ensures forall i :: 0 <= i < |g| ==> g[i].key == g[i].value.path
  {
    if d != [] {
      RealisedRecords(fs, d[1..], g[1..]);
      RecordPath(fs, d[0]);
      assert Values(g) == [g[0].value] + Values(g[1..]);
      assert forall i :: 1 <= i < |g| ==> g[i] == g[1..][i - 1];
    } else {
      assert Values(g) == [];
    }
  }

  lemma {:induction false} InsertValues(x: Pair<Record>, g: Records)
    requires x.key == x.value.path && forall i :: 0 <= i < |g| ==> g[i].key == g[i].value.path
    ensures Values(Insert(x, g, KeyOf<Record>)) == Insert(x.value, Values(g), PathOf)
  {
    if g != [] {
      InsertValues(x, g[1..]);
      assert Values(g)[1..] == Values(g[1..]);
    }
  }

  lemma {:induction false} SortValues(g: Records)
    requires forall i :: 0 <= i < |g| ==> g[i].key == g[i].value.path
    ensures Values(SortBy(g, KeyOf<Record>)) == SortBy(Values(g), PathOf)
  {
    if g != [] {
      SortValues(g[1..]);
      assert Values(g)[1..] == Values(g[1..]);
      forall i | 0 <= i < |SortBy(g[1..], KeyOf<Record>)|
        ensures var x := SortBy(g[1..], KeyOf<Record>)[i]; x.key == x.value.path
      {
        SortIsPermutation(g[1..], KeyOf<Record>);
        assert SortBy(g[1..], KeyOf<Record>)[i] in multiset(g[1..]);
      }
      InsertValues(g[0], SortBy(g[1..], KeyOf<Record>));
    }
  }

  lemma {:induction false} StripIsIdentity(path: bytes)
    requires CanonicalParts(path)
    ensures StripSlashes(path) == path
  {
    if path != [] && path[|path| - 1] == 47 {
      var front := path[..|path| - 1];
      assert path == front + [47];
      SplitEndsEmpty(front, 47);
    }
  }

  /** Whatever the oracle reads at a path, the live reader reads too. */
  lemma ReadRefines(fs: FileSystem, raw: bytes, declared: int)
    requires GoldenRead(fs, raw, if declared == 0 then None else Some(declared)).Ok?
    ensures PlanRecord(fs, Pair(raw, Plan(false, 0, declared)))
         == GoldenRead(fs, raw, if declared == 0 then None else Some(declared))
  {
    StripIsIdentity(raw);
  }

  lemma {:induction false} DeltaRefines(fs: FileSystem, fields: seq<bytes>, d: Plans, g: Records)
    requires Realises(fs, d, g) && GoldenTracked(fs, fields, g).Ok?
    ensures DeltaPlans(fields, d).Ok?
    ensures Realises(fs, DeltaPlans(fields, d).value, GoldenTracked(fs, fields, g).value)
    decreases |fields|
  {
    if fields != [] && fields[0] != [] {
      var path := fields[1];
      if IsSaipen(path) {
        DeltaRefines(fs, fields[2..], d, g);
      } else {
        EntryRefines(fs, fields[0], path);
        var p := HeaderPlan(fields[0], path).value;
        var r := PlanRecord(fs, Pair(path, p)).value;
        PutRealises(fs, d, g, path, p, r);
        DeltaRefines(fs, fields[2..], Put(d, path, p), Put(g, path, r));
      }
    }
  }

  lemma StatusLetters()
    ensures Ascii("U") == [85] && Ascii("A") == [65] && Ascii("D") == [68] && Ascii("M") == [77] && Ascii("T") == [84]
  {
  }

  /** One tracked entry: the oracle's record is the live plan, realised. */
  lemma EntryRefines(fs: FileSystem, header: bytes, path: bytes)
    requires GoldenEntry(fs, header, path).Ok?
    ensures HeaderPlan(header, path).Ok?
    ensures PlanRecord(fs, Pair(path, HeaderPlan(header, path).value)) == GoldenEntry(fs, header, path)
  {
    var parts := Words(header);
    assert parts[4] in parts && parts[4] != [];
    StatusLetters();
    var newMode := OctalValue(parts[1]).value;
    if parts[4][0] != 68 && newMode != 0 {
      ReadRefines(fs, path, newMode);
    }
  }

  lemma {:induction false} UntrackedRefines(fs: FileSystem, paths: seq<bytes>, d: Plans, g: Records)
    requires Realises(fs, d, g) && GoldenUntracked(fs, paths, g).Ok?
    ensures Realises(fs, UntrackedPlans(paths, d), GoldenUntracked(fs, paths, g).value)
  {
    if paths != [] {
      if paths[0] == [] || IsSaipen(paths[0]) {
        UntrackedRefines(fs, paths[1..], d, g);
      } else {
        ReadRefines(fs, paths[0], 0);
        var r := GoldenRead(fs, paths[0], None).value;
        PutRealises(fs, d, g, paths[0], UNTRACKED, r);
        UntrackedRefines(fs, paths[1..], Put(d, paths[0], UNTRACKED), Put(g, paths[0], r));
      }
    }
  }

  /** Wherever the oracle's parse succeeds, the live capture succeeds, frames the same records,
      and hashes the identical byte stream. */
  lemma LiveRefinesGolden(fs: FileSystem, raw: bytes, untracked: bytes, model: bytes)
    requires GoldenRecords(fs, raw, untracked).Ok?
    ensures LiveRecords(fs, raw, untracked) == Ok(SortBy(GoldenRecords(fs, raw, untracked).value, PathOf))
    ensures SourceBytes(model, LiveRecords(fs, raw, untracked).value)
         == DigestBytes(model, GoldenRecords(fs, raw, untracked).value)
  {
    var g1 := GoldenTracked(fs, Split(raw, 0), []).value;
    DeltaRefines(fs, Split(raw, 0), [], []);
    var d1 := DeltaPlans(Split(raw, 0), []).value;
    UntrackedRefines(fs, Split(untracked, 0), d1, g1);
    var g := GoldenUntracked(fs, Split(untracked, 0), g1).value;
    var d := UntrackedPlans(Split(untracked, 0), d1);
    SortRealises(fs, d, g);
    RealisedRecords(fs, d, g);
    SortValues(g);
    RealisedRecords(fs, SortBy(d, KeyOf<Plan>), SortBy(g, KeyOf<Record>));
  }

  lemma RecordPath(fs: FileSystem, p: Pair<Plan>)
    requires PlanRecord(fs, p).Ok?
    ensures PlanRecord(fs, p).value.path == p.key
  {
  }
}
