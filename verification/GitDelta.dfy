/** Git's delta listing and what source identity makes of it: the live parser, its plans
    and the records read for them (tools/freshness.py). */
module GitDelta {
  import opened Outcome
  import opened ByteStrings
  import opened Numerals
  import opened Framing
  import opened Dicts

  datatype Error =
    | TruncatedDelta
    | UnparseableHeader(header: bytes)
    | InvalidMode(header: bytes)
    | Unmerged(path: bytes)
    | UnsupportedStatus(path: bytes)
    | ChangedSubmodule(path: bytes)
    | InvalidPath(path: bytes)
    | NonCanonicalPath(path: bytes)
    | CannotRead(path: bytes)
    | UnsupportedType(path: bytes)
    | ModeDisagrees(path: bytes)
    | BadFrame(frame: FrameError)
    | GitFailed
    | ListingMoved
    | ContentMoved
    | NestedFailed
    | NestedMoved

  const MODE_FILE: int := 33188       // 0o100644
  const MODE_EXECUTABLE: int := 33261 // 0o100755
  const MODE_LINK: int := 40960       // 0o120000
  const MODE_DIRECTORY: int := 16384  // 0o040000
  const MODE_SUBMODULE: int := 57344  // 0o160000

  const KIND_DELETED: bytes := [68]
  const KIND_FILE: bytes := [70]
  const KIND_LINK: bytes := [76]
  const KIND_DIRECTORY: bytes := [68] // an unentered directory shares the letter of a deletion

  // ---------- header text ----------

  function WordLength(s: bytes): (n: nat)
    ensures n <= |s|
    ensures s != [] && !IsSpace(s[0]) ==> n > 0
  {
    if s == [] || IsSpace(s[0]) then 0 else 1 + WordLength(s[1..])
  }

  /** `s.split()`: maximal runs of non-whitespace. */
  function Words(s: bytes): (ws: seq<bytes>)
    ensures forall w :: w in ws ==> w != []
    decreases |s|
  {
    if s == [] then []
    else if IsSpace(s[0]) then Words(s[1..])
    else
      var n := WordLength(s);
      [s[..n]] + Words(s[n..])
  }

  // ---------- the live parser ----------

  const SAIPEN: bytes := Ascii(".saipen")

  predicate IsSaipen(path: bytes) {
    path == SAIPEN || SAIPEN + [47] <= path
  }

  /** The excluded paths are those whose first component is `.saipen`. */
  lemma SaipenIsFirstComponent(path: bytes)
    ensures IsSaipen(path) <==> Split(path, 47)[0] == Ascii(".saipen")
  {
    assert Ascii(".saipen") == [46, 115, 97, 105, 112, 101, 110];
    FirstPart(path, Ascii(".saipen"), 47);
  }

  /** The tuple `(kind, old_mode, new_mode)` the live parser stores for a path. */
  datatype Plan = Plan(deleted: bool, oldMode: int, newMode: int)

  type Plans = seq<Pair<Plan>>

  function HeaderPlan(header: bytes, path: bytes): Result<Plan, Error> {
    var parts := Words(header);
    if |parts| != 5 || !([58] <= parts[0]) then Err(UnparseableHeader(header))
    else
      assert parts[4] in parts;
      match (OctalValue(parts[0][1..]), OctalValue(parts[1]))
      case (Some(oldMode), Some(newMode)) =>
        var status := parts[4][0];
        if status == 85 then Err(Unmerged(path))
        else if status !in [65, 68, 77, 84] then Err(UnsupportedStatus(path))
        else if status == 68 || newMode == 0 then Ok(Plan(true, oldMode, newMode))
        else if newMode == MODE_SUBMODULE then Err(ChangedSubmodule(path))
        else Ok(Plan(false, oldMode, newMode))
      case _ => Err(InvalidMode(header))
  }

  /** The `--raw` half: header and path fields alternate until an empty field. */
  function DeltaPlans(fields: seq<bytes>, d: Plans): Result<Plans, Error> {
    if fields == [] || fields[0] == [] then Ok(d)
    else if |fields| < 2 || fields[1] == [] then Err(TruncatedDelta)
    else if IsSaipen(fields[1]) then DeltaPlans(fields[2..], d)
    else match HeaderPlan(fields[0], fields[1])
      case Err(e) => Err(e)
      case Ok(p) => DeltaPlans(fields[2..], Put(d, fields[1], p))
  }

  const UNTRACKED: Plan := Plan(false, 0, 0)

  /** The untracked half overrides the delta half. */
  function UntrackedPlans(paths: seq<bytes>, d: Plans): Plans {
    if paths == [] then d
    else UntrackedPlans(paths[1..],
                        if paths[0] == [] || IsSaipen(paths[0]) then d else Put(d, paths[0], UNTRACKED))
  }

  function ListingPlans(raw: bytes, untracked: bytes): Result<Plans, Error> {
    match DeltaPlans(Split(raw, 0), [])
    case Err(e) => Err(e)
    case Ok(d) => Ok(UntrackedPlans(Split(untracked, 0), d))
  }

  /** `sorted(records)` over the parsed listing. */
  function SortedPlans(raw: bytes, untracked: bytes): Result<Plans, Error> {
    match ListingPlans(raw, untracked)
    case Err(e) => Err(e)
    case Ok(d) => Ok(SortBy(d, KeyOf<Plan>))
  }

  /** The parsing loops of `_parse_git_delta_evidence`. */
  method ParseListing(raw: bytes, untracked: bytes) returns (r: Result<Plans, Error>)
    ensures r == SortedPlans(raw, untracked)
  {
    var records: Plans := [];
    var fields := Split(raw, 0);
    var index := 0;
    while index < |fields| && fields[index] != []
      invariant 0 <= index <= |fields|
      invariant DeltaPlans(fields[index..], records) == DeltaPlans(fields, [])
    {
      var header := fields[index];
      assert fields[index..][0] == header;
      index := index + 1;
      if index >= |fields| || fields[index] == [] {
        return Err(TruncatedDelta);
      }
      var path := fields[index];
      assert fields[index - 1..][1] == path && fields[index - 1..][2..] == fields[index + 1..];
      index := index + 1;
      if IsSaipen(path) {
        continue;
      }
      match HeaderPlan(header, path) {
        case Err(e) => return Err(e);
        case Ok(p) => records := Put(records, path, p);
      }
    }
    ghost var d := records;
    assert DeltaPlans(fields, []) == Ok(d);
    var paths := Split(untracked, 0);
    var k := 0;
    while k < |paths|
      invariant 0 <= k <= |paths|
      invariant UntrackedPlans(paths[k..], records) == UntrackedPlans(paths, d)
    {
      assert paths[k..][0] == paths[k] && paths[k..][1..] == paths[k + 1..];
      if paths[k] != [] && !IsSaipen(paths[k]) {
        records := Put(records, paths[k], UNTRACKED);
      }
      k := k + 1;
    }
    return Ok(SortBy(records, KeyOf<Plan>));
  }

  // ---------- reading one path ----------

  datatype Node = File(executable: bool, content: bytes) | Link(target: bytes) | Directory | Special | Broken

  /** What stands at each path below the root; absence and `Broken` both fail to read. */
  type FileSystem = map<bytes, Node>

  function At(fs: FileSystem, path: bytes): Node {
    if path in fs then fs[path] else Broken
  }

  function StripSlashes(path: bytes): bytes {
    if path != [] && path[|path| - 1] == 47 then StripSlashes(path[..|path| - 1]) else path
  }

  predicate CanonicalParts(path: bytes) {
    forall part :: part in Split(path, 47) ==> part != [] && part != [46] && part != [46, 46]
  }

  /** `_path_from_git`: the place a listed path names, trailing slashes dropped. */
  function Locate(raw: bytes): Result<bytes, Error> {
    if raw == [] || raw[0] == 47 || 0 in raw then Err(InvalidPath(raw))
    else if !CanonicalParts(StripSlashes(raw)) then Err(NonCanonicalPath(raw))
    else Ok(StripSlashes(raw))
  }

  /** The record made of what was found at a listed path; `declared` is `new_mode or None`. */
  function NodeRecord(node: Node, raw: bytes, declared: int): Result<Record, Error> {
    match node
    case Broken => Err(CannotRead(raw))
    case Special => Err(UnsupportedType(raw))
    case Link(target) =>
      if declared !in [0, MODE_LINK] then Err(ModeDisagrees(raw))
      else Ok(Record(KIND_LINK, raw, MODE_LINK, target))
    case File(executable, content) =>
      var mode := if declared in [MODE_FILE, MODE_EXECUTABLE] then declared
                  else if executable then MODE_EXECUTABLE else MODE_FILE;
      if declared !in [0, mode] then Err(ModeDisagrees(raw))
      else Ok(Record(KIND_FILE, raw, mode, content))
    case Directory =>
      if declared != 0 then Err(UnsupportedType(raw))
      else Ok(Record(KIND_DIRECTORY, raw, MODE_DIRECTORY, []))
  }

  /** The record of one planned path: a deletion needs no read. */
  function PlanRecord(fs: FileSystem, p: Pair<Plan>): Result<Record, Error> {
    if p.value.deleted then Ok(Record(KIND_DELETED, p.key, p.value.oldMode, []))
    else match Locate(p.key)
      case Err(e) => Err(e)
      case Ok(place) => NodeRecord(At(fs, place), p.key, p.value.newMode)
  }

  function PlanRecords(fs: FileSystem, plans: Plans): Result<seq<Record>, Error> {
    if plans == [] then Ok([])
    else match PlanRecord(fs, plans[0])
      case Err(e) => Err(e)
      case Ok(r) =>
        match PlanRecords(fs, plans[1..])
        case Err(e) => Err(e)
        case Ok(rs) => Ok([r] + rs)
  }

  /** The records the live capture frames on an unmoving file system, in framing order. */
  function LiveRecords(fs: FileSystem, raw: bytes, untracked: bytes): Result<seq<Record>, Error> {
    match SortedPlans(raw, untracked)
    case Err(e) => Err(e)
    case Ok(plans) => PlanRecords(fs, plans)
  }

  lemma {:induction false} PlanRecordsPointwise(fs: FileSystem, plans: Plans)
    ensures PlanRecords(fs, plans).Ok? <==> forall i :: 0 <= i < |plans| ==> PlanRecord(fs, plans[i]).Ok?
    ensures PlanRecords(fs, plans).Ok? ==>
              var rs := PlanRecords(fs, plans).value;
              |rs| == |plans| && forall i :: 0 <= i < |plans| ==> PlanRecord(fs, plans[i]) == Ok(rs[i])
  {
    if plans != [] {
      PlanRecordsPointwise(fs, plans[1..]);
      assert forall i :: 1 <= i < |plans| ==> plans[i] == plans[1..][i - 1];
      if forall i :: 0 <= i < |plans| ==> PlanRecord(fs, plans[i]).Ok? {
        forall i | 0 <= i < |plans[1..]| ensures PlanRecord(fs, plans[1..][i]).Ok? {
          assert plans[1..][i] == plans[i + 1];
        }
      }
    }
  }

  // ---------- distinct, sorted plans ----------

  lemma {:induction false} DeltaPlansDistinct(fields: seq<bytes>, d: Plans)
    requires DistinctKeys(d) && DeltaPlans(fields, d).Ok?
    ensures DistinctKeys(DeltaPlans(fields, d).value)
    decreases |fields|
  {
    if fields != [] && fields[0] != [] {
      if IsSaipen(fields[1]) {
        DeltaPlansDistinct(fields[2..], d);
      } else {
        var p := HeaderPlan(fields[0], fields[1]).value;
        PutKeepsDistinct(d, fields[1], p);
        DeltaPlansDistinct(fields[2..], Put(d, fields[1], p));
      }
    }
  }

  lemma {:induction false} UntrackedPlansDistinct(paths: seq<bytes>, d: Plans)
    requires DistinctKeys(d)
    ensures DistinctKeys(UntrackedPlans(paths, d))
  {
    if paths != [] {
      PutKeepsDistinct(d, paths[0], UNTRACKED);
      UntrackedPlansDistinct(paths[1..],
        if paths[0] == [] || IsSaipen(paths[0]) then d else Put(d, paths[0], UNTRACKED));
    }
  }

  lemma ListingPlansDistinct(raw: bytes, untracked: bytes)
    requires ListingPlans(raw, untracked).Ok?
    ensures DistinctKeys(ListingPlans(raw, untracked).value)
  {
    DeltaPlansDistinct(Split(raw, 0), []);
    UntrackedPlansDistinct(Split(untracked, 0), DeltaPlans(Split(raw, 0), []).value);
  }
}
