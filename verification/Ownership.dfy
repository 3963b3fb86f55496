/** The install ownership ledger (bootstrap/install_ownership.py): what `record` decides for
    each file of an existing installation, and the installation over a run of upgrades. */
module Ownership {
  import opened Outcome
  import opened ByteStrings

  /** SHA-256, taken as injective. */
  datatype Checksum = Checksum(content: bytes)

  datatype Error = UnsafePath(path: bytes) | DamagedLedger | NoManifest | PathConflict(path: bytes)

  /** `.saipen_install.json`; the file maps below never contain it. */
  datatype Ledger = Absent | Damaged | Recorded(files: map<bytes, Checksum>)

  /** The parts of MANIFEST.json that `record` reads: `managed_dirs`, and the non-empty `src`
      strings of `copy_trees` and of `files`. */
  datatype Manifest = Manifest(managed: seq<bytes>, trees: seq<bytes>, files: seq<bytes>)

  type Tree = map<bytes, bytes>

  const PROVENANCE: bytes := Ascii(".saipen_runtime.json")
  const SKILL_ENTRY: bytes := Ascii("SKILL.md")
  const INERT_SUFFIX: bytes := Ascii(".user-backup")

  function BackupPath(relative: bytes): bytes {
    if relative == SKILL_ENTRY then relative + INERT_SUFFIX else relative
  }

  /** `safe_path`'s test of the text of a relative path. */
  predicate Safe(relative: bytes) {
    relative != [] && 92 !in relative && 58 !in relative
    && forall part :: part in Split(relative, 47) ==> part != [] && part != [46] && part != [46, 46]
  }

  /** `p` is the directory `d` or lies below it. */
  predicate Below47(d: bytes, p: bytes) {
    d + [47] <= p
  }

  function Checksums(t: Tree): map<bytes, Checksum> {
    map p | p in t :: Checksum(t[p])
  }

  // ---------- the shipped surface ----------

  function Surface(m: Manifest): seq<bytes> {
    m.managed + Stripped(m.trees) + Stripped(m.files)
  }

  function StripRight(p: bytes): bytes {
    if p != [] && p[|p| - 1] == 47 then StripRight(p[..|p| - 1]) else p
  }

  function Stripped(ps: seq<bytes>): seq<bytes> {
    seq(|ps|, i requires 0 <= i < |ps| => StripRight(ps[i]))
  }

  predicate InsideSurface(m: Manifest, relative: bytes) {
    exists p :: p in Surface(m) && (relative == p || Below47(p, relative))
  }

  /** `d` is a directory above `p`. */
  predicate Above(d: bytes, p: bytes) {
    d + Ascii("/") <= p
  }

  predicate AtOrBelow(d: bytes, p: bytes) {
    p == d || Above(d, p)
  }

  /** `src` is the text `d`, which does not end in a slash, and then any number of slashes. */
  predicate Names(src: bytes, d: bytes) {
    d <= src && (forall c :: c in src[|d|..] ==> [c] == Ascii("/")) && (d == [] || [d[|d| - 1]] != Ascii("/"))
  }

  /** The manifest declares `p`: by a managed directory as it is written, or by a copy tree or a file
      with or without slashes behind it. */
  ghost predicate Declares(m: Manifest, p: bytes) {
    || (exists d :: d in m.managed && AtOrBelow(d, p))
    || (exists src, d :: (src in m.trees || src in m.files) && Names(src, d) && AtOrBelow(d, p))
  }

  lemma {:induction false} StripNames(src: bytes, d: bytes)
    ensures Names(src, d) <==> d == StripRight(src)
  {
    assert Ascii("/") == [47];
    var n := |src| - 1;
    if src != [] && src[n] == 47 {
      StripNames(src[..n], d);
      assert StripRight(src) == StripRight(src[..n]);
      if |d| <= n {
        assert src[|d|..] == src[..n][|d|..] + [src[n]];
        assert d <= src <==> d <= src[..n];
      } else {
        StripIsPrefix(src[..n]);
        assert d <= src ==> d == src;
      }
    } else if Names(src, d) {
      BehindIsSlash(src, d);
    }
  }

  lemma BehindIsSlash(src: bytes, d: bytes)
    requires Names(src, d)
    ensures |d| < |src| ==> src[|src| - 1] == 47
  {
    assert Ascii("/") == [47];
    var rest := src[|d|..];
    if rest != [] {
      assert rest[|rest| - 1] in rest;
    }
  }

  lemma {:induction false} StripIsPrefix(src: bytes)
    ensures StripRight(src) <= src
  {
    if src != [] && src[|src| - 1] == 47 {
      StripIsPrefix(src[..|src| - 1]);
    }
  }

  lemma StrippedMember(ps: seq<bytes>, p: bytes)
    ensures (exists q :: q in Stripped(ps) && AtOrBelow(q, p)) <==> exists src, d :: src in ps && Names(src, d) && AtOrBelow(d, p)
  {
    if q :| q in Stripped(ps) && AtOrBelow(q, p) {
      var i :| 0 <= i < |ps| && StripRight(ps[i]) == q;
      StripNames(ps[i], q);
      assert ps[i] in ps;
    }
    if src, d :| src in ps && Names(src, d) && AtOrBelow(d, p) {
      StripNames(src, d);
      var i :| 0 <= i < |ps| && ps[i] == src;
      assert Stripped(ps)[i] == d;
    }
  }

  /** The surface is what the manifest declares. */
  lemma SurfaceMeaning(m: Manifest, p: bytes)
    ensures InsideSurface(m, p) <==> Declares(m, p)
  {
    assert Ascii("/") == [47];
    StrippedMember(m.trees, p);
    StrippedMember(m.files, p);
    forall q ensures q in Surface(m) <==> q in m.managed || q in Stripped(m.trees) || q in Stripped(m.files) {
    }
    forall q ensures AtOrBelow(q, p) <==> p == q || Below47(q, p) {
    }
    if q :| q in Surface(m) && AtOrBelow(q, p) {
      assert q in m.managed || q in Stripped(m.trees) || q in Stripped(m.files);
    }
  }

  // ---------- one file of the existing installation ----------

  /** What `record` knows: the old installation's files, its ledger if it has one, the new
      generation's own files and its manifest. */
  datatype Generation = Generation(existing: Tree, previous: Option<map<bytes, Checksum>>, shipped: Tree, manifest: Manifest)

  datatype Route = Leave | ToBackup | ToStage

  function RouteOf(g: Generation, relative: bytes): Route
    requires relative in g.existing
  {
    if relative == PROVENANCE then Leave
    else if g.previous.Some? && relative in g.previous.value
            && g.previous.value[relative] == Checksum(g.existing[relative]) then Leave
    else if relative in g.shipped
            || (g.previous.None? && exists p :: p in g.manifest.managed && Below47(p, relative))
            || InsideSurface(g.manifest, relative) then ToBackup
    else ToStage
  }

  datatype Progress = Progress(stage: Tree, backup: Tree)

  /** Some file of `t` is a directory on the way to `p`. */
  predicate FileAbove(t: Tree, p: bytes) {
    exists q :: q in t && Below47(q, p)
  }

  predicate DirectoryAt(t: Tree, p: bytes) {
    exists q :: q in t && Below47(p, q)
  }

  /** One turn of the loop of `record`. */
  function RecordStep(g: Generation, s: Progress, relative: bytes): Result<Progress, Error>
    requires relative in g.existing
  {
    match RouteOf(g, relative)
    case Leave => Ok(s)
    case ToBackup =>
      var target := BackupPath(relative);
      if FileAbove(s.backup, target) then Err(PathConflict(target))
      else if target in s.backup || DirectoryAt(s.backup, target) then Ok(s)
      else Ok(s.(backup := s.backup[target := g.existing[relative]]))
    case ToStage =>
      if FileAbove(s.stage, relative) || DirectoryAt(s.stage, relative) then Err(PathConflict(relative))
      else Ok(s.(stage := s.stage[relative := g.existing[relative]]))
  }

  predicate Standing(t: Tree, target: bytes) {
    target in t || exists q :: q in t && Above(target, q)
  }

  /** One file: to the backup unless its place is taken, along into the stage, or nowhere; refused
      where a file stands in the way. */
  lemma StepMeaning(g: Generation, s: Progress, p: bytes)
    requires p in g.existing
    ensures var r, target := RecordStep(g, s, p), BackupPath(p);
            match RouteOf(g, p)
            case Leave => r == Ok(s)
            case ToBackup =>
              if exists q :: q in s.backup && Above(q, target) then r == Err(PathConflict(target))
              else r == Ok(if Standing(s.backup, target) then s else s.(backup := s.backup[target := g.existing[p]]))
            case ToStage =>
              if exists q :: q in s.stage && (Above(q, p) || Above(p, q)) then r == Err(PathConflict(p))
              else r == Ok(s.(stage := s.stage[p := g.existing[p]]))
  {
    assert Ascii("/") == [47];
    forall q, x ensures Above(q, x) <==> Below47(q, x) {
    }
  }

  predicate Within(order: seq<bytes>, t: Tree) {
    forall p :: p in order ==> p in t
  }

  ghost predicate Enumerates(order: seq<bytes>, t: Tree) {
    Within(order, t) && (forall p :: p in t ==> p in order)
    && forall i, j :: 0 <= i < j < |order| ==> order[i] != order[j]
  }

  /** The loop of `record` over the existing files in some order. */
  function RecordAll(g: Generation, s: Progress, order: seq<bytes>): Result<Progress, Error>
    requires Within(order, g.existing)
  {
    if order == [] then Ok(s)
    else match RecordAll(g, s, order[..|order| - 1])
      case Err(e) => Err(e)
      case Ok(t) => RecordStep(g, t, order[|order| - 1])
  }

  // ---------- what the new stage holds ----------

  ghost predicate Carried(g: Generation, p: bytes) {
    p in g.existing && RouteOf(g, p) == ToStage
  }

  ghost predicate StageIs(g: Generation, s: Progress, order: seq<bytes>) {
    forall p :: StageAt(g, s, order, p)
  }

  ghost predicate StageAt(g: Generation, s: Progress, order: seq<bytes>, p: bytes) {
    var carried := p in order && Carried(g, p);
    (p in s.stage <==> p in g.shipped || carried)
    && (p in s.stage ==> s.stage[p] == if carried then g.existing[p] else g.shipped[p])
  }

  lemma StageStep(g: Generation, s: Progress, init: seq<bytes>, last: bytes, p: bytes)
    requires last in g.existing && StageAt(g, s, init, p) && RecordStep(g, s, last).Ok?
    ensures StageAt(g, RecordStep(g, s, last).value, init + [last], p)
  {
    assert p in init + [last] <==> p in init || p == last;
  }

  /** After recording, the stage holds what the generation ships and, unchanged, exactly the
      files routed to it: whatever the order of the loop. */
  lemma {:induction false} StageAfter(g: Generation, backup: Tree, order: seq<bytes>)
    requires Within(order, g.existing)
    requires RecordAll(g, Progress(g.shipped, backup), order).Ok?
    ensures StageIs(g, RecordAll(g, Progress(g.shipped, backup), order).value, order)
  {
    if order != [] {
      var init, last := order[..|order| - 1], order[|order| - 1];
      assert order == init + [last];
      StageAfter(g, backup, init);
      var s := RecordAll(g, Progress(g.shipped, backup), init).value;
      forall p ensures StageAt(g, RecordStep(g, s, last).value, order, p) {
        assert StageAt(g, s, init, p);
        StageStep(g, s, init, last, p);
      }
    }
  }

  /** No retired module is resurrected: inside the new generation's surface the stage holds the
      files it ships, with their bytes, and no others. */
  lemma NoResurrection(g: Generation, backup: Tree, order: seq<bytes>, p: bytes)
    requires Within(order, g.existing)
    requires RecordAll(g, Progress(g.shipped, backup), order).Ok?
    requires Declares(g.manifest, p)
    ensures var s := RecordAll(g, Progress(g.shipped, backup), order).value;
            (p in s.stage <==> p in g.shipped) && (p in g.shipped ==> s.stage[p] == g.shipped[p])
  {
    SurfaceMeaning(g.manifest, p);
    StageAfter(g, backup, order);
    assert StageAt(g, RecordAll(g, Progress(g.shipped, backup), order).value, order, p);
  }

  /** The ledger records the file at `p` and it is as recorded. */
  predicate Unchanged(g: Generation, p: bytes)
    requires p in g.existing
  {
    g.previous.Some? && p in g.previous.value && g.previous.value[p].content == g.existing[p]
  }

  /** The user's, or nobody's: not the provenance marker, and not an owned file as it was installed. */
  predicate Foreign(g: Generation, p: bytes) {
    p in g.existing && p != Ascii(".saipen_runtime.json") && !Unchanged(g, p)
  }

  /** What is done with each file: a foreign one goes to the backup if the generation ships or
      declares its path, and along into the stage if not; any other stays behind. */
  lemma RouteMeaning(g: Generation, p: bytes)
    requires p in g.existing
    ensures RouteOf(g, p) == ToBackup <==> Foreign(g, p) && (p in g.shipped || Declares(g.manifest, p))
    ensures RouteOf(g, p) == ToStage <==> Foreign(g, p) && p !in g.shipped && !Declares(g.manifest, p)
    ensures RouteOf(g, p) == Leave <==> !Foreign(g, p)
  {
    SurfaceMeaning(g.manifest, p);
    if p !in g.shipped && !InsideSurface(g.manifest, p) {
      UndeclaredIsNotBackedUp(g, p);
    }
  }

  /** The whole stage, path by path: what the generation ships, and the foreign files it neither
      ships nor declares, each with its bytes. */
  lemma StageMeaning(g: Generation, backup: Tree, order: seq<bytes>, p: bytes, b: bytes)
    requires Enumerates(order, g.existing) && RecordAll(g, Progress(g.shipped, backup), order).Ok?
    ensures var stage := RecordAll(g, Progress(g.shipped, backup), order).value.stage;
            (p in stage && stage[p] == b) <==>
              || (p in g.shipped && g.shipped[p] == b)
              || (Foreign(g, p) && p !in g.shipped && !Declares(g.manifest, p) && g.existing[p] == b)
  {
    StageAfter(g, backup, order);
    assert StageAt(g, RecordAll(g, Progress(g.shipped, backup), order).value, order, p);
    if p in g.existing {
      RouteMeaning(g, p);
    }
  }

  // ---------- conservation of bytes ----------

  /** The bytes at `p` are an unchanged owned file's, or in the stage, or in the backup. */
  predicate Conserved(g: Generation, s: Progress, p: bytes)
    requires p in g.existing
  {
    || (g.previous.Some? && p in g.previous.value && g.previous.value[p] == Checksum(g.existing[p]))
    || (p in s.stage && s.stage[p] == g.existing[p])
    || (BackupPath(p) in s.backup && s.backup[BackupPath(p)] == g.existing[p])
  }

  predicate Backed(g: Generation, p: bytes) {
    p in g.existing && RouteOf(g, p) == ToBackup
  }

  /** The new generation ships the very same bytes at `p`. */
  predicate Shipped(g: Generation, p: bytes)
    requires p in g.existing
  {
    p in g.shipped && g.shipped[p] == g.existing[p]
  }

  /** Of two backed-up files, `first` takes the place `later` needs, and `later`'s bytes are not
      in the generation either. */
  predicate Displaces(g: Generation, first: bytes, later: bytes) {
    && Backed(g, first) && Backed(g, later)
    && ((BackupPath(first) == BackupPath(later) && g.existing[first] != g.existing[later])
        || Below47(BackupPath(later), BackupPath(first)))
    && !Shipped(g, later)
  }

  predicate FreeIn(backup: Tree, p: bytes) {
    BackupPath(p) !in backup && !DirectoryAt(backup, BackupPath(p))
  }

  /** The backup already holds something else where `p` has to go. */
  predicate Occupied(g: Generation, backup: Tree, p: bytes) {
    Backed(g, p) && !Shipped(g, p)
    && if BackupPath(p) in backup then backup[BackupPath(p)] != g.existing[p] else DirectoryAt(backup, BackupPath(p))
  }

  /** File `order[j]` finds its place taken, by the backup as it was or by a file met before. */
  predicate Contests(g: Generation, backup: Tree, order: seq<bytes>, j: nat)
    requires j < |order|
  {
    Occupied(g, backup, order[j])
    || (FreeIn(backup, order[j]) && exists i :: 0 <= i < j && Displaces(g, order[i], order[j]))
  }

  predicate Contested(g: Generation, backup: Tree, order: seq<bytes>) {
    exists j :: 0 <= j < |order| && Contests(g, backup, order, j)
  }

  ghost predicate AllConserved(g: Generation, s: Progress, order: seq<bytes>)
    requires Within(order, g.existing)
  {
    forall p :: p in order && p != PROVENANCE ==> Conserved(g, s, p)
  }

  /** What the backup held stays, and every other entry is some backed-up file's. */
  ghost predicate BackupHonest(g: Generation, backup: Tree, s: Progress, order: seq<bytes>) {
    Includes(s.backup, backup)
    && forall b :: b in s.backup && b !in backup ==> exists p :: p in order && StoredFrom(g, s, p, b)
  }

  /** `t` has every entry of `u`. */
  predicate Includes(t: Tree, u: Tree) {
    forall b :: b in u ==> b in t && t[b] == u[b]
  }

  predicate StoredFrom(g: Generation, s: Progress, p: bytes, b: bytes)
    requires b in s.backup
  {
    Backed(g, p) && BackupPath(p) == b && s.backup[b] == g.existing[p]
  }

  /** Every backed-up file found its place, or found it taken. */
  ghost predicate BackupCovers(g: Generation, s: Progress, order: seq<bytes>) {
    forall p :: p in order && Backed(g, p) ==> BackupPath(p) in s.backup || DirectoryAt(s.backup, BackupPath(p))
  }

  /** No file of the tree is also a directory of it. */
  ghost predicate TreeLike(t: Tree) {
    forall p, q :: p in t && q in t ==> !Below47(p, q)
  }

  ghost predicate Filling(g: Generation, backup: Tree, s: Progress, order: seq<bytes>) {
    BackupHonest(g, backup, s, order) && BackupCovers(g, s, order) && TreeLike(s.backup)
  }

  lemma HonestStep(g: Generation, backup: Tree, s: Progress, order: seq<bytes>, last: bytes)
    requires last in g.existing && BackupHonest(g, backup, s, order) && RecordStep(g, s, last).Ok?
    ensures BackupHonest(g, backup, RecordStep(g, s, last).value, order + [last])
  {
    var t := RecordStep(g, s, last).value;
    forall b | b in t.backup && b !in backup ensures exists p :: p in order + [last] && StoredFrom(g, t, p, b) {
      if b in s.backup {
        var p :| p in order && StoredFrom(g, s, p, b);
        assert p in order + [last] && StoredFrom(g, t, p, b);
      } else {
        assert last in order + [last] && StoredFrom(g, t, last, b);
      }
    }
  }

  lemma DirectoryStays(t: Tree, u: Tree, p: bytes)
    requires DirectoryAt(t, p) && t.Keys <= u.Keys
    ensures DirectoryAt(u, p)
  {
    var q :| q in t && Below47(p, q);
    assert q in u;
  }

  lemma CoversStep(g: Generation, s: Progress, order: seq<bytes>, last: bytes)
    requires last in g.existing && BackupCovers(g, s, order) && RecordStep(g, s, last).Ok?
    ensures BackupCovers(g, RecordStep(g, s, last).value, order + [last])
  {
    var t := RecordStep(g, s, last).value;
    forall p | p in order + [last] && Backed(g, p)
      ensures BackupPath(p) in t.backup || DirectoryAt(t.backup, BackupPath(p))
    {
      if DirectoryAt(s.backup, BackupPath(p)) {
        DirectoryStays(s.backup, t.backup, BackupPath(p));
      }
    }
  }

  lemma TreeLikeStep(g: Generation, s: Progress, last: bytes)
    requires last in g.existing && TreeLike(s.backup) && RecordStep(g, s, last).Ok?
    ensures TreeLike(RecordStep(g, s, last).value.backup)
  {
    var t := RecordStep(g, s, last).value;
    forall p, q | p in t.backup && q in t.backup ensures !Below47(p, q) {
      if p in s.backup && q !in s.backup {
        assert !FileAbove(s.backup, q);
      } else if p !in s.backup && q in s.backup {
        assert !DirectoryAt(s.backup, p);
      }
    }
  }

  lemma FillingStep(g: Generation, backup: Tree, s: Progress, order: seq<bytes>, last: bytes)
    requires last in g.existing && Filling(g, backup, s, order) && RecordStep(g, s, last).Ok?
    ensures Filling(g, backup, RecordStep(g, s, last).value, order + [last])
  {
    HonestStep(g, backup, s, order, last);
    CoversStep(g, s, order, last);
    TreeLikeStep(g, s, last);
  }

  lemma NotBoth(t: Tree, p: bytes)
    requires TreeLike(t)
    ensures !(p in t && DirectoryAt(t, p))
  {
  }

  /** Two files share a backup place only as SKILL.md and its inert name. */
  lemma SharedPlace(p: bytes, q: bytes, r: bytes)
    requires BackupPath(p) == BackupPath(q) == BackupPath(r)
    ensures p == q || q == r || p == r
  {
  }

  ghost predicate Displaced(g: Generation, order: seq<bytes>, last: bytes) {
    exists i :: 0 <= i < |order| && Displaces(g, order[i], last)
  }

  /** The last file is conserved exactly when its place was neither occupied at first nor taken
      by a file before it. */
  lemma LastConserved(g: Generation, backup: Tree, s: Progress, order: seq<bytes>, last: bytes)
    requires Within(order, g.existing) && last in g.existing && last !in order && last != PROVENANCE
    requires Filling(g, backup, s, order) && RecordStep(g, s, last).Ok?
    requires last in s.stage <==> last in g.shipped
    requires last in g.shipped ==> s.stage[last] == g.shipped[last]
    ensures Conserved(g, RecordStep(g, s, last).value, last)
       <==> !Occupied(g, backup, last) && !(FreeIn(backup, last) && Displaced(g, order, last))
  {
    if Backed(g, last) && !Shipped(g, last) {
      var target := BackupPath(last);
      NotBoth(s.backup, target);
      if DirectoryAt(backup, target) {
        DirectoryStays(backup, s.backup, target);
      } else if FreeIn(backup, last) {
        if Displaced(g, order, last) {
          var i :| 0 <= i < |order| && Displaces(g, order[i], last);
          LastLost(g, backup, s, order, last, i);
        } else {
          LastKept(g, backup, s, order, last);
        }
      }
    }
  }

  lemma LastKept(g: Generation, backup: Tree, s: Progress, order: seq<bytes>, last: bytes)
    requires Within(order, g.existing) && Backed(g, last) && !Shipped(g, last) && FreeIn(backup, last)
    requires Filling(g, backup, s, order) && RecordStep(g, s, last).Ok? && !Displaced(g, order, last)
    ensures var t := RecordStep(g, s, last).value.backup;
            BackupPath(last) in t && t[BackupPath(last)] == g.existing[last]
  {
    var target := BackupPath(last);
    forall q | q in s.backup ensures !Below47(target, q) && (q == target ==> s.backup[q] == g.existing[last]) {
      if q !in backup {
        var p :| p in order && StoredFrom(g, s, p, q);
        var i :| 0 <= i < |order| && order[i] == p;
        assert !Displaces(g, order[i], last);
      }
    }
  }

  lemma LastLost(g: Generation, backup: Tree, s: Progress, order: seq<bytes>, last: bytes, i: nat)
    requires Within(order, g.existing) && last in g.existing && last !in order
    requires Filling(g, backup, s, order) && RecordStep(g, s, last).Ok? && FreeIn(backup, last)
    requires last in s.stage <==> last in g.shipped
    requires last in g.shipped ==> s.stage[last] == g.shipped[last]
    requires i < |order| && Displaces(g, order[i], last)
    ensures !Conserved(g, RecordStep(g, s, last).value, last)
  {
    var first, target := order[i], BackupPath(last);
    assert first in order;
    if BackupPath(first) == target {
      assert target in s.backup || DirectoryAt(s.backup, target);
      if target in s.backup {
        var p :| p in order && StoredFrom(g, s, p, target);
        SharedPlace(p, first, last);
      }
    } else if BackupPath(first) in s.backup {
      assert DirectoryAt(s.backup, target);
    } else {
      var q :| q in s.backup && Below47(BackupPath(first), q);
      assert Below47(target, q);
      assert DirectoryAt(s.backup, target);
    }
    NotBoth(s.backup, target);
  }

  /** A later step neither loses nor recovers an earlier file. */
  lemma ConservedStays(g: Generation, backup: Tree, s: Progress, order: seq<bytes>, last: bytes, p: bytes)
    requires Within(order, g.existing) && last in g.existing && last !in order && p in order && p != PROVENANCE
    requires Filling(g, backup, s, order) && RecordStep(g, s, last).Ok?
    requires Carried(g, p) ==> p in s.stage && s.stage[p] == g.existing[p]
    ensures Conserved(g, s, p) <==> Conserved(g, RecordStep(g, s, last).value, p)
  {
    if RouteOf(g, last) == ToBackup && BackupPath(last) == BackupPath(p) && BackupPath(p) !in s.backup && Backed(g, p) {
      assert DirectoryAt(s.backup, BackupPath(p));
    }
  }

  lemma {:induction false} FillingAll(g: Generation, backup: Tree, order: seq<bytes>)
    requires Within(order, g.existing) && TreeLike(backup)
    requires RecordAll(g, Progress(g.shipped, backup), order).Ok?
    ensures Filling(g, backup, RecordAll(g, Progress(g.shipped, backup), order).value, order)
  {
    if order != [] {
      var init, last := order[..|order| - 1], order[|order| - 1];
      assert order == init + [last];
      FillingAll(g, backup, init);
      FillingStep(g, backup, RecordAll(g, Progress(g.shipped, backup), init).value, init, last);
    }
  }

  lemma ConservationStep(g: Generation, backup: Tree, s: Progress, init: seq<bytes>, last: bytes)
    requires Within(init, g.existing) && last in g.existing && last !in init
    requires Filling(g, backup, s, init) && StageIs(g, s, init) && RecordStep(g, s, last).Ok?
    requires AllConserved(g, s, init) <==> !Contested(g, backup, init)
    ensures Within(init + [last], g.existing)
    ensures AllConserved(g, RecordStep(g, s, last).value, init + [last]) <==> !Contested(g, backup, init + [last])
  {
    var t := RecordStep(g, s, last).value;
    ContestedStep(g, backup, init, last);
    assert StageAt(g, s, init, last);
    forall p | p in init && p != PROVENANCE ensures Conserved(g, s, p) <==> Conserved(g, t, p) {
      assert StageAt(g, s, init, p);
      ConservedStays(g, backup, s, init, last, p);
    }
    if last != PROVENANCE {
      LastConserved(g, backup, s, init, last);
    }
    assert AllConserved(g, t, init + [last])
      <==> AllConserved(g, s, init) && (last != PROVENANCE ==> Conserved(g, t, last));
  }

  lemma ContestedStep(g: Generation, backup: Tree, init: seq<bytes>, last: bytes)
    ensures Contested(g, backup, init + [last])
       <==> Contested(g, backup, init) || Occupied(g, backup, last) || (FreeIn(backup, last) && Displaced(g, init, last))
  {
    var order := init + [last];
    forall j | 0 <= j < |init| ensures Contests(g, backup, order, j) <==> Contests(g, backup, init, j) {
      assert forall i :: 0 <= i <= j ==> order[i] == init[i];
    }
    assert Contests(g, backup, order, |init|) <==> Occupied(g, backup, last) || (FreeIn(backup, last) && Displaced(g, init, last)) by {
      assert order[|init|] == last && forall i :: 0 <= i < |init| ==> order[i] == init[i];
    }
  }

  /** Byte conservation, exactly, for any backup there already is: recording keeps every file of the
      old installation but the provenance marker, unless a file's backup place was taken. */
  lemma {:induction false} ConservationIff(g: Generation, backup: Tree, order: seq<bytes>)
    requires Within(order, g.existing) && forall i, j :: 0 <= i < j < |order| ==> order[i] != order[j]
    requires TreeLike(backup) && RecordAll(g, Progress(g.shipped, backup), order).Ok?
    ensures AllConserved(g, RecordAll(g, Progress(g.shipped, backup), order).value, order) <==> !Contested(g, backup, order)
  {
    if order != [] {
      var init, last := order[..|order| - 1], order[|order| - 1];
      assert order == init + [last] && last in order;
      ConservationIff(g, backup, init);
      FillingAll(g, backup, init);
      StageAfter(g, backup, init);
      ConservationStep(g, backup, RecordAll(g, Progress(g.shipped, backup), init).value, init, last);
    }
  }

  // ---------- when no place is contested ----------

  const INERT_NAME: bytes := SKILL_ENTRY + INERT_SUFFIX

  /** Not the inert name, and not below it. */
  predicate OrdinaryName(p: bytes) { p != INERT_NAME && !Below47(INERT_NAME, p) }

  /** Nothing named like, or below, the inert name is routed to the backup. */
  predicate Ordinary(g: Generation) {
    forall p :: p in g.existing && RouteOf(g, p) == ToBackup ==> OrdinaryName(p)
  }

  /** Every entry is a file of that very installation, under its own backup name: what earlier
      recordings of the same state, by whatever generations, leave. */
  predicate BackupOfState(state: map<bytes, Checksum>, backup: Tree) {
    forall b :: b in backup ==> exists p :: p in state && HeldAs(state, p, b, backup[b])
  }

  predicate HeldAs(state: map<bytes, Checksum>, p: bytes, b: bytes, bytes_: bytes)
    requires p in state
  {
    OrdinaryName(p) && BackupPath(p) == b && state[p] == Checksum(bytes_)
  }

  /** Ordinary files of one tree have places of their own, and none below another's. */
  lemma PlacesApart(p: bytes, q: bytes)
    requires OrdinaryName(p) && OrdinaryName(q) && !Below47(q, p)
    ensures BackupPath(p) == BackupPath(q) ==> p == q
    ensures !Below47(BackupPath(q), BackupPath(p))
  {
    if p == SKILL_ENTRY && Below47(q, INERT_NAME) {
      assert INERT_NAME[|q|] == 47;
      NoSlashInInertName(|q|);
    }
  }

  /** A backup of the same state is never in the way. */
  lemma NothingContested(g: Generation, backup: Tree, order: seq<bytes>)
    requires TreeLike(g.existing) && Ordinary(g) && BackupOfState(Checksums(g.existing), backup)
    ensures !Contested(g, backup, order)
  {
    forall j | 0 <= j < |order| ensures !Contests(g, backup, order, j) {
      var later := order[j];
      if Backed(g, later) {
        assert OrdinaryName(later);
        forall b | b in backup ensures !Below47(BackupPath(later), b) && (b == BackupPath(later) ==> backup[b] == g.existing[later]) {
          var p :| p in Checksums(g.existing) && HeldAs(Checksums(g.existing), p, b, backup[b]);
          PlacesApart(p, later);
        }
        forall i | 0 <= i < j ensures !Displaces(g, order[i], later) {
          if Backed(g, order[i]) {
            assert OrdinaryName(order[i]);
            PlacesApart(order[i], later);
          }
        }
      }
    }
  }

  lemma NoSlashInInertName(i: nat)
    requires i < |INERT_NAME|
    ensures INERT_NAME[i] != 47
  {
    var text := "SKILL.md.user-backup";
    assert INERT_NAME[i] == (text[i] as int) % 256;
  }

  lemma NamesDiffer()
    ensures SKILL_ENTRY != INERT_NAME && INERT_NAME != PROVENANCE && SKILL_ENTRY != PROVENANCE
    ensures StripRight(SKILL_ENTRY) == SKILL_ENTRY && StripRight(INERT_NAME) == INERT_NAME
  {
    var skill, suffix, provenance := "SKILL.md", ".user-backup", ".saipen_runtime.json";
    assert |SKILL_ENTRY| == |skill| == 8 && |INERT_SUFFIX| == |suffix| == 12;
    assert SKILL_ENTRY[0] == (skill[0] as int) % 256 && PROVENANCE[0] == (provenance[0] as int) % 256;
    assert INERT_NAME[0] == SKILL_ENTRY[0];
    assert SKILL_ENTRY[7] == (skill[7] as int) % 256 && INERT_SUFFIX[11] == (suffix[11] as int) % 256;
  }

  lemma SurfaceMember(m: Manifest, i: nat)
    requires i < |Surface(m)|
    ensures InsideSurface(m, Surface(m)[i])
  {
    assert Surface(m)[i] in Surface(m);
  }

  lemma ManagedIsSurface(m: Manifest, p: bytes, u: bytes)
    requires p in m.managed && Below47(p, u)
    ensures InsideSurface(m, u)
  {
    assert p in Surface(m);
  }

  /** A generation that neither ships nor declares the inert name contests nothing: a file of that
      name in the destination travels with the installation. */
  lemma UndeclaredInertNameTravels(g: Generation)
    requires forall p :: p in g.existing && AtOrBelow(Ascii("SKILL.md.user-backup"), p) ==>
               p !in g.shipped && !Declares(g.manifest, p)
    ensures Ordinary(g)
  {
    forall p | p in g.existing && RouteOf(g, p) == ToBackup ensures OrdinaryName(p) {
      RouteMeaning(g, p);
      OrdinaryNameIff(p);
    }
  }

  lemma InertNameText()
    ensures INERT_NAME == Ascii("SKILL.md.user-backup") && SKILL_ENTRY == Ascii("SKILL.md")
  {
    var name, suffix, text := "SKILL.md", ".user-backup", "SKILL.md.user-backup";
    assert text == name + suffix;
    assert |INERT_NAME| == |Ascii(text)|;
    forall i | 0 <= i < |text| ensures INERT_NAME[i] == Ascii(text)[i] {
      assert text[i] == (name + suffix)[i];
    }
  }

  lemma OrdinaryNameIff(p: bytes)
    ensures OrdinaryName(p) <==> !AtOrBelow(Ascii("SKILL.md.user-backup"), p)
  {
    InertNameText();
    assert Ascii("/") == [47];
  }

  /** Where a file's bytes are kept: under its own path, but `SKILL.md` under a name no host loads. */
  lemma BackupPathIs(p: bytes)
    ensures BackupPath(p) == if p == Ascii("SKILL.md") then Ascii("SKILL.md.user-backup") else p
  {
    InertNameText();
  }

  /** The text of a path is safe exactly if it has no backslash and no colon and none of its parts
      is empty, `.` or `..`. */
  lemma SafeIff(p: bytes)
    ensures Safe(p) <==> (forall c :: c in p ==> [c] !in [Ascii("\\"), Ascii(":")])
                         && forall part :: part in Split(p, 47) ==> part !in [Ascii(""), Ascii("."), Ascii("..")]
  {
    assert Ascii("\\") == [92] && Ascii(":") == [58];
    assert Ascii("") == [] && Ascii(".") == [46] && Ascii("..") == [46, 46];
    if p == [] {
      assert Split(p, 47)[0] in Split(p, 47);
    }
    assert 92 in p ==> [92] in [Ascii("\\"), Ascii(":")];
  }

  lemma UndeclaredIsNotBackedUp(g: Generation, u: bytes)
    requires u in g.existing && u !in g.shipped && !InsideSurface(g.manifest, u)
    ensures RouteOf(g, u) != ToBackup
  {
    if p :| p in g.manifest.managed && Below47(p, u) {
      ManagedIsSurface(g.manifest, p, u);
    }
  }

  const CONTESTED: Generation :=
    Generation(map[SKILL_ENTRY := [1], INERT_NAME := [2]], None, map[], Manifest([], [], [SKILL_ENTRY, INERT_NAME]))

  lemma ContestedRoutes()
    ensures CONTESTED.existing[SKILL_ENTRY] == [1] && CONTESTED.existing[INERT_NAME] == [2]
    ensures Backed(CONTESTED, SKILL_ENTRY) && Backed(CONTESTED, INERT_NAME)
    ensures !Below47(INERT_NAME, INERT_NAME) && SKILL_ENTRY != INERT_NAME
  {
    NamesDiffer();
    var m := Manifest([], [], [SKILL_ENTRY, INERT_NAME]);
    assert Stripped(m.files) == [SKILL_ENTRY, INERT_NAME] && Stripped(m.trees) == [];
    assert Surface(m) == [SKILL_ENTRY, INERT_NAME];
    SurfaceMember(m, 0);
    SurfaceMember(m, 1);
  }

  /** A destination holding both names, under a manifest that declares both, with no ledger: the
      recording succeeds, and the bytes of whichever is met second are nowhere afterwards. */
  lemma ContestedNameLosesBytes(first: bytes, second: bytes)
    requires (first, second) in {(SKILL_ENTRY, INERT_NAME), (INERT_NAME, SKILL_ENTRY)}
    ensures var r := RecordAll(CONTESTED, Progress(map[], map[]), [first, second]);
            r.Ok? && r.value.stage == map[] && r.value.backup == map[INERT_NAME := CONTESTED.existing[first]]
            && second in CONTESTED.existing && !Conserved(CONTESTED, r.value, second)
  {
    ContestedRoutes();
    var order := [first, second];
    var none: seq<bytes> := [];
    assert order[..1] == [first] && order[..1][..0] == none;
    var start := Progress(map[], map[]);
    var one := Progress(map[], map[INERT_NAME := CONTESTED.existing[first]]);
    assert RecordAll(CONTESTED, start, none) == Ok(start);
    assert RecordStep(CONTESTED, start, first) == Ok(one);
    assert RecordAll(CONTESTED, start, [first]) == Ok(one);
    assert RecordStep(CONTESTED, one, second) == Ok(one);
  }

  // ---------- recordings that stop ----------

  /** How far the loop gets: a refused path ends it with the backup as it was then. */
  function Reached(g: Generation, s: Progress, order: seq<bytes>): Progress
    requires Within(order, g.existing)
  {
    match RecordAll(g, s, order)
    case Ok(t) => t
    case Err(_) => if order == [] then s else Reached(g, s, order[..|order| - 1])
  }

  /** Nothing after the refused path matters. */
  lemma {:induction false} ReachedStops(g: Generation, s: Progress, order: seq<bytes>, rest: seq<bytes>)
    requires Within(order, g.existing) && Within(rest, g.existing) && RecordAll(g, s, order).Err?
    ensures Within(order + rest, g.existing)
    ensures RecordAll(g, s, order + rest) == RecordAll(g, s, order) && Reached(g, s, order + rest) == Reached(g, s, order)
  {
    if rest == [] {
      assert order + rest == order;
    } else {
      var init := rest[..|rest| - 1];
      assert (order + rest)[..|order + rest| - 1] == order + init;
      ReachedStops(g, s, order, init);
    }
  }

  /** Recording, finished or not, keeps a backup a backup of this state, and loses no entry. */
  lemma {:induction false} ReachedKeepsBackup(g: Generation, backup: Tree, order: seq<bytes>)
    requires Within(order, g.existing) && Ordinary(g)
    requires TreeLike(backup) && BackupOfState(Checksums(g.existing), backup)
    ensures var after := Reached(g, Progress(g.shipped, backup), order).backup;
            TreeLike(after) && BackupOfState(Checksums(g.existing), after) && Includes(after, backup)
  {
    var s := Progress(g.shipped, backup);
    if RecordAll(g, s, order).Ok? {
      FillingAll(g, backup, order);
      var after := RecordAll(g, s, order).value;
      forall b | b in after.backup
        ensures exists p :: p in Checksums(g.existing) && HeldAs(Checksums(g.existing), p, b, after.backup[b])
      {
        if b in backup {
          assert after.backup[b] == backup[b];
        } else {
          var p :| p in order && StoredFrom(g, after, p, b);
          assert p in Checksums(g.existing) && HeldAs(Checksums(g.existing), p, b, after.backup[b]);
        }
      }
    } else if order != [] {
      ReachedKeepsBackup(g, backup, order[..|order| - 1]);
    }
  }

  /** A finished recording of a tree with ordinary names keeps every file: conserved, and if it
      was displaced, in the backup. */
  lemma DisplacedIsBackedUp(g: Generation, backup: Tree, order: seq<bytes>, p: bytes)
    requires Enumerates(order, g.existing) && TreeLike(g.existing) && Ordinary(g)
    requires TreeLike(backup) && BackupOfState(Checksums(g.existing), backup)
    requires RecordAll(g, Progress(g.shipped, backup), order).Ok? && p in g.existing && p != PROVENANCE
    ensures var s := RecordAll(g, Progress(g.shipped, backup), order).value;
            Conserved(g, s, p)
            && (RouteOf(g, p) == ToBackup ==> BackupPath(p) in s.backup && s.backup[BackupPath(p)] == g.existing[p])
  {
    var s := RecordAll(g, Progress(g.shipped, backup), order).value;
    NothingContested(g, backup, order);
    ConservationIff(g, backup, order);
    FillingAll(g, backup, order);
    if RouteOf(g, p) == ToBackup {
      ReachedKeepsBackup(g, backup, order);
      PlaceHoldsIt(g, s.backup, p);
    }
  }

  lemma PlaceHoldsIt(g: Generation, backup: Tree, p: bytes)
    requires TreeLike(g.existing) && Ordinary(g) && Backed(g, p) && BackupOfState(Checksums(g.existing), backup)
    requires BackupPath(p) in backup || DirectoryAt(backup, BackupPath(p))
    ensures BackupPath(p) in backup && backup[BackupPath(p)] == g.existing[p]
  {
    assert OrdinaryName(p);
    forall b | b in backup ensures !Below47(BackupPath(p), b) && (b == BackupPath(p) ==> backup[b] == g.existing[p]) {
      var q :| q in Checksums(g.existing) && HeldAs(Checksums(g.existing), q, b, backup[b]);
      PlacesApart(q, p);
    }
  }

  /** Something the generation ships stands above or below the place of a file that travels. */
  ghost predicate Blocked(g: Generation, p: bytes) {
    Carried(g, p) && (FileAbove(g.shipped, p) || DirectoryAt(g.shipped, p))
  }

  lemma StepSucceedsIff(g: Generation, s: Progress, order: seq<bytes>, last: bytes)
    requires TreeLike(g.existing) && Ordinary(g) && BackupOfState(Checksums(g.existing), s.backup)
    requires Within(order, g.existing) && StageIs(g, s, order) && last in g.existing
    ensures RecordStep(g, s, last).Ok? <==> !Blocked(g, last)
  {
    if Backed(g, last) {
      forall b | b in s.backup ensures !Below47(b, BackupPath(last)) {
        var q :| q in Checksums(g.existing) && HeldAs(Checksums(g.existing), q, b, s.backup[b]);
        PlacesApart(last, q);
      }
    } else if Carried(g, last) {
      forall q ensures StageAt(g, s, order, q) {
      }
      StageBlocks(g, s, order, last);
    }
  }

  lemma StageBlocks(g: Generation, s: Progress, order: seq<bytes>, last: bytes)
    requires TreeLike(g.existing) && StageIs(g, s, order) && last in g.existing
    ensures FileAbove(s.stage, last) || DirectoryAt(s.stage, last) <==> FileAbove(g.shipped, last) || DirectoryAt(g.shipped, last)
  {
    forall q ensures StageAt(g, s, order, q) {
    }
    if q :| q in g.shipped && (Below47(q, last) || Below47(last, q)) {
      assert StageAt(g, s, order, q);
      assert q in s.stage;
    }
    if q :| q in s.stage && (Below47(q, last) || Below47(last, q)) {
      assert StageAt(g, s, order, q);
      assert q in g.existing ==> !Below47(q, last) && !Below47(last, q);
      assert q in g.shipped;
    }
  }

  lemma {:induction false} SucceedsUnlessBlocked(g: Generation, backup: Tree, order: seq<bytes>)
    requires Within(order, g.existing) && TreeLike(g.existing) && Ordinary(g)
    requires TreeLike(backup) && BackupOfState(Checksums(g.existing), backup)
    ensures RecordAll(g, Progress(g.shipped, backup), order).Ok? <==> forall p :: p in order ==> !Blocked(g, p)
  {
    if order != [] {
      var init, last := order[..|order| - 1], order[|order| - 1];
      assert order == init + [last];
      assert forall p :: p in order <==> p in init || p == last;
      SucceedsUnlessBlocked(g, backup, init);
      if RecordAll(g, Progress(g.shipped, backup), init).Ok? {
        StageAfter(g, backup, init);
        ReachedKeepsBackup(g, backup, init);
        StepSucceedsIff(g, RecordAll(g, Progress(g.shipped, backup), init).value, init, last);
      }
    }
  }

  /** Into a backup of this state a recording succeeds exactly if no foreign file that the generation
      neither ships nor declares stands above or below a file it ships. */
  lemma RecordingSucceedsIff(g: Generation, backup: Tree, order: seq<bytes>)
    requires Enumerates(order, g.existing) && TreeLike(g.existing) && Ordinary(g)
    requires TreeLike(backup) && BackupOfState(Checksums(g.existing), backup)
    ensures RecordAll(g, Progress(g.shipped, backup), order).Ok? <==>
              forall p, q :: Foreign(g, p) && p !in g.shipped && !Declares(g.manifest, p) && q in g.shipped ==>
                !Above(q, p) && !Above(p, q)
  {
    SucceedsUnlessBlocked(g, backup, order);
    forall p ensures p in g.existing && RouteOf(g, p) == ToStage <==> Foreign(g, p) && p !in g.shipped && !Declares(g.manifest, p) {
      if p in g.existing {
        RouteMeaning(g, p);
      }
    }
    assert Ascii("/") == [47];
    forall p, q ensures Above(q, p) <==> Below47(q, p) {
    }
  }
}
