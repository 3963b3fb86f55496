/** The commands of bootstrap/install_ownership.py on directories that are updated in place. */
module OwnershipStore {
  import opened Outcome
  import opened ByteStrings
  import opened Ownership
  import opened OwnershipRuns

  /** A directory: its files without the ledger, the ledger, and its subdirectories. */
  class Directory {
    var files: Tree
    var ledger: Ledger
    var folders: set<bytes>

    constructor (files: Tree, ledger: Ledger, folders: set<bytes>)
      ensures this.files == files && this.ledger == ledger && this.folders == folders
    {
      this.files, this.ledger, this.folders := files, ledger, folders;
    }

    function Value(): Install
      reads this
    {
      Install(files, ledger)
    }

    /** `files`: the digest of every file, refused when anything below has an unsafe path. */
    method Digests() returns (r: Result<map<bytes, Checksum>, Error>)
      ensures r == if AllSafe(files.Keys + folders) then Ok(Checksums(files)) else Err(DamagedLedger)
    {
      var result: map<bytes, Checksum> := map[];
      var todo := files.Keys + folders;
      while todo != {}
        invariant todo <= files.Keys + folders && AllSafe(files.Keys + folders - todo)
        invariant forall p :: p in result <==> p in files && p !in todo
        invariant forall p :: p in result ==> result[p] == Checksum(files[p])
        decreases todo
      {
        var p :| p in todo;
        if !Safe(p) {
          return Err(DamagedLedger);
        }
        if p in files {
          result := result[p := Checksum(files[p])];
        }
        todo := todo - {p};
      }
      assert result == Checksums(files);
      return Ok(result);
    }
  }

  /** The sibling backup directories. */
  class BackupStore {
    var trees: Store

    constructor ()
      ensures trees == map[]
    {
      trees := map[];
    }
  }

  /** The generation `record` builds from what it reads, or the first thing it refuses. */
  function Prepared(shipped: Tree, shippedFolders: set<bytes>, old_: Install, oldFolders: set<bytes>,
                    manifest: Option<Manifest>): Result<Generation, Error>
  {
    if !AllSafe(shipped.Keys + shippedFolders) || !AllSafe(old_.files.Keys + oldFolders) then Err(DamagedLedger)
    else Accepted(old_, shipped, manifest)
  }

  /** A set in some order. */
  ghost function SomeOrder(s: set<bytes>): (order: seq<bytes>)
    ensures forall p :: p in order <==> p in s
    ensures forall i, j :: 0 <= i < j < |order| ==> order[i] != order[j]
  {
    if s == {} then []
    else
      var p :| p in s;
      [p] + SomeOrder(s - {p})
  }

  /** Two stores with the same backups; one may have directories that are still empty. */
  ghost predicate SameBackups(a: Store, b: Store) {
    forall key :: BackupOf(a, key) == BackupOf(b, key)
  }

  /** `record` over an existing destination, which it only reads: what becomes of the stage is what
      the specified loop makes of it, for the order in which the old files were met, and the backup
      holds what was moved there before a refusal as well. */
  method Record(stage: Directory, destination: Directory, manifest: Option<Manifest>, backups: BackupStore)
    returns (r: Result<(), Error>, ghost order: seq<bytes>)
    requires stage != destination
    modifies stage`files, stage`ledger, backups
    ensures var prepared := Prepared(old(stage.files), stage.folders, destination.Value(), destination.folders, manifest);
            Enumerates(order, destination.files)
            && (prepared.Err? ==> r == Err(prepared.error) && backups.trees == old(backups.trees))
            && (prepared.Ok? ==> LoopLeaves(prepared.value, old(backups.trees), order, r, stage.files, backups.trees))
    ensures stage.ledger == if r.Ok? then Recorded(Checksums(old(stage.files))) else old(stage.ledger)
  {
    order := SomeOrder(destination.files.Keys);
    var owned := stage.Digests();
    if owned.Err? {
      return Err(owned.error), order;
    }
    var previous := Load(destination.ledger);
    if previous.Err? {
      return Err(previous.error), order;
    }
    var existing := destination.Digests();
    if existing.Err? {
      return Err(existing.error), order;
    }
    if manifest.None? {
      return Err(NoManifest), order;
    }
    var g := Generation(destination.files, previous.value, stage.files, manifest.value);
    assert Prepared(stage.files, stage.folders, destination.Value(), destination.folders, manifest) == Ok(g);
    r, order := RecordFiles(g, stage, existing.value, backups);
    if r.Ok? {
      stage.ledger := Recorded(owned.value);
    }
  }

  /** What the loop leaves. */
  ghost predicate LoopLeaves(g: Generation, before: Store, order: seq<bytes>, r: Result<(), Error>, stage: Tree, after: Store)
    requires Within(order, g.existing)
  {
    var key := Checksums(g.existing);
    var s := Progress(g.shipped, BackupOf(before, key));
    SameBackups(after, before[key := Reached(g, s, order).backup])
    && (match RecordAll(g, s, order)
        case Ok(t) => r.Ok? && stage == t.stage
        case Err(e) => r == Err(e))
  }

  ghost predicate Midway(g: Generation, before: Store, done: seq<bytes>, todo: set<bytes>, stage: Tree, after: Store) {
    var key := Checksums(g.existing);
    todo <= g.existing.Keys && Within(done, g.existing)
    && (forall p :: p in g.existing ==> (p in done <==> p !in todo))
    && (forall i, j :: 0 <= i < j < |done| ==> done[i] != done[j])
    && RecordAll(g, Progress(g.shipped, BackupOf(before, key)), done) == Ok(Progress(stage, BackupOf(after, key)))
    && forall k :: k != key ==> BackupOf(after, k) == BackupOf(before, k)
  }

  lemma OneFurther(g: Generation, s: Progress, done: seq<bytes>, p: bytes, t: Progress)
    requires Within(done, g.existing) && p in g.existing && RecordAll(g, s, done) == Ok(t)
    ensures Within(done + [p], g.existing) && RecordAll(g, s, done + [p]) == RecordStep(g, t, p)
    ensures RecordStep(g, t, p).Err? ==> Reached(g, s, done + [p]) == t
  {
    assert (done + [p])[..|done|] == done;
  }

  lemma MidwayStep(g: Generation, before: Store, done: seq<bytes>, todo: set<bytes>, stage: Tree, after: Store, p: bytes)
    requires Midway(g, before, done, todo, stage, after) && p in todo
    requires RecordStep(g, Progress(stage, BackupOf(after, Checksums(g.existing))), p).Ok?
    ensures var key := Checksums(g.existing);
            var t := RecordStep(g, Progress(stage, BackupOf(after, key)), p).value;
            Midway(g, before, done + [p], todo - {p}, t.stage, after[key := t.backup])
  {
    var key := Checksums(g.existing);
    OneFurther(g, Progress(g.shipped, BackupOf(before, key)), done, p, Progress(stage, BackupOf(after, key)));
  }

  lemma MidwayStops(g: Generation, before: Store, done: seq<bytes>, todo: set<bytes>, stage: Tree, after: Store, p: bytes)
    requires Midway(g, before, done, todo, stage, after) && p in todo
    requires RecordStep(g, Progress(stage, BackupOf(after, Checksums(g.existing))), p).Err?
    ensures var step := RecordStep(g, Progress(stage, BackupOf(after, Checksums(g.existing))), p);
            var order := done + [p] + SomeOrder(todo - {p});
            Enumerates(order, g.existing) && LoopLeaves(g, before, order, Err(step.error), stage, after)
  {
    var key := Checksums(g.existing);
    var s, t := Progress(g.shipped, BackupOf(before, key)), Progress(stage, BackupOf(after, key));
    var rest := SomeOrder(todo - {p});
    OneFurther(g, s, done, p, t);
    ReachedStops(g, s, done + [p], rest);
    AllEnumerated(g.existing, done, todo, p);
    LoopStopped(g, before, done + [p] + rest, RecordStep(g, t, p).error, stage, after);
  }

  lemma AllEnumerated(files: Tree, done: seq<bytes>, todo: set<bytes>, p: bytes)
    requires todo <= files.Keys && Within(done, files) && p in todo
    requires forall q :: q in files ==> (q in done <==> q !in todo)
    requires forall i, j :: 0 <= i < j < |done| ==> done[i] != done[j]
    ensures Enumerates(done + [p] + SomeOrder(todo - {p}), files)
  {
    var rest := SomeOrder(todo - {p});
    var order := done + [p] + rest;
    forall q ensures q in order <==> q in done || q == p || q in rest { }
    forall q | q in order ensures q in files {
      assert q in rest ==> q in todo;
    }
    forall i, j | 0 <= i < j < |order| ensures order[i] != order[j] {
      if j > |done| {
        var k := j - |done| - 1;
        assert order[j] == rest[k] && rest[k] in rest;
        if i <= |done| {
          assert i < |done| ==> order[i] in done;
        } else {
          assert order[i] == rest[i - |done| - 1];
        }
      } else {
        assert order[i] == done[i] && done[i] in done;
      }
    }
  }

  lemma LoopStopped(g: Generation, before: Store, order: seq<bytes>, e: Error, stage: Tree, after: Store)
    requires Within(order, g.existing)
    requires var key := Checksums(g.existing);
             var s := Progress(g.shipped, BackupOf(before, key));
             RecordAll(g, s, order) == Err(e) && Reached(g, s, order) == Progress(stage, BackupOf(after, key))
             && forall k :: k != key ==> BackupOf(after, k) == BackupOf(before, k)
    ensures LoopLeaves(g, before, order, Err(e), stage, after)
  {
  }

  /** The loop of `record`, over the old files in whatever order they are met. */
  method RecordFiles(g: Generation, stage: Directory, key: map<bytes, Checksum>, backups: BackupStore)
    returns (r: Result<(), Error>, ghost order: seq<bytes>)
    requires stage.files == g.shipped && key == Checksums(g.existing)
    modifies stage`files, backups
    ensures Enumerates(order, g.existing) && LoopLeaves(g, old(backups.trees), order, r, stage.files, backups.trees)
  {
    ghost var before := backups.trees;
    order := [];
    var todo := g.existing.Keys;
    while todo != {}
      invariant Midway(g, before, order, todo, stage.files, backups.trees)
      decreases todo
    {
      var relative :| relative in todo;
      var step := RecordStep(g, Progress(stage.files, BackupOf(backups.trees, key)), relative);
      if step.Err? {
        MidwayStops(g, before, order, todo, stage.files, backups.trees, relative);
        return Err(step.error), order + [relative] + SomeOrder(todo - {relative});
      }
      MidwayStep(g, before, order, todo, stage.files, backups.trees, relative);
      order := order + [relative];
      stage.files := step.value.stage;
      backups.trees := backups.trees[key := step.value.backup];
      todo := todo - {relative};
    }
    r := Ok(());
  }

  /** The installer's upgrade: `record`, then the stage takes the destination's place. Installation
      and backups become what the upgrade of a run makes them; what is refused before the loop
      leaves both alone. */
  method UpgradeInPlace(stage: Directory, destination: Directory, manifest: Option<Manifest>, backups: BackupStore)
    returns (r: Result<(), Error>, ghost order: seq<bytes>)
    requires stage != destination
    modifies stage, destination, backups
    ensures Enumerates(order, old(destination.files))
    ensures var was := old(Site(destination.Value(), backups.trees));
            var prepared := old(Prepared(stage.files, stage.folders, destination.Value(), destination.folders, manifest));
            (prepared.Ok? ==>
               var next := After(was, Upgrade(old(stage.files), manifest, order));
               destination.Value() == next.install && SameBackups(backups.trees, next.store))
            && (prepared.Err? ==> destination.Value() == was.install && backups.trees == was.store)
    ensures r.Ok? <==> old(Prepared(stage.files, stage.folders, destination.Value(), destination.folders, manifest)).Ok?
                       && RecordedOk(old(Site(destination.Value(), backups.trees)), old(stage.files), manifest, order)
    ensures destination.folders == if r.Ok? then stage.folders else old(destination.folders)
  {
    r, order := Record(stage, destination, manifest, backups);
    if r.Ok? {
      destination.files, destination.ledger, destination.folders := stage.files, stage.ledger, stage.folders;
    }
  }

  ghost predicate RecordedOk(s: Site, shipped: Tree, manifest: Option<Manifest>, order: seq<bytes>)
    requires Within(order, s.install.files)
  {
    Upgraded(s.install, shipped, manifest, BackupOf(s.store, Checksums(s.install.files)), order).Ok?
  }

  /** `record` when there is no destination yet: the stage's own files are the ledger. */
  method RecordFirst(stage: Directory) returns (r: Result<(), Error>)
    modifies stage`ledger
    ensures r.Ok? <==> AllSafe(stage.files.Keys + stage.folders)
    ensures stage.ledger == if r.Ok? then Recorded(Checksums(stage.files)) else old(stage.ledger)
  {
    var owned := stage.Digests();
    if owned.Err? {
      return Err(owned.error);
    }
    stage.ledger := Recorded(owned.value);
    r := Ok(());
  }

  /** `stamp`. */
  method StampLedger(destination: Directory) returns (r: Result<(), Error>)
    modifies destination`ledger
    ensures r.Ok? <==> Stamped(old(destination.Value())).Ok?
    ensures r.Ok? ==> destination.Value() == Stamped(old(destination.Value())).value
    ensures r.Err? ==> destination.ledger == old(destination.ledger)
  {
    var data := Load(destination.ledger);
    if data.Err? {
      return Err(data.error);
    }
    if data.value.None? {
      return Ok(());
    }
    var files := data.value.value;
    if PROVENANCE in destination.files {
      files := files[PROVENANCE := Checksum(destination.files[PROVENANCE])];
    }
    destination.ledger := Recorded(files);
    r := Ok(());
  }

  // ---------- removal ----------

  /** `q` lies directly in the directory `d`. */
  predicate ChildOf(d: bytes, q: bytes) {
    Below47(d, q) && 47 !in q[|d| + 1..]
  }

  /** Every file and directory lies in a listed directory, or at the top. */
  ghost predicate Nested(paths: set<bytes>, folders: set<bytes>) {
    forall q :: q in paths && 47 in q ==> exists d :: d in folders && ChildOf(d, q)
  }

  function Depth(d: bytes): nat {
    if d == [] then 0 else Depth(d[1..]) + if d[0] == 47 then 1 else 0
  }

  lemma {:induction false} DepthAppend(a: bytes, b: bytes)
    ensures Depth(a + b) == Depth(a) + Depth(b)
  {
    if a == [] {
      assert a + b == b;
    } else {
      assert (a + b)[1..] == a[1..] + b;
      DepthAppend(a[1..], b);
    }
  }

  lemma DeeperBelow(d: bytes, q: bytes)
    requires Below47(d, q)
    ensures Depth(d) < Depth(q)
  {
    var rest := q[|d| + 1..];
    assert q == d + ([47] + rest);
    DepthAppend(d, [47] + rest);
  }

  lemma HeldInTail(f: bytes, from: nat, i: nat)
    requires from <= i < |f|
    ensures f[i] in f[from..]
  {
    assert f[from..][i - from] == f[i];
  }

  lemma SamePlace(d: bytes, e: bytes, f: bytes)
    requires Below47(d, f) && Below47(e, f) && |d| == |e|
    ensures d == e
  {
    assert d == f[..|d|] == e;
  }

  /** The directory `e` directly above `f` lies below any other directory above `f`. */
  lemma ParentBetween(d: bytes, e: bytes, f: bytes)
    requires Below47(d, f) && !ChildOf(d, f) && ChildOf(e, f)
    ensures Below47(d, e) && |e| < |f|
  {
    forall i | |e| < i < |f| ensures f[i] != 47 {
      HeldInTail(f, |e| + 1, i);
    }
    assert f[|d|] == 47;
    assert |d| <= |e|;
    if |e| == |d| {
      SamePlace(d, e, f);
    } else {
      assert e == f[..|e|];
    }
  }

  /** Something beneath a directory means something directly in it. */
  lemma {:induction false} BeneathHasChild(paths: set<bytes>, folders: set<bytes>, d: bytes, f: bytes)
    requires folders <= paths && Nested(paths, folders) && f in paths && Below47(d, f)
    ensures exists q :: q in paths && ChildOf(d, q)
    decreases |f|
  {
    if !ChildOf(d, f) {
      assert f[|d|] == 47;
      var e :| e in folders && ChildOf(e, f);
      ParentBetween(d, e, f);
      BeneathHasChild(paths, folders, d, e);
    }
  }

  predicate Holds(files: Tree, d: bytes) {
    exists f :: f in files && Below47(d, f)
  }

  lemma DeepestExists(todo: set<bytes>)
    requires todo != {}
    ensures exists d :: d in todo && forall e :: e in todo ==> Depth(e) <= Depth(d)
    decreases todo
  {
    var x :| x in todo;
    if todo == {x} {
      assert forall e :: e in todo ==> e == x;
    } else {
      var rest := todo - {x};
      DeepestExists(rest);
      var d :| d in rest && forall e :: e in rest ==> Depth(e) <= Depth(d);
      if Depth(d) <= Depth(x) {
        assert x in todo && forall e :: e in todo ==> Depth(e) <= Depth(x);
      } else {
        assert d in todo && forall e :: e in todo ==> Depth(e) <= Depth(d);
      }
    }
  }

  /** The single deepest-first pass: a directory goes when nothing is directly in it. */
  method PruneFolders(d: Directory)
    requires Nested(d.files.Keys + d.folders, d.folders)
    modifies d`folders
    ensures Nested(d.files.Keys + d.folders, d.folders)
    ensures forall f :: f in d.folders <==> f in old(d.folders) && Holds(d.files, f)
  {
    var todo := d.folders;
    while todo != {}
      invariant todo <= d.folders <= old(d.folders)
      invariant Nested(d.files.Keys + d.folders, d.folders)
      invariant forall e, f :: e in old(d.folders) && e !in todo && f in todo ==> Depth(f) <= Depth(e)
      invariant forall e :: e in old(d.folders) && e !in todo ==> (e in d.folders <==> Holds(d.files, e))
      decreases todo
    {
      DeepestExists(todo);
      var f :| f in todo && forall e :: e in todo ==> Depth(e) <= Depth(f);
      var empty := !exists q :: q in d.files.Keys + d.folders && ChildOf(f, q);
      PruneDecision(d.files, d.folders, todo, old(d.folders), f);
      todo := todo - {f};
      if empty {
        PruneKeepsNested(d.files.Keys, d.folders, f);
        d.folders := d.folders - {f};
      }
    }
  }

  lemma PruneKeepsNested(files: set<bytes>, folders: set<bytes>, f: bytes)
    requires Nested(files + folders, folders)
    requires !exists q :: q in files + folders && ChildOf(f, q)
    ensures Nested(files + (folders - {f}), folders - {f})
  {
    forall q | q in files + (folders - {f}) && 47 in q ensures exists d :: d in folders - {f} && ChildOf(d, q) {
      assert q in files + folders;
      var d :| d in folders && ChildOf(d, q);
      assert d != f;
    }
  }

  /** Once every deeper directory is settled, having no child and holding no file are the same. */
  lemma PruneDecision(files: Tree, folders: set<bytes>, todo: set<bytes>, all: set<bytes>, f: bytes)
    requires todo <= folders <= all && f in todo && Nested(files.Keys + folders, folders)
    requires forall e :: e in todo ==> Depth(e) <= Depth(f)
    requires forall e :: e in all && e !in todo ==> (e in folders <==> Holds(files, e))
    ensures (exists q :: q in files.Keys + folders && ChildOf(f, q)) <==> Holds(files, f)
  {
    if Holds(files, f) {
      var g :| g in files && Below47(f, g);
      BeneathHasChild(files.Keys + folders, folders, f, g);
    }
    if q :| q in files.Keys + folders && ChildOf(f, q) {
      if q in files {
        assert Holds(files, f);
      } else {
        DeeperBelow(f, q);
        assert q in all && q !in todo;
        var g :| g in files && Below47(q, g);
        assert Below47(f, g);
      }
    }
  }

  datatype Removal = Removal(removed: nat, preserved: nat, legacy: bool)

  /** The unlinking loop of `remove`. */
  method UnlinkOwned(destination: Directory, owned: map<bytes, Checksum>, current: map<bytes, Checksum>)
    returns (removed: nat)
    requires current == Checksums(destination.files)
    modifies destination`files
    ensures destination.files == Kept(old(destination.files), owned)
    ensures removed + |destination.files| == |old(destination.files)|
  {
    removed := 0;
    var todo := owned.Keys;
    ghost var was := destination.files;
    while todo != {}
      invariant todo <= owned.Keys
      invariant Unlinked(was, owned, todo, destination.files)
      invariant removed + |destination.files| == |was|
      decreases todo
    {
      var relative :| relative in todo;
      if relative in current && current[relative] == owned[relative] {
        OneLess(destination.files, relative);
        destination.files := destination.files - {relative};
        removed := removed + 1;
      }
      todo := todo - {relative};
    }
    assert destination.files == Kept(was, owned);
  }

  /** `files` is `was` without the owned, matching files that are no longer to do. */
  ghost predicate Unlinked(was: Tree, owned: map<bytes, Checksum>, todo: set<bytes>, files: Tree) {
    && (forall p :: p in files ==> p in was && files[p] == was[p])
    && (forall p :: p in was ==>
          (p in files <==> !(p in owned && p !in todo && owned[p] == Checksum(was[p]))))
  }

  /** What a removal leaves of the directories: with a ledger, those that still hold a file. */
  ghost predicate Pruned(was: set<bytes>, now: set<bytes>, files: Tree) {
    forall f :: f in now <==> f in was && Holds(files, f)
  }

  /** `remove`: unlink what still matches the ledger, drop the ledger, prune, and count. Without
      a ledger, and on any error, nothing is touched. */
  method Remove(destination: Directory) returns (r: Result<Removal, Error>)
    requires Nested(destination.files.Keys + destination.folders, destination.folders)
    modifies destination
    ensures r.Ok? ==> Removed(old(destination.Value())) == Ok(destination.files)
    ensures r.Ok? ==> r.value.removed + r.value.preserved == |old(destination.files)|
    ensures r.Ok? ==> r.value.preserved == |destination.files| && destination.ledger == Absent
    ensures r.Ok? ==> (r.value.legacy <==> old(destination.ledger) == Absent)
    ensures r.Ok? && !r.value.legacy ==> Pruned(old(destination.folders), destination.folders, destination.files)
    ensures r.Ok? && r.value.legacy ==> destination.folders == old(destination.folders)
    ensures r.Err? ==> destination.Value() == old(destination.Value()) && destination.folders == old(destination.folders)
    ensures r.Err? <==> Removed(old(destination.Value())).Err? || !AllSafe(old(destination.files.Keys + destination.folders))
  {
    var data := Load(destination.ledger);
    if data.Err? {
      return Err(data.error);
    }
    var current := destination.Digests();
    if current.Err? {
      return Err(current.error);
    }
    if data.value.None? {
      return Ok(Removal(0, |destination.files|, true));
    }
    ghost var was := destination.files;
    var removed := UnlinkOwned(destination, data.value.value, current.value);
    destination.ledger := Absent;
    assert destination.files.Keys <= was.Keys;
    NestedAfterRemoval(was.Keys, destination.files.Keys, destination.folders);
    PruneFolders(destination);
    r := Ok(Removal(removed, |destination.files|, false));
  }

  lemma OneLess(t: Tree, p: bytes)
    requires p in t
    ensures |t - {p}| + 1 == |t|
  {
    assert (t - {p}).Keys == t.Keys - {p};
    assert |(t - {p}).Keys| + 1 == |t.Keys|;
  }

  lemma NestedAfterRemoval(was: set<bytes>, now: set<bytes>, folders: set<bytes>)
    requires now <= was && Nested(was + folders, folders)
    ensures Nested(now + folders, folders)
  {
  }
}
