/** No byte of the user's is lost over any run of upgrades: it stays in place, or in a backup
    (bootstrap/install_ownership.py `record`). */
module OwnershipBytes {
  import opened Outcome
  import opened ByteStrings
  import opened Ownership
  import opened OwnershipRuns

  /** Every backup belongs to the state it is named for. */
  ghost predicate StoreOfStates(store: Store) {
    forall key :: key in store ==> TreeLike(store[key]) && BackupOfState(key, store[key])
  }

  /** No backup loses an entry. */
  ghost predicate StoreGrows(before: Store, after: Store) {
    forall key :: key in before ==> key in after && Includes(after[key], before[key])
  }

  /** The destination is a tree, and the upgrade displaces nothing named like, or below, the inert
      SKILL.md. */
  ghost predicate Quiet(s: Install, e: Event) {
    e.Upgrade? ==> TreeLike(s.files) && (Accepted(s, e.shipped, e.manifest).Ok? ==> Ordinary(Accepted(s, e.shipped, e.manifest).value))
  }

  ghost predicate QuietRun(s: Site, events: seq<Event>)
    requires Runs(s, events)
    decreases |events|
  {
    events == [] || (Quiet(s.install, events[0]) && QuietRun(After(s, events[0]), events[1..]))
  }

  lemma BackupOfStart(store: Store, key: map<bytes, Checksum>)
    requires StoreOfStates(store)
    ensures TreeLike(BackupOf(store, key)) && BackupOfState(key, BackupOf(store, key))
  {
  }

  lemma StoreStep(s: Site, e: Event)
    requires Possible(s, e) && Quiet(s.install, e) && StoreOfStates(s.store)
    ensures StoreOfStates(After(s, e).store) && StoreGrows(s.store, After(s, e).store)
  {
    if e.Upgrade? && Accepted(s.install, e.shipped, e.manifest).Ok? {
      var key := Checksums(s.install.files);
      var g := Accepted(s.install, e.shipped, e.manifest).value;
      BackupOfStart(s.store, key);
      ReachedKeepsBackup(g, BackupOf(s.store, key), e.order);
      StorePut(s.store, key, Reached(g, Progress(e.shipped, BackupOf(s.store, key)), e.order).backup);
    }
  }

  lemma StorePut(store: Store, key: map<bytes, Checksum>, backup: Tree)
    requires StoreOfStates(store) && TreeLike(backup) && BackupOfState(key, backup) && Includes(backup, BackupOf(store, key))
    ensures StoreOfStates(store[key := backup]) && StoreGrows(store, store[key := backup])
  {
  }

  /** Over any quiet run the backups only grow, each remaining a backup of its own state. */
  lemma {:induction false} StoresGrow(s: Site, events: seq<Event>)
    requires Runs(s, events) && QuietRun(s, events) && StoreOfStates(s.store)
    ensures StoreOfStates(AfterAll(s, events).store) && StoreGrows(s.store, AfterAll(s, events).store)
    decreases |events|
  {
    if events != [] {
      StoreStep(s, events[0]);
      StoresGrow(After(s, events[0]), events[1..]);
      GrowsOn(s.store, After(s, events[0]).store, AfterAll(s, events).store);
    }
  }

  lemma GrowsOn(a: Store, b: Store, c: Store)
    requires StoreGrows(a, b) && StoreGrows(b, c)
    ensures StoreGrows(a, c)
  {
    forall key | key in a ensures key in c && Includes(c[key], a[key]) {
      assert Includes(b[key], a[key]) && Includes(c[key], b[key]);
    }
  }

  function KeptName(p: bytes): bytes {
    if p == Ascii("SKILL.md") then Ascii("SKILL.md.user-backup") else p
  }

  /** The bytes `b` are kept in some backup, under the backup name of `p`. */
  ghost predicate InBackup(store: Store, p: bytes, b: bytes) {
    exists key :: key in store && KeptName(p) in store[key] && store[key][KeptName(p)] == b
  }

  lemma InBackupStays(before: Store, after: Store, p: bytes, b: bytes)
    requires InBackup(before, p, b) && StoreGrows(before, after)
    ensures InBackup(after, p, b)
  {
    var key :| key in before && KeptName(p) in before[key] && before[key][KeptName(p)] == b;
    assert Includes(after[key], before[key]);
  }

  /** Each file that an accepted upgrade displaces is in the backup, with its bytes, when the
      upgrade is done. */
  lemma UpgradeBacksUp(s: Site, e: Event, p: bytes)
    requires Possible(s, e) && e.Upgrade? && Quiet(s.install, e) && StoreOfStates(s.store)
    requires Accepted(s.install, e.shipped, e.manifest).Ok?
    requires var g := Accepted(s.install, e.shipped, e.manifest).value;
             RecordAll(g, Progress(e.shipped, BackupOf(s.store, Checksums(s.install.files))), e.order).Ok?
             && Backed(g, p)
    ensures InBackup(After(s, e).store, p, s.install.files[p])
  {
    var key := Checksums(s.install.files);
    var g := Accepted(s.install, e.shipped, e.manifest).value;
    BackupOfStart(s.store, key);
    DisplacedIsBackedUp(g, BackupOf(s.store, key), e.order, p);
    BackupPathIs(p);
    assert After(s, e).store[key][KeptName(p)] == s.install.files[p];
  }

  /** What an upgrade of a run displaced is still in its backup when the run ends. */
  lemma {:induction false} DisplacedBytesStay(s: Site, e: Event, events: seq<Event>, p: bytes)
    requires Runs(s, [e] + events) && QuietRun(s, [e] + events) && StoreOfStates(s.store)
    requires e.Upgrade? && Accepted(s.install, e.shipped, e.manifest).Ok?
    requires var g := Accepted(s.install, e.shipped, e.manifest).value;
             RecordAll(g, Progress(e.shipped, BackupOf(s.store, Checksums(s.install.files))), e.order).Ok?
             && Foreign(g, p) && (p in e.shipped || Declares(g.manifest, p))
    ensures InBackup(AfterAll(s, [e] + events).store, p, s.install.files[p])
  {
    assert ([e] + events)[1..] == events;
    RouteMeaning(Accepted(s.install, e.shipped, e.manifest).value, p);
    StoreStep(s, e);
    UpgradeBacksUp(s, e, p);
    StoresGrow(After(s, e), events);
    InBackupStays(After(s, e).store, AfterAll(s, [e] + events).store, p, s.install.files[p]);
  }

  // ---------- a user's bytes ----------

  /** The bytes `b` of `p` are in place and not the installer's, or in a backup. */
  ghost predicate Safekept(s: Site, p: bytes, b: bytes) {
    InPlace(s.install, p, b) || InBackup(s.store, p, b)
  }

  predicate InPlace(s: Install, p: bytes, b: bytes) {
    p in s.files && s.files[p] == b
    && !(s.ledger.Recorded? && p in s.ledger.files && s.ledger.files[p] == Checksum(b))
  }

  lemma BytesStep(s: Site, e: Event, p: bytes, b: bytes)
    requires Possible(s, e) && Quiet(s.install, e) && StoreOfStates(s.store)
    requires Safekept(s, p, b) && p != Ascii(".saipen_runtime.json") && !(e.Edit? && e.path == p)
    ensures Safekept(After(s, e), p, b)
  {
    StoreStep(s, e);
    if InBackup(s.store, p, b) {
      InBackupStays(s.store, After(s, e).store, p, b);
    } else if e.Upgrade? && Accepted(s.install, e.shipped, e.manifest).Ok? {
      UpgradeKeepsBytes(s, e, p, b);
    }
  }

  lemma UpgradeKeepsBytes(s: Site, e: Event, p: bytes, b: bytes)
    requires Possible(s, e) && e.Upgrade? && Quiet(s.install, e) && StoreOfStates(s.store)
    requires InPlace(s.install, p, b) && p != Ascii(".saipen_runtime.json") && Accepted(s.install, e.shipped, e.manifest).Ok?
    ensures Safekept(After(s, e), p, b)
  {
    var g := Accepted(s.install, e.shipped, e.manifest).value;
    var backup := BackupOf(s.store, Checksums(s.install.files));
    if RecordAll(g, Progress(e.shipped, backup), e.order).Ok? {
      if RouteOf(g, p) == ToBackup {
        UpgradeBacksUp(s, e, p);
      } else {
        StageAfter(g, backup, e.order);
        assert StageAt(g, RecordAll(g, Progress(e.shipped, backup), e.order).value, e.order, p);
      }
    }
  }

  /** Over any quiet run from backups that are backups, bytes that are the user's at a path stay
      the user's there or in a backup, as long as the user does not edit that path: upgrades that
      ship over it, retire it, fail half way or repeat a state included. A final removal keeps
      them too. */
  lemma {:induction false} UserBytesAreNeverLost(s: Site, events: seq<Event>, p: bytes, b: bytes)
    requires Runs(s, events) && QuietRun(s, events) && StoreOfStates(s.store)
    requires Safekept(s, p, b) && p != Ascii(".saipen_runtime.json") && forall e :: e in events ==> !(e.Edit? && e.path == p)
    ensures var last := AfterAll(s, events);
            Safekept(last, p, b)
            && (Removed(last.install).Ok? ==>
                  InBackup(last.store, p, b) || (p in Removed(last.install).value && Removed(last.install).value[p] == b))
    decreases |events|
  {
    if events != [] {
      BytesStep(s, events[0], p, b);
      StoreStep(s, events[0]);
      UserBytesAreNeverLost(After(s, events[0]), events[1..], p, b);
    }
  }
}
