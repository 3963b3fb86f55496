/** An installation over any number of upgrades, provenance stamps and user edits, and its
    removal (bootstrap/install_ownership.py `record`, `stamp`, `remove`). */
module OwnershipRuns {
  import opened Outcome
  import opened ByteStrings
  import opened Ownership

  /** An existing destination directory. */
  datatype Install = Install(files: Tree, ledger: Ledger)

  predicate AllSafe(paths: set<bytes>) {
    forall p :: p in paths ==> Safe(p)
  }

  /** `load`: the recorded files, if there is a ledger. */
  function Load(ledger: Ledger): Result<Option<map<bytes, Checksum>>, Error> {
    match ledger
    case Absent => Ok(None)
    case Damaged => Err(DamagedLedger)
    case Recorded(m) => if AllSafe(m.Keys) then Ok(Some(m)) else Err(DamagedLedger)
  }

  /** The generation that `record` sees, once everything it reads has been accepted. */
  function Accepted(s: Install, shipped: Tree, manifest: Option<Manifest>): Result<Generation, Error> {
    if !AllSafe(shipped.Keys) then Err(DamagedLedger)
    else match Load(s.ledger)
      case Err(e) => Err(e)
      case Ok(previous) =>
        if !AllSafe(s.files.Keys) then Err(DamagedLedger)
        else match manifest
          case None => Err(NoManifest)
          case Some(m) => Ok(Generation(s.files, previous, shipped, m))
  }

  /** `record` into the stage and publication of the stage; a refused upgrade changes nothing. */
  function Upgraded(s: Install, shipped: Tree, manifest: Option<Manifest>, backup: Tree, order: seq<bytes>)
    : Result<Install, Error>
    requires Within(order, s.files)
  {
    match Accepted(s, shipped, manifest)
    case Err(e) => Err(e)
    case Ok(g) =>
      match RecordAll(g, Progress(shipped, backup), order)
      case Err(e) => Err(e)
      case Ok(p) => Ok(Install(p.stage, Recorded(Checksums(shipped))))
  }

  /** `stamp`: the marker's digest enters an existing ledger. */
  function Stamped(s: Install): Result<Install, Error> {
    match Load(s.ledger)
    case Err(e) => Err(e)
    case Ok(None) => Ok(s)
    case Ok(Some(m)) =>
      Ok(if PROVENANCE in s.files then s.(ledger := Recorded(m[PROVENANCE := Checksum(s.files[PROVENANCE])])) else s)
  }

  /** The files `remove` leaves: those not matching the ledger. */
  function Kept(files: Tree, owned: map<bytes, Checksum>): Tree {
    map p | p in files && !(p in owned && owned[p] == Checksum(files[p])) :: files[p]
  }

  function Removed(s: Install): Result<Tree, Error> {
    match Load(s.ledger)
    case Err(e) => Err(e)
    case Ok(None) => Ok(s.files)
    case Ok(Some(m)) => Ok(Kept(s.files, m))
  }

  // ---------- the backups ----------

  /** The sibling backups, one for each state of the destination's files. */
  type Store = map<map<bytes, Checksum>, Tree>

  function BackupOf(trees: Store, key: map<bytes, Checksum>): Tree {
    if key in trees then trees[key] else map[]
  }

  /** An installation and the backups beside it. */
  datatype Site = Site(install: Install, store: Store)

  /** `record` and publication: the backup keeps what was moved there before a refusal, too. */
  function UpgradedSite(s: Site, shipped: Tree, manifest: Option<Manifest>, order: seq<bytes>): Site
    requires Within(order, s.install.files)
  {
    match Accepted(s.install, shipped, manifest)
    case Err(_) => s
    case Ok(g) =>
      var key := Checksums(s.install.files);
      var backup := BackupOf(s.store, key);
      var store := s.store[key := Reached(g, Progress(shipped, backup), order).backup];
      match Upgraded(s.install, shipped, manifest, backup, order)
      case Err(_) => Site(s.install, store)
      case Ok(t) => Site(t, store)
  }

  // ---------- runs ----------

  /** What can happen to an installation. The installer writes the provenance marker, and the
      user anything, as an edit. `order` is the order in which the old files are met. */
  datatype Event =
    | Upgrade(shipped: Tree, manifest: Option<Manifest>, order: seq<bytes>)
    | Stamp
    | Edit(path: bytes, content: Option<bytes>)

  ghost predicate Possible(s: Site, e: Event) {
    e.Upgrade? ==> Enumerates(e.order, s.install.files)
  }

  function After(s: Site, e: Event): Site
    requires Possible(s, e)
  {
    match e
    case Upgrade(shipped, manifest, order) => UpgradedSite(s, shipped, manifest, order)
    case Stamp => s.(install := match Stamped(s.install) case Ok(t) => t case Err(_) => s.install)
    case Edit(path, Some(content)) => s.(install := s.install.(files := s.install.files[path := content]))
    case Edit(path, None) => s.(install := s.install.(files := s.install.files - {path}))
  }

  ghost predicate Runs(s: Site, events: seq<Event>)
    decreases |events|
  {
    events == [] || (Possible(s, events[0]) && Runs(After(s, events[0]), events[1..]))
  }

  function AfterAll(s: Site, events: seq<Event>): Site
    requires Runs(s, events)
    decreases |events|
  {
    if events == [] then s else AfterAll(After(s, events[0]), events[1..])
  }

  /** Event by event. */
  lemma {:induction false} OneMoreEvent(s: Site, events: seq<Event>, e: Event)
    requires Runs(s, events) && Possible(AfterAll(s, events), e)
    ensures Runs(s, events + [e]) && AfterAll(s, events + [e]) == After(AfterAll(s, events), e)
    decreases |events|
  {
    if events == [] {
      assert events + [e] == [e] && [e][1..] == [];
    } else {
      assert (events + [e])[0] == events[0] && (events + [e])[1..] == events[1..] + [e];
      OneMoreEvent(After(s, events[0]), events[1..], e);
    }
  }

  /** What an event does to the installation and to the backups: an upgrade that is accepted puts what
      it displaces into the backup of the state it found, even if it stops half way, and touches no
      other; nothing else touches one. */
  lemma EventMeaning(s: Site, e: Event, path: bytes)
    requires Possible(s, e)
    ensures !e.Upgrade? ==> After(s, e).store == s.store
    ensures e.Edit? ==>
              var t := After(s, e).install;
              && t.ledger == s.install.ledger
              && (path == e.path ==> (path in t.files <==> e.content.Some?) && (path in t.files ==> t.files[path] == e.content.value))
              && (path != e.path ==> (path in t.files <==> path in s.install.files)
                                     && (path in t.files ==> t.files[path] == s.install.files[path]))
    ensures e.Stamp? ==> After(s, e).install == (if Stamped(s.install).Ok? then Stamped(s.install).value else s.install)
    ensures e.Upgrade? && Accepted(s.install, e.shipped, e.manifest).Err? ==> After(s, e) == s
    ensures e.Upgrade? && Accepted(s.install, e.shipped, e.manifest).Ok? ==>
              var g, key := Accepted(s.install, e.shipped, e.manifest).value, Checksums(s.install.files);
              var backup := if key in s.store then s.store[key] else map[];
              var r := Upgraded(s.install, e.shipped, e.manifest, backup, e.order);
              && After(s, e).install == (if r.Ok? then r.value else s.install)
              && After(s, e).store.Keys == s.store.Keys + {key}
              && After(s, e).store[key] == Reached(g, Progress(e.shipped, backup), e.order).backup
              && forall k :: k in s.store && k != key ==> After(s, e).store[k] == s.store[k]
  {
  }

  /** A user's file: present with these bytes, and no entry of the ledger. */
  ghost predicate Mine(s: Install, u: bytes, b: bytes) {
    u in s.files && s.files[u] == b && (s.ledger.Recorded? ==> u !in s.ledger.files)
  }

  /** The event is not about `u`: no generation ships it or declares a tree around it, and nobody
      edits it. */
  ghost predicate Spares(e: Event, u: bytes) {
    match e
    case Upgrade(shipped, manifest, _) =>
      u !in shipped && (manifest.Some? ==> !Declares(manifest.value, u))
    case Stamp => true
    case Edit(path, _) => path != u
  }

  lemma UserFileRoute(g: Generation, u: bytes)
    requires u in g.existing && u != Ascii(".saipen_runtime.json") && u !in g.shipped && !Declares(g.manifest, u)
    requires g.previous.Some? ==> u !in g.previous.value
    ensures RouteOf(g, u) == ToStage
  {
    RouteMeaning(g, u);
  }

  lemma UserFileStep(s: Site, e: Event, u: bytes, b: bytes)
    requires Possible(s, e) && Mine(s.install, u, b) && u != Ascii(".saipen_runtime.json") && Spares(e, u)
    ensures Mine(After(s, e).install, u, b)
  {
    if e.Upgrade? && Accepted(s.install, e.shipped, e.manifest).Ok? {
      var g := Accepted(s.install, e.shipped, e.manifest).value;
      var backup := BackupOf(s.store, Checksums(s.install.files));
      if Upgraded(s.install, e.shipped, e.manifest, backup, e.order).Ok? {
        UserFileRoute(g, u);
        StageAfter(g, backup, e.order);
        assert StageAt(g, RecordAll(g, Progress(e.shipped, backup), e.order).value, e.order, u);
      }
    }
  }

  /** The upgrade-run invariant: through every run that spares it, a user's file keeps its bytes
      and never enters a ledger, and a final removal leaves it. */
  lemma {:induction false} UserFileSurvives(s: Site, events: seq<Event>, u: bytes, b: bytes)
    requires Runs(s, events) && Mine(s.install, u, b) && u != Ascii(".saipen_runtime.json")
    requires forall e :: e in events ==> Spares(e, u)
    ensures Mine(AfterAll(s, events).install, u, b)
    ensures var r := Removed(AfterAll(s, events).install); r.Ok? ==> u in r.value && r.value[u] == b
    decreases |events|
  {
    if events != [] {
      UserFileStep(s, events[0], u, b);
      UserFileSurvives(After(s, events[0]), events[1..], u, b);
    }
  }

  /** Nothing retired comes back: right after an upgrade the destination holds, inside the
      declared surface, exactly what the new generation ships. */
  lemma UpgradeReplacesSurface(s: Install, shipped: Tree, manifest: Option<Manifest>, backup: Tree, order: seq<bytes>,
                               p: bytes)
    requires Enumerates(order, s.files) && Upgraded(s, shipped, manifest, backup, order).Ok?
    requires manifest.Some? && Declares(manifest.value, p)
    ensures var t := Upgraded(s, shipped, manifest, backup, order).value;
            (p in t.files <==> p in shipped) && (p in shipped ==> t.files[p] == shipped[p])
  {
    NoResurrection(Accepted(s, shipped, manifest).value, backup, order, p);
  }

  /** The files of an old installation that a new one carries over. */
  function Extras(g: Generation): Tree {
    map p | p in g.existing && RouteOf(g, p) == ToStage :: g.existing[p]
  }

  lemma KeptOfUpgrade(s: Install, shipped: Tree, manifest: Option<Manifest>, backup: Tree, order: seq<bytes>)
    requires Enumerates(order, s.files) && Upgraded(s, shipped, manifest, backup, order).Ok?
    ensures Kept(Upgraded(s, shipped, manifest, backup, order).value.files, Checksums(shipped))
         == Extras(Accepted(s, shipped, manifest).value)
    ensures PROVENANCE !in Extras(Accepted(s, shipped, manifest).value)
  {
    var t := Upgraded(s, shipped, manifest, backup, order).value;
    var g := Accepted(s, shipped, manifest).value;
    StageAfter(g, backup, order);
    var p := RecordAll(g, Progress(shipped, backup), order).value;
    forall q ensures q in Kept(t.files, Checksums(shipped)) <==> q in Extras(g)
      ensures q in Extras(g) ==> t.files[q] == g.existing[q]
    {
      assert StageAt(g, p, order, q);
    }
  }

  /** A marker that is in both the files and the ledger makes no difference to what is kept. */
  lemma KeptWithMarker(files: Tree, owned: map<bytes, Checksum>, marker: bytes)
    requires PROVENANCE !in Kept(files, owned)
    ensures Kept(files[PROVENANCE := marker], owned[PROVENANCE := Checksum(marker)]) == Kept(files, owned)
  {
  }

  /** A name of dots, underscores and lower-case letters is one path segment. */
  lemma {:induction false} PlainText(s: string, c: byte)
    requires c in {47, 58, 92} && forall i :: 0 <= i < |s| ==> s[i] == '.' || s[i] == '_' || 'a' <= s[i] <= 'z'
    ensures c !in Ascii(s)
  {
  }

  lemma ProvenanceIsSafe()
    ensures Safe(PROVENANCE)
  {
    var dot, name, ending := ".", "saipen_runtime", ".json";
    assert forall i :: 0 <= i < |name| ==> name[i] == '_' || 'a' <= name[i] <= 'z';
    assert ".saipen_runtime.json" == dot + name + ending;
    PlainText(".saipen_runtime.json", 47);
    PlainText(".saipen_runtime.json", 58);
    PlainText(".saipen_runtime.json", 92);
    SplitSingle(PROVENANCE, 47);
    assert |PROVENANCE| == 20;
  }

  /** Installing, marking provenance, stamping and removing again leaves exactly the carried
      extras: everything the installer brought goes, nothing else does. */
  lemma RemoveUndoesUpgrade(s: Install, shipped: Tree, manifest: Option<Manifest>, backup: Tree, order: seq<bytes>,
                            marker: bytes)
    requires Enumerates(order, s.files) && Upgraded(s, shipped, manifest, backup, order).Ok?
    ensures var t := Upgraded(s, shipped, manifest, backup, order).value;
            var extras := Extras(Accepted(s, shipped, manifest).value);
            var marked := Stamped(t.(files := t.files[PROVENANCE := marker]));
            Removed(t) == Ok(extras) && marked.Ok? && Removed(marked.value) == Ok(extras)
  {
    var t := Upgraded(s, shipped, manifest, backup, order).value;
    KeptOfUpgrade(s, shipped, manifest, backup, order);
    KeptWithMarker(t.files, Checksums(shipped), marker);
    ProvenanceIsSafe();
    assert Checksums(shipped).Keys == shipped.Keys;
  }

  // ---------- what each command does, by its facts ----------

  /** Every path read is safe, the ledger is not damaged, and there is a manifest: exactly then the
      generation is what was read. */
  lemma AcceptedIff(s: Install, shipped: Tree, manifest: Option<Manifest>, g: Generation)
    ensures Accepted(s, shipped, manifest) == Ok(g) <==>
              && (forall p :: p in shipped || p in s.files ==> Safe(p))
              && (s.ledger.Recorded? ==> forall p :: p in s.ledger.files ==> Safe(p)) && !s.ledger.Damaged?
              && manifest.Some?
              && g == Generation(s.files, if s.ledger.Recorded? then Some(s.ledger.files) else None, shipped, manifest.value)
  {
  }

  /** An upgraded installation, path by path, and its ledger. */
  lemma UpgradeMeaning(s: Install, shipped: Tree, manifest: Option<Manifest>, backup: Tree, order: seq<bytes>,
                       p: bytes, b: bytes)
    requires Enumerates(order, s.files) && Upgraded(s, shipped, manifest, backup, order).Ok?
    ensures var t := Upgraded(s, shipped, manifest, backup, order).value;
            && manifest.Some? && !t.ledger.Absent? && !t.ledger.Damaged?
            && ((p in t.files && t.files[p] == b) <==>
                  || (p in shipped && shipped[p] == b)
                  || (p in s.files && s.files[p] == b && p !in shipped && !Declares(manifest.value, p)
                      && p != Ascii(".saipen_runtime.json")
                      && !(s.ledger.Recorded? && p in s.ledger.files && s.ledger.files[p].content == b)))
            && ((p in t.ledger.files && t.ledger.files[p].content == b) <==> (p in shipped && shipped[p] == b))
  {
    StageMeaning(Accepted(s, shipped, manifest).value, backup, order, p, b);
  }

  /** A removal is refused exactly over a ledger that is damaged or has an unsafe path; without a
      ledger it leaves everything, with one everything but the files as recorded. */
  lemma RemoveMeaning(s: Install, p: bytes, b: bytes)
    ensures Removed(s).Err? <==> s.ledger.Damaged? || (s.ledger.Recorded? && exists q :: q in s.ledger.files && !Safe(q))
    ensures Removed(s).Ok? ==>
              ((p in Removed(s).value && Removed(s).value[p] == b) <==>
                 p in s.files && s.files[p] == b
                 && !(s.ledger.Recorded? && p in s.ledger.files && s.ledger.files[p].content == b))
  {
  }

  /** A stamp changes no file, needs a readable ledger, and records in it the marker that is there. */
  lemma StampMeaning(s: Install, p: bytes, b: bytes)
    ensures Stamped(s).Err? <==> s.ledger.Damaged? || (s.ledger.Recorded? && exists q :: q in s.ledger.files && !Safe(q))
    ensures Stamped(s).Ok? ==>
              var t := Stamped(s).value;
              && t.files == s.files && (t.ledger.Absent? <==> s.ledger.Absent?) && !t.ledger.Damaged?
              && (t.ledger.Recorded? ==>
                    ((p in t.ledger.files && t.ledger.files[p].content == b) <==>
                       if p == Ascii(".saipen_runtime.json") && p in s.files then s.files[p] == b
                       else p in s.ledger.files && s.ledger.files[p].content == b))
  {
  }
}
