/** Staged activation of a host hook under faults, and the rollback command
    (tools/install_host_guard.py `_backup_config`, `_activate_verified`, `rollback`). */
module Activation {
  import opened Outcome
  import opened ByteStrings

  /** What a self-test says: it passes, it names the step that failed, or reading for it fails. */
  datatype Probe = Passed | Refused(step: string) | Unreadable

  /** The files of one host. A backup of the configuration is named by the digest of its bytes. */
  datatype Files = Files(artifact: Option<bytes>, staged: Option<bytes>, config: Option<bytes>,
                         previous: Option<bytes>, backups: map<bytes, bytes>)

  /** What the host reads at one moment. */
  datatype View = View(artifact: Option<bytes>, config: Option<bytes>)

  /** What to install; `original` is the configuration as the installer read it. */
  datatype Job = Job(shipped: bytes, encoded: bytes, original: Option<bytes>, current: bool)

  /** Which steps fail. A failed staging leaves some bytes, or none, at the staged path; every
      other write is atomic. */
  datatype Faults = Faults(folder: bool, staging: Option<Option<bytes>>, stagedProbe: Probe, reading: bool, backup: bool,
                           keeping: bool, replacing: bool, config: bool, activeProbe: Probe)

  datatype Report =
    | Activated(changed: bool)
    | NotActivated(step: string, rollback: bool)
    | Raised

  /** The files a step ends with, and every view the host had meanwhile. */
  datatype Run = Run(files: Files, outcome: Report, views: seq<View>)

  /** What the comparison of two generations looks at: their content and the retired marker. */
  datatype Reading = Reading(content: bytes -> bytes, retired: bytes -> bool)

  function Seen(f: Files): View { View(f.artifact, f.config) }

  function StepName(during: string, p: Probe): string {
    if p.Refused? then p.step else during
  }

  /** Is the replaced artifact a generation worth keeping? */
  predicate WorthKeeping(prior: Option<bytes>, shipped: bytes, reading: Reading) {
    prior.Some? && reading.content(prior.value) != reading.content(shipped) && !reading.retired(prior.value)
  }

  function BackedUp(f: Files, job: Job): Files {
    if job.original.None? || job.original.value == job.encoded || job.original.value in f.backups then f
    else f.(backups := f.backups[job.original.value := job.original.value])
  }

  predicate BackupFails(f: Files, job: Job, faults: Faults) {
    faults.backup && BackedUp(f, job) != f
  }

  /** The guarded part: keep the old generation, switch the artifact, write the configuration,
      test what is now active. */
  function Switched(f: Files, job: Job, faults: Faults, reading: Reading): (Files, Probe, seq<View>) {
    var keep := WorthKeeping(f.artifact, job.shipped, reading);
    if keep && faults.keeping then (f, Refused("activate"), [])
    else
      var kept := if keep then f.(previous := f.artifact) else f;
      if faults.replacing then (kept, Refused("activate"), [])
      else
        var replaced := kept.(artifact := kept.staged, staged := None);
        if faults.config then (replaced, Refused("activate"), [Seen(replaced)])
        else
          var written := replaced.(config := Some(job.encoded));
          (written, faults.activeProbe, [Seen(replaced), Seen(written)])
  }

  /** Activation after a passed self-test of the staged copy. */
  function Switch(f: Files, job: Job, faults: Faults, reading: Reading): Run {
    var (after, verdict, views) := Switched(f, job, faults, reading);
    var cleaned := after.(staged := None);
    if verdict.Passed? then Run(cleaned, Activated(true), views)
    else
      var restored := cleaned.(artifact := f.artifact);
      var undone := restored.(config := job.original);
      Run(undone, NotActivated("post-activation:" + StepName("activate", verdict), true), views + [Seen(restored), Seen(undone)])
  }

  function Activate(f: Files, job: Job, faults: Faults, reading: Reading): Run {
    if job.current then Run(f, Activated(false), [])
    else if faults.folder then Run(f, Raised, [])
    else
      var staged := f.(staged := if faults.staging.Some? then faults.staging.value else Some(job.shipped));
      var verdict := if faults.staging.Some? then Unreadable else faults.stagedProbe;
      if !verdict.Passed? then Run(staged.(staged := None), NotActivated(StepName("stage", verdict), false), [])
      else if f.artifact.Some? && faults.reading then Run(staged, Raised, [])
      else if BackupFails(staged, job, faults) then Run(staged, Raised, [])
      else Switch(BackedUp(staged, job), job, faults, reading)
  }

  // ---------- the host's files, changed in place ----------

  class Host {
    var artifact: Option<bytes>
    var staged: Option<bytes>
    var config: Option<bytes>
    var previous: Option<bytes>
    var backups: map<bytes, bytes>
    /** Every view since the host was opened. */
    ghost var views: seq<View>

    constructor (f: Files)
      ensures Value() == f && views == []
    {
      artifact, staged, config, previous, backups := f.artifact, f.staged, f.config, f.previous, f.backups;
      views := [];
    }

    function Value(): Files
      reads this
    {
      Files(artifact, staged, config, previous, backups)
    }

    ghost predicate Follows(run: Run, outcome: Report, before: seq<View>)
      reads this
    {
      Value() == run.files && outcome == run.outcome && views == before + run.views
    }

    /** `_backup_config`, unless its write fails. */
    method BackupConfig(job: Job, faults: Faults) returns (ok: bool)
      modifies this`backups
      ensures ok == !BackupFails(old(Value()), job, faults)
      ensures Value() == if ok then BackedUp(old(Value()), job) else old(Value())
    {
      if job.original.None? || job.original.value == job.encoded {
        return true;
      }
      if job.original.value !in backups {
        if faults.backup {
          assert BackedUp(Value(), job).backups != backups;
          return false;
        }
        backups := backups[job.original.value := job.original.value];
      }
      return true;
    }

    /** The `try` block. */
    method SwitchOver(job: Job, faults: Faults, reading: Reading, prior: Option<bytes>) returns (verdict: Probe)
      requires prior == artifact
      modifies this
      ensures var (after, v, seen) := Switched(old(Value()), job, faults, reading);
              Value() == after && verdict == v && views == old(views) + seen
    {
      assert views + [] == views;
      if prior.Some? && reading.content(prior.value) != reading.content(job.shipped) && !reading.retired(prior.value) {
        if faults.keeping {
          return Refused("activate");
        }
        previous := prior;
      }
      if faults.replacing {
        return Refused("activate");
      }
      artifact, staged := staged, None;
      views := views + [Seen(Value())];
      if faults.config {
        return Refused("activate");
      }
      config := Some(job.encoded);
      views := views + [Seen(Value())];
      assert views == old(views) + [views[|views| - 2], views[|views| - 1]];
      return faults.activeProbe;
    }

    /** The `try` block and what follows it. */
    method SwitchOrRestore(job: Job, faults: Faults, reading: Reading, prior: Option<bytes>) returns (outcome: Report)
      requires prior == artifact
      modifies this
      ensures Follows(Switch(old(Value()), job, faults, reading), outcome, old(views))
    {
      var verdict := SwitchOver(job, faults, reading, prior);
      staged := None;
      if verdict.Passed? {
        return Activated(true);
      }
      ghost var switched := views;
      artifact := prior;
      views := views + [Seen(Value())];
      config := job.original;
      views := views + [Seen(Value())];
      assert views == switched + [views[|views| - 2], views[|views| - 1]];
      return NotActivated("post-activation:" + StepName("activate", verdict), true);
    }

    /** `_activate_verified`. */
    method ActivateVerified(job: Job, faults: Faults, reading: Reading) returns (outcome: Report)
      modifies this
      ensures Follows(Activate(old(Value()), job, faults, reading), outcome, old(views))
    {
      assert views + [] == views;
      if job.current {
        return Activated(false);
      }
      if faults.folder {
        return Raised;
      }
      var verdict;
      if faults.staging.Some? {
        staged := faults.staging.value;
        verdict := Unreadable;
      } else {
        staged := Some(job.shipped);
        verdict := faults.stagedProbe;
      }
      if !verdict.Passed? {
        staged := None;
        return NotActivated(StepName("stage", verdict), false);
      }
      if artifact.Some? && faults.reading {
        return Raised;
      }
      var prior := artifact;
      var saved := BackupConfig(job, faults);
      if !saved {
        return Raised;
      }
      outcome := SwitchOrRestore(job, faults, reading, prior);
    }

    /** `rollback`: the kept generation and the active one change places, the kept one having
        passed its self-test. A failed first write changes nothing; a failed second one leaves the
        restored generation both active and kept. */
    method Rollback(probe: Probe, first: bool, second: bool) returns (outcome: Report)
      modifies this
      ensures Follows(RolledBack(old(Value()), probe, first, second), outcome, old(views))
    {
      assert views + [] == views;
      if previous.None? {
        return NotActivated("no previous hook generation is kept", false);
      }
      if probe.Unreadable? {
        return Raised;
      }
      if !probe.Passed? {
        return NotActivated("the kept generation fails its self-test", false);
      }
      var current := artifact;
      if first {
        return Raised;
      }
      artifact := previous;
      views := views + [Seen(Value())];
      if current.Some? {
        if second {
          return Raised;
        }
        previous := current;
      }
      return Activated(true);
    }
  }

  function RolledBack(f: Files, probe: Probe, first: bool, second: bool): Run {
    if f.previous.None? then Run(f, NotActivated("no previous hook generation is kept", false), [])
    else if probe.Unreadable? then Run(f, Raised, [])
    else if !probe.Passed? then Run(f, NotActivated("the kept generation fails its self-test", false), [])
    else if first then Run(f, Raised, [])
    else
      var restored := f.(artifact := f.previous);
      if f.artifact.Some? && second then Run(restored, Raised, [Seen(restored)])
      else Run(if f.artifact.Some? then restored.(previous := f.artifact) else restored, Activated(true), [Seen(restored)])
  }

  // ---------- one activation under faults ----------

  /** Nothing fails before the guarded part: it starts. */
  predicate SwitchStarts(f: Files, job: Job, faults: Faults) {
    !job.current && !faults.folder && faults.staging.None? && faults.stagedProbe.Passed?
    && !(f.artifact.Some? && faults.reading) && !(faults.backup && NeedsBackup(f, job))
  }

  /** A configuration that will change, of which no backup is there. */
  predicate NeedsBackup(f: Files, job: Job) {
    job.original.Some? && job.original.value != job.encoded && job.original.value !in f.backups
  }

  /** The step at which the guarded part fails, if it does. */
  predicate FailsAt(f: Files, job: Job, faults: Faults, reading: Reading, step: string) {
    if faults.replacing || faults.config then step == "activate"
    else if faults.keeping && f.artifact.Some? && !reading.retired(f.artifact.value)
            && reading.content(f.artifact.value) != reading.content(job.shipped) then step == "activate"
    else if faults.activeProbe.Unreadable? then step == "activate"
    else faults.activeProbe == Refused(step)
  }

  /** Which report is given. */
  lemma OutcomeIff(f: Files, job: Job, faults: Faults, reading: Reading, step: string)
    ensures var outcome := Activate(f, job, faults, reading).outcome;
            && (outcome == Activated(false) <==> job.current)
            && (outcome == NotActivated(step, false) <==>
                  !job.current && !faults.folder
                  && if faults.staging.Some? || faults.stagedProbe.Unreadable? then step == "stage"
                     else faults.stagedProbe == Refused(step))
            && (outcome == NotActivated("post-activation:" + step, true) <==>
                  SwitchStarts(f, job, faults) && FailsAt(f, job, faults, reading, step))
            && (outcome == Raised <==>
                  !job.current && !SwitchStarts(f, job, faults)
                  && (faults.folder || (faults.staging.None? && faults.stagedProbe.Passed?)))
  {
    BackupFailsAlike(f, job, faults);
    BackupFailsIff(f, job, faults);
    AfterPrefix(step, "activate");
    AfterPrefix(step, StepName("activate", faults.activeProbe));
  }

  lemma AfterPrefix(s: string, t: string)
    ensures "post-activation:" + s == "post-activation:" + t <==> s == t
  {
    assert ("post-activation:" + s)[16..] == s && ("post-activation:" + t)[16..] == t;
  }

  lemma BackupFailsIff(f: Files, job: Job, faults: Faults)
    ensures BackupFails(f, job, faults) <==> faults.backup && NeedsBackup(f, job)
  {
    if NeedsBackup(f, job) {
      assert job.original.value in BackedUp(f, job).backups;
    }
  }

  /** Whatever fails: a refused activation leaves artifact and backups' old contents as they were,
      and the configuration too unless it changed since the installer read it. */
  lemma NotActivatedLeavesHost(f: Files, job: Job, faults: Faults, reading: Reading)
    ensures var run := Activate(f, job, faults, reading);
            !run.outcome.Activated? ==>
              run.files.artifact == f.artifact
              && (run.files.config == f.config <==> !SwitchStarts(f, job, faults) || f.config == job.original)
              && (run.outcome.NotActivated? ==> run.files.staged == None)
              && (run.views == [] || run.views[|run.views| - 1] == Seen(run.files))
              && forall k :: k in f.backups ==> k in run.files.backups && run.files.backups[k] == f.backups[k]
  {
    BackupFailsAlike(f, job, faults);
    BackupFailsIff(f, job, faults);
  }

  /** The kept generation is not put back: a rolled back activation has overwritten it exactly when
      it got past keeping a generation other than the one already kept. */
  lemma KeptGenerationLostIff(f: Files, job: Job, faults: Faults, reading: Reading)
    ensures var run := Activate(f, job, faults, reading);
            run.outcome.NotActivated? ==>
              (run.files.previous != f.previous <==>
                 SwitchStarts(f, job, faults) && !faults.keeping
                 && f.artifact.Some? && reading.content(f.artifact.value) != reading.content(job.shipped)
                 && !reading.retired(f.artifact.value) && f.previous != f.artifact)
              && run.files.previous in {f.previous, f.artifact}
  {
    BackupFailsAlike(f, job, faults);
    BackupFailsIff(f, job, faults);
  }

  /** The staged copy makes no difference to the backup. */
  lemma BackupFailsAlike(f: Files, job: Job, faults: Faults)
    ensures forall staged :: BackupFails(f.(staged := staged), job, faults) <==> BackupFails(f, job, faults)
  {
    forall staged ensures BackupFails(f.(staged := staged), job, faults) <==> BackupFails(f, job, faults) {
      assert BackedUp(f.(staged := staged), job).backups == BackedUp(f, job).backups;
    }
  }

  /** Every artifact the host reads meanwhile is the one before, or passed as staged. */
  lemma ViewsAreSafe(f: Files, job: Job, faults: Faults, reading: Reading, i: nat)
    requires i < |Activate(f, job, faults, reading).views|
    ensures var v := Activate(f, job, faults, reading).views[i];
            (v.artifact == f.artifact || (v.artifact == Some(job.shipped) && faults.staging.None? && faults.stagedProbe.Passed?))
            && v.config in {f.config, Some(job.encoded), job.original}
  {
  }

  /** Nothing the host reads changes before the staged copy has passed, and an activation that
      reports success has the new artifact beside the new configuration. */
  lemma ActivatedIff(f: Files, job: Job, faults: Faults, reading: Reading)
    requires !job.current
    ensures var run := Activate(f, job, faults, reading);
            (faults.staging.Some? || !faults.stagedProbe.Passed? ==> run.views == [] && Seen(run.files) == Seen(f))
            && (run.outcome.Activated? <==>
                  SwitchStarts(f, job, faults)
                  && !(faults.keeping && f.artifact.Some? && !reading.retired(f.artifact.value)
                       && reading.content(f.artifact.value) != reading.content(job.shipped))
                  && !faults.replacing && !faults.config && faults.activeProbe.Passed?)
            && (run.outcome.Activated? ==>
                  run.files.artifact == Some(job.shipped) && run.files.staged == None
                  && run.files.config == Some(job.encoded)
                  && run.views == [View(Some(job.shipped), f.config), View(Some(job.shipped), Some(job.encoded))])
  {
    var staged := f.(staged := Some(job.shipped));
    assert BackedUp(staged, job).backups == BackedUp(f, job).backups;
    BackupFailsAlike(f, job, faults);
    BackupFailsIff(f, job, faults);
  }

  /** What a successful activation keeps: the replaced artifact, if there was one that reads
      differently from the new one and is not retired, and otherwise the generation kept before;
      and beside the backups there were, one of the configuration it replaced. */
  lemma ActivationKeeps(f: Files, job: Job, faults: Faults, reading: Reading, k: bytes)
    requires Activate(f, job, faults, reading).outcome == Activated(true)
    ensures var after := Activate(f, job, faults, reading).files;
            && after.previous == (if f.artifact.Some? && reading.content(f.artifact.value) != reading.content(job.shipped)
                                     && !reading.retired(f.artifact.value)
                                  then f.artifact else f.previous)
            && (k in after.backups <==> k in f.backups || (job.original == Some(k) && k != job.encoded))
            && (k in after.backups ==> after.backups[k] == if k in f.backups then f.backups[k] else k)
  {
    var staged := f.(staged := Some(job.shipped));
    assert BackedUp(staged, job).backups == BackedUp(f, job).backups;
  }

  /** The rollback command undoes an activation exactly when the replaced artifact read differently
      and was not retired, or was the kept generation already; and it undoes itself. */
  lemma RollbackUndoesActivation(f: Files, job: Job, faults: Faults, reading: Reading)
    requires Activate(f, job, faults, reading).outcome == Activated(true) && f.artifact.Some?
    ensures var after := Activate(f, job, faults, reading).files;
            var back := RolledBack(after, Passed, false, false);
            (back.outcome == Activated(true) && back.files.artifact == f.artifact <==>
               (reading.content(f.artifact.value) != reading.content(job.shipped) && !reading.retired(f.artifact.value))
               || f.previous == f.artifact)
            && (back.outcome == Activated(true) ==> RolledBack(back.files, Passed, false, false).files == after)
  {
  }

  /** A rollback succeeds exactly if a generation is kept, passes, and both writes are made; active
      and kept generation have then changed places. A refusal changes nothing, and a second write
      that fails leaves the kept generation active and still kept. */
  lemma RolledBackIff(f: Files, probe: Probe, first: bool, second: bool)
    ensures var run := RolledBack(f, probe, first, second);
            && (run.outcome == Activated(true) <==>
                  f.previous.Some? && probe.Passed? && !first && !(f.artifact.Some? && second))
            && (run.outcome == Activated(true) ==>
                  run.files == f.(artifact := f.previous, previous := if f.artifact.Some? then f.artifact else f.previous))
            && (run.outcome != Activated(true) ==>
                  run.files == (if f.previous.Some? && probe.Passed? && !first then f.(artifact := f.previous) else f))
            && (run.views == if f.previous.Some? && probe.Passed? && !first then [View(f.previous, f.config)] else [])
            && (run.outcome == Raised <==>
                  f.previous.Some? && (probe.Unreadable? || (probe.Passed? && (first || (f.artifact.Some? && second)))))
            && (run.outcome == NotActivated("no previous hook generation is kept", false) <==> f.previous.None?)
            && (run.outcome == NotActivated("the kept generation fails its self-test", false) <==>
                  f.previous.Some? && probe.Refused?)
  {
    assert |"no previous hook generation is kept"| != |"the kept generation fails its self-test"|;
  }

  // ---------- any number of installs and rollbacks ----------

  datatype Command =
    | Install(job: Job, faults: Faults)
    | TakeBack(probe: Probe, first: bool, second: bool)

  function Perform(f: Files, c: Command, reading: Reading): Run {
    match c
    case Install(job, faults) => Activate(f, job, faults, reading)
    case TakeBack(probe, first, second) => RolledBack(f, probe, first, second)
  }

  lemma PerformIs(f: Files, job: Job, faults: Faults, probe: Probe, first: bool, second: bool, reading: Reading)
    ensures Perform(f, Install(job, faults), reading) == Activate(f, job, faults, reading)
    ensures Perform(f, TakeBack(probe, first, second), reading) == RolledBack(f, probe, first, second)
  {
  }

  function After(f: Files, commands: seq<Command>, reading: Reading): Files
    decreases |commands|
  {
    if commands == [] then f else After(Perform(f, commands[0], reading).files, commands[1..], reading)
  }

  function Views(f: Files, commands: seq<Command>, reading: Reading): seq<View>
    decreases |commands|
  {
    if commands == [] then []
    else Perform(f, commands[0], reading).views + Views(Perform(f, commands[0], reading).files, commands[1..], reading)
  }

  /** Command by command: each works on what the last one left, and its views come after theirs. */
  lemma {:induction false} OneMoreCommand(f: Files, commands: seq<Command>, c: Command, reading: Reading)
    ensures var last := Perform(After(f, commands, reading), c, reading);
            After(f, commands + [c], reading) == last.files
            && Views(f, commands + [c], reading) == Views(f, commands, reading) + last.views
    decreases |commands|
  {
    if commands == [] {
      assert commands + [c] == [c] && [c][1..] == [];
    } else {
      assert (commands + [c])[0] == commands[0] && (commands + [c])[1..] == commands[1..] + [c];
      OneMoreCommand(Perform(f, commands[0], reading).files, commands[1..], c, reading);
    }
  }

  /** The artifacts some command's staged self-test passed. */
  function Proven(commands: seq<Command>): set<bytes> {
    set i | 0 <= i < |commands| && commands[i].Install? && commands[i].faults.staging.None? && commands[i].faults.stagedProbe.Passed?
      :: commands[i].job.shipped
  }

  /** A generation that was there at the start, active or kept, or has passed a staged self-test. */
  predicate Trusted(artifact: Option<bytes>, first: Files, proven: set<bytes>) {
    artifact in {None, first.artifact, first.previous} || artifact.value in proven
  }

  lemma ProvenSplits(commands: seq<Command>)
    requires commands != []
    ensures Proven(commands) == Proven(commands[..1]) + Proven(commands[1..])
  {
    assert commands == commands[..1] + commands[1..];
    forall b | b in Proven(commands) ensures b in Proven(commands[..1]) + Proven(commands[1..]) {
      var i :| 0 <= i < |commands| && commands[i].Install? && commands[i].faults.staging.None?
               && commands[i].faults.stagedProbe.Passed? && commands[i].job.shipped == b;
      if i == 0 {
        assert commands[..1][0] == commands[0];
      } else {
        assert commands[1..][i - 1] == commands[i];
      }
    }
    forall i | 0 <= i < |commands[1..]| ensures commands[1..][i] == commands[i + 1] { }
  }

  lemma ActivateKeepsTrust(f: Files, job: Job, faults: Faults, reading: Reading, first: Files, proven: set<bytes>)
    requires Trusted(f.artifact, first, proven) && Trusted(f.previous, first, proven)
    requires faults.staging.None? && faults.stagedProbe.Passed? ==> job.shipped in proven
    ensures var run := Activate(f, job, faults, reading);
            Trusted(run.files.artifact, first, proven) && Trusted(run.files.previous, first, proven)
  {
  }

  /** One command, whatever fails in it, keeps what is active and what is kept trusted. */
  lemma PerformKeepsTrust(f: Files, c: Command, reading: Reading, first: Files, proven: set<bytes>)
    requires Trusted(f.artifact, first, proven) && Trusted(f.previous, first, proven)
    requires Proven([c]) <= proven
    ensures var run := Perform(f, c, reading);
            Trusted(run.files.artifact, first, proven) && Trusted(run.files.previous, first, proven)
            && forall i :: 0 <= i < |run.views| ==> Trusted(run.views[i].artifact, first, proven)
  {
    if c.Install? {
      if c.faults.staging.None? && c.faults.stagedProbe.Passed? {
        assert [c][0] == c;
        assert c.job.shipped in Proven([c]);
      }
      ActivateKeepsTrust(f, c.job, c.faults, reading, first, proven);
      forall i | 0 <= i < |Perform(f, c, reading).views| ensures Trusted(Perform(f, c, reading).views[i].artifact, first, proven) {
        ViewsAreSafe(f, c.job, c.faults, reading, i);
      }
    }
  }

  /** Over any run of installs and rollbacks with any faults, the host never reads an artifact that
      is neither one of the first two generations nor one that passed its staged self-test. */
  lemma {:induction false} EveryViewIsTrusted(f: Files, commands: seq<Command>, reading: Reading, first: Files, proven: set<bytes>)
    requires Trusted(f.artifact, first, proven) && Trusted(f.previous, first, proven) && Proven(commands) <= proven
    ensures Trusted(After(f, commands, reading).artifact, first, proven)
    ensures forall i :: 0 <= i < |Views(f, commands, reading)| ==> Trusted(Views(f, commands, reading)[i].artifact, first, proven)
    decreases |commands|
  {
    if commands != [] {
      ProvenSplits(commands);
      assert commands[..1] == [commands[0]];
      PerformKeepsTrust(f, commands[0], reading, first, proven);
      EveryViewIsTrusted(Perform(f, commands[0], reading).files, commands[1..], reading, first, proven);
    }
  }

  /** In particular: from any files, over any run. */
  lemma ViewsAreTrusted(f: Files, commands: seq<Command>, reading: Reading, i: nat)
    requires i < |Views(f, commands, reading)|
    ensures var seen := Views(f, commands, reading)[i].artifact;
            seen in {None, f.artifact, f.previous}
            || exists k :: 0 <= k < |commands| && commands[k].Install? && Some(commands[k].job.shipped) == seen
                           && commands[k].faults.staging.None? && commands[k].faults.stagedProbe.Passed?
  {
    EveryViewIsTrusted(f, commands, reading, f, Proven(commands));
  }

  /** Every install read the configuration it found. */
  predicate ReadsItsConfig(f: Files, commands: seq<Command>, reading: Reading)
    decreases |commands|
  {
    commands == []
    || ((commands[0].Install? ==> commands[0].job.original == f.config)
        && ReadsItsConfig(Perform(f, commands[0], reading).files, commands[1..], reading))
  }

  /** And once backed up, a configuration's bytes stay backed up. */
  predicate BackupsHold(f: Files) { forall k :: k in f.backups ==> f.backups[k] == k }

  lemma ActivateKeepsConfig(f: Files, job: Job, faults: Faults, reading: Reading)
    requires job.original == f.config
    ensures var run := Activate(f, job, faults, reading);
            run.files.config == (if run.outcome == Activated(true) then Some(job.encoded) else f.config)
            && (run.files.backups == f.backups || run.files.backups == BackedUp(f, job).backups)
            && (run.files.config != f.config ==> run.files.backups == BackedUp(f, job).backups)
  {
    var staged := f.(staged := Some(job.shipped));
    assert BackedUp(staged, job).backups == BackedUp(f, job).backups;
  }

  lemma PerformKeepsConfig(f: Files, c: Command, reading: Reading)
    requires c.Install? ==> c.job.original == f.config
    requires BackupsHold(f)
    ensures var run := Perform(f, c, reading);
            BackupsHold(run.files) && f.backups.Keys <= run.files.backups.Keys
            && run.files.config == (if c.Install? && run.outcome == Activated(true) then Some(c.job.encoded) else f.config)
            && (run.files.config != f.config && f.config.Some? ==> f.config.value in run.files.backups)
  {
    if c.Install? {
      ActivateKeepsConfig(f, c.job, c.faults, reading);
    }
  }

  /** Over any run, whatever configuration there ever was is still there or is backed up. */
  lemma {:induction false} ConfigurationsAreKept(f: Files, commands: seq<Command>, reading: Reading)
    requires BackupsHold(f) && ReadsItsConfig(f, commands, reading)
    ensures var last := After(f, commands, reading);
            BackupsHold(last) && f.backups.Keys <= last.backups.Keys
            && (f.config.Some? ==> last.config == f.config || f.config.value in last.backups)
    decreases |commands|
  {
    if commands != [] {
      PerformKeepsConfig(f, commands[0], reading);
      ConfigurationsAreKept(Perform(f, commands[0], reading).files, commands[1..], reading);
    }
  }
}
