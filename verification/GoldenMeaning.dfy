/** When the frozen oracle accepts a listing (tools/freshness_golden_v1.py). */
module GoldenMeaning {
  import opened Outcome
  import opened ByteStrings
  import opened Numerals
  import opened Framing
  import opened Dicts
  import opened GitDelta
  import opened GitListing
  import opened GitMeaning
  import opened GoldenDelta

  /** The oracle can read a listed path: it names its place as it stands, and a link or a file of a mode
      that was declared, or any mode if none was, is there. */
  predicate Readable(fs: FileSystem, path: bytes, declared: int) {
    && 0 !in path && Canonical(path) && path in fs
    && ((fs[path].Link? && declared in {0, 40960}) || (fs[path].File? && declared in {0, 33188, 33261}))
  }

  lemma CanonicalIsParts(path: bytes)
    ensures CanonicalParts(path) <==> Canonical(path)
  {
    DotTexts();
  }

  lemma GoldenReadIff(fs: FileSystem, path: bytes, declared: int)
    ensures GoldenRead(fs, path, if declared == 0 then None else Some(declared)).Ok? <==> Readable(fs, path, declared)
  {
    CanonicalIsParts(path);
    if Canonical(path) {
      CanonicalEnds(path);
    }
  }

  /** With the mode of a header, zero included. */
  lemma GoldenReadDeclared(fs: FileSystem, path: bytes, declared: int)
    ensures GoldenRead(fs, path, Some(declared)).Ok? <==> Readable(fs, path, declared)
  {
    CanonicalIsParts(path);
    if Canonical(path) {
      CanonicalEnds(path);
    }
  }

  ghost predicate OracleTakes(fs: FileSystem, c: Change) {
    && (forall e :: !Refused(c, e))
    && ([c.status] == Ascii("D") || c.newMode == 0 || Readable(fs, c.path, c.newMode))
  }

  function OracleStep(fs: FileSystem, c: Change): Result<Record, Error> {
    if c.status == 85 then Err(Unmerged(c.path))
    else if c.status !in [65, 68, 77, 84] then Err(UnsupportedStatus(c.path))
    else if c.status == 68 || c.newMode == 0 then Ok(Record([68], c.path, c.oldMode, []))
    else if c.newMode == 57344 then Err(ChangedSubmodule(c.path))
    else GoldenRead(fs, c.path, Some(c.newMode))
  }

  lemma OracleEntry(fs: FileSystem, c: Change)
    requires Printable(c)
    ensures GoldenEntry(fs, HeaderOf(c), c.path) == OracleStep(fs, c)
  {
    HeaderIsParsed(fs, c);
    StatusDecides(fs, c);
  }

  lemma HeaderIsParsed(fs: FileSystem, c: Change)
    requires Printable(c)
    ensures GoldenEntry(fs, HeaderOf(c), c.path) == GoldenStatus(fs, c.path, c.oldMode, c.newMode, [c.status])
  {
    HeaderIsField(c);
    var ws := HeaderWords(c);
    assert ws[4] == [c.status] && ws[4][..1] == [c.status];
  }

  lemma StatusDecides(fs: FileSystem, c: Change)
    ensures GoldenStatus(fs, c.path, c.oldMode, c.newMode, [c.status]) == OracleStep(fs, c)
  {
    GitListing.StatusLetters();
  }

  lemma OracleTakesIff(fs: FileSystem, c: Change)
    ensures OracleTakes(fs, c) <==> OracleStep(fs, c).Ok?
  {
    GitListing.StatusLetters();
    GoldenReadDeclared(fs, c.path, c.newMode);
    RefusedIff(c, Unmerged(c.path));
    RefusedIff(c, UnsupportedStatus(c.path));
    RefusedIff(c, ChangedSubmodule(c.path));
    if OracleStep(fs, c).Ok? {
      forall e ensures !Refused(c, e) {
        RefusedIff(c, e);
      }
    }
  }

  /** Whatever has been gathered before. */
  lemma TrackedStep(fs: FileSystem, c: Change, rest: seq<bytes>, g: Records)
    requires Printable(c)
    ensures var r := GoldenTracked(fs, [HeaderOf(c), c.path] + rest, g);
            if IsSaipen(c.path) then r == GoldenTracked(fs, rest, g)
            else if OracleStep(fs, c).Ok? then r == GoldenTracked(fs, rest, Put(g, c.path, OracleStep(fs, c).value))
            else r.Err?
  {
    HeaderIsField(c);
    assert ([HeaderOf(c), c.path] + rest)[2..] == rest;
    OracleEntry(fs, c);
  }

  lemma {:induction false} OracleTakesAll(fs: FileSystem, changes: seq<Change>, g: Records)
    requires forall c :: c in changes ==> Printable(c)
    ensures GoldenTracked(fs, FieldsOf(changes) + [[]], g).Ok?
       <==> forall c :: c in changes && !IsSaipen(c.path) ==> OracleTakes(fs, c)
  {
    if changes == [] {
      assert FieldsOf(changes) + [[]] == [[]];
    } else {
      var c, more := changes[0], changes[1..];
      assert c in changes && forall x :: x in changes <==> x == c || x in more;
      var rest := FieldsOf(more) + [[]];
      assert FieldsOf(changes) + [[]] == [HeaderOf(c), c.path] + rest;
      TrackedStep(fs, c, rest, g);
      OracleTakesIff(fs, c);
      if IsSaipen(c.path) {
        OracleTakesAll(fs, more, g);
      } else if OracleTakes(fs, c) {
        OracleTakesAll(fs, more, Put(g, c.path, OracleStep(fs, c).value));
      }
    }
  }

  lemma {:induction false} OracleReadsAll(fs: FileSystem, paths: seq<bytes>, g: Records)
    requires forall p :: p in paths ==> p != []
    ensures GoldenUntracked(fs, paths + [[]], g).Ok? <==> forall p :: p in paths && !IsSaipen(p) ==> Readable(fs, p, 0)
  {
    var all := paths + [[]];
    if paths == [] {
      assert all[0] == [] && all[1..] == [];
    } else {
      var p, more := paths[0], paths[1..];
      assert p in paths && forall x :: x in paths <==> x == p || x in more;
      assert all[0] == p && all[1..] == more + [[]];
      GoldenReadIff(fs, p, 0);
      if IsSaipen(p) {
        OracleReadsAll(fs, more, g);
      } else if Readable(fs, p, 0) {
        OracleReadsAll(fs, more, Put(g, p, GoldenRead(fs, p, None).value));
      }
    }
  }

  /** The oracle accepts a printed listing exactly if, outside `.saipen`, no change is refused and it
      can read every path that is not deleted, those that a later line overrides included. */
  lemma OracleAcceptsIff(fs: FileSystem, changes: seq<Change>, untracked: seq<bytes>)
    requires forall c :: c in changes ==> Printable(c)
    requires forall u :: u in untracked ==> u != [] && 0 !in u
    ensures GoldenRecords(fs, Terminated(FieldsOf(changes)), Terminated(untracked)).Ok?
       <==> (forall c :: c in changes && Split(c.path, 47)[0] != Ascii(".saipen") ==> OracleTakes(fs, c))
            && (forall u :: u in untracked && Split(u, 47)[0] != Ascii(".saipen") ==> Readable(fs, u, 0))
  {
    FieldsHaveNoNul(changes);
    SplitTerminated(FieldsOf(changes));
    SplitTerminated(untracked);
    forall p ensures IsSaipen(p) <==> Split(p, 47)[0] == Ascii(".saipen") {
      SaipenIsFirstComponent(p);
    }
    OracleTakesAll(fs, changes, []);
    if GoldenTracked(fs, FieldsOf(changes) + [[]], []).Ok? {
      OracleReadsAll(fs, untracked, GoldenTracked(fs, FieldsOf(changes) + [[]], []).value);
    }
  }
}
