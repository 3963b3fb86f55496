/** Listings and records in their own terms: words, headers, places, the kinds and modes of
    records, and what the projection without `.saipen` keeps (tools/freshness.py). */
module GitMeaning {
  import opened Outcome
  import opened ByteStrings
  import opened Numerals
  import opened Framing
  import opened Dicts
  import opened GitDelta
  import opened GitListing

  // ---------- words ----------

  lemma {:induction false} WordLengthCut(a: bytes, c: byte, b: bytes)
    requires c in [9, 10, 11, 12, 13, 32]
    ensures WordLength(a + ([c] + b)) == WordLength(a)
  {
    var s := a + ([c] + b);
    if a != [] && !IsSpace(a[0]) {
      assert s[1..] == a[1..] + ([c] + b);
      WordLengthCut(a[1..], c, b);
    } else if a != [] {
      assert s[0] == a[0];
    } else {
      assert s[0] == c;
    }
  }

  lemma {:induction false} WordLengthWhole(w: bytes)
    requires forall c :: c in w ==> c !in [9, 10, 11, 12, 13, 32]
    ensures WordLength(w) == |w|
  {
    if w != [] {
      assert w[0] in w;
      WordLengthWhole(w[1..]);
    }
  }

  /** `s.split()`: a white space character separates, and what has none is one word. */
  lemma {:induction false} WordsMeaning(a: bytes, c: byte, b: bytes)
    requires c in [9, 10, 11, 12, 13, 32]
    ensures Words(a + ([c] + b)) == Words(a) + Words(b)
    decreases |a|
  {
    var s := a + ([c] + b);
    if a == [] {
      assert s[0] == c && s[1..] == b;
      assert [] + Words(b) == Words(b);
    } else if IsSpace(a[0]) {
      assert s[1..] == a[1..] + ([c] + b);
      WordsMeaning(a[1..], c, b);
    } else {
      var n := WordLength(a);
      WordLengthCut(a, c, b);
      assert s[..n] == a[..n] && s[n..] == a[n..] + ([c] + b);
      WordsMeaning(a[n..], c, b);
      assert ([a[..n]] + Words(a[n..])) + Words(b) == [a[..n]] + (Words(a[n..]) + Words(b));
    }
  }

  lemma OneWord(w: bytes)
    requires forall c :: c in w ==> c !in [9, 10, 11, 12, 13, 32]
    ensures Words(w) == if w == [] then [] else [w]
  {
    WordLengthWhole(w);
    if w != [] {
      assert w[0] in w;
      assert w[..|w|] == w && w[|w|..] == [];
    }
  }

  // ---------- headers, printed by Git or not ----------

  ghost predicate FiveWords(header: bytes, oldMode: bytes, newMode: bytes, status: bytes) {
    exists oldBlob, newBlob :: Words(header) == [Ascii(":") + oldMode, newMode, oldBlob, newBlob, status]
  }

  lemma FiveWordsAre(header: bytes, o: bytes, n: bytes, status: bytes)
    ensures FiveWords(header, o, n, status) <==>
              var ws := Words(header); |ws| == 5 && [58] <= ws[0] && ws[0][1..] == o && ws[1] == n && ws[4] == status
  {
    assert Ascii(":") == [58];
    var ws := Words(header);
    if FiveWords(header, o, n, status) {
      var b, c :| ws == [Ascii(":") + o, n, b, c, status];
      assert (Ascii(":") + o)[1..] == o;
    }
    if |ws| == 5 && [58] <= ws[0] && ws[0][1..] == o && ws[1] == n && ws[4] == status {
      assert ws[0] == Ascii(":") + o;
      assert ws == [Ascii(":") + o, n, ws[2], ws[3], status];
    }
  }

  /** A header is unparseable unless it is five words and starts with a colon, and its modes are
      invalid unless both are octal numbers. */
  lemma HeaderErrors(header: bytes, path: bytes)
    ensures HeaderPlan(header, path) == Err(UnparseableHeader(header)) <==>
              forall o, n, s :: !FiveWords(header, o, n, s)
    ensures HeaderPlan(header, path) == Err(InvalidMode(header)) <==>
              exists o, n, s :: FiveWords(header, o, n, s) && (OctalValue(o).None? || OctalValue(n).None?)
  {
    forall o, n, s ensures FiveWords(header, o, n, s) <==>
        var ws := Words(header); |ws| == 5 && [58] <= ws[0] && ws[0][1..] == o && ws[1] == n && ws[4] == s
    {
      FiveWordsAre(header, o, n, s);
    }
    var ws := Words(header);
    if |ws| == 5 && [58] <= ws[0] {
      assert FiveWords(header, ws[0][1..], ws[1], ws[4]);
      HeaderModes(header, path);
    } else {
      assert HeaderPlan(header, path) == Err(UnparseableHeader(header));
    }
  }

  lemma HeaderModes(header: bytes, path: bytes)
    requires var ws := Words(header); |ws| == 5 && [58] <= ws[0]
    ensures HeaderPlan(header, path) != Err(UnparseableHeader(header))
    ensures var ws := Words(header);
            HeaderPlan(header, path) == Err(InvalidMode(header)) <==>
              OctalValue(ws[0][1..]).None? || OctalValue(ws[1]).None?
  {
  }

  // ---------- places ----------

  predicate Slashes(s: bytes) {
    forall c :: c in s ==> c == 47
  }

  lemma {:induction false} StrippedIsPrefix(path: bytes)
    ensures var t := StripSlashes(path);
            t <= path && Slashes(path[|t|..]) && (t == [] || t[|t| - 1] != 47)
  {
    var t, n := StripSlashes(path), |path| - 1;
    if path != [] && path[n] == 47 {
      StrippedIsPrefix(path[..n]);
      assert path[|t|..] == path[..n][|t|..] + [path[n]];
    } else {
      assert path[|t|..] == [];
    }
  }

  lemma {:induction false} StripsSlashes(place: bytes, slashes: bytes)
    requires place != [] && place[|place| - 1] != 47 && Slashes(slashes)
    ensures StripSlashes(place + slashes) == place
  {
    var n := |slashes| - 1;
    if slashes == [] {
      assert place + slashes == place;
    } else {
      assert slashes[n] in slashes && forall c :: c in slashes[..n] ==> c in slashes;
      assert (place + slashes)[..|place + slashes| - 1] == place + slashes[..n];
      StripsSlashes(place, slashes[..n]);
    }
  }

  predicate Canonical(place: bytes) {
    forall part :: part in Split(place, 47) ==> part !in [Ascii(""), Ascii("."), Ascii("..")]
  }

  lemma DotTexts()
    ensures Ascii("") == [] && Ascii(".") == [46] && Ascii("..") == [46, 46]
  {
  }

  lemma CanonicalEnds(place: bytes)
    requires Canonical(place)
    ensures place != [] && place[0] != 47 && place[|place| - 1] != 47 && CanonicalParts(place)
  {
    DotTexts();
    var parts := Split(place, 47);
    assert parts[0] in parts && parts[|parts| - 1] in parts;
    if place != [] && place[|place| - 1] == 47 {
      assert place == place[..|place| - 1] + [47];
      SplitEndsEmpty(place[..|place| - 1], 47);
    }
  }

  /** A listed path names a place exactly if it is that place, whose parts are not empty, `.` or
      `..`, and then slashes; a path that is empty, absolute or holds a NUL is invalid. */
  lemma LocateIff(raw: bytes, place: bytes)
    ensures Locate(raw) == Ok(place) <==>
              0 !in raw && Canonical(place) && place <= raw && Slashes(raw[|place|..])
    ensures Locate(raw) == Err(InvalidPath(raw)) <==> raw == [] || raw[0] == 47 || 0 in raw
    ensures Locate(raw).Ok? || Locate(raw).error in [InvalidPath(raw), NonCanonicalPath(raw)]
  {
    if Locate(raw) == Ok(place) {
      DotTexts();
      StrippedIsPrefix(raw);
    }
    if 0 !in raw && Canonical(place) && place <= raw && Slashes(raw[|place|..]) {
      CanonicalEnds(place);
      StripsSlashes(place, raw[|place|..]);
      assert raw == place + raw[|place|..];
    }
  }

  // ---------- records ----------

  /** The numbers the modes of records are, as the octal text Git prints. */
  lemma ModeTexts()
    ensures OctalValue(Ascii("100644")) == Some(33188) && OctalValue(Ascii("100755")) == Some(33261)
    ensures OctalValue(Ascii("120000")) == Some(40960) && OctalValue(Ascii("040000")) == Some(16384)
    ensures OctalValue(Ascii("160000")) == Some(57344)
  {
    ModeText("100644");
    ModeText("100755");
    ModeText("120000");
    ModeText("040000");
    ModeText("160000");
  }

  lemma ModeText(t: string)
    requires |t| == 6 && forall i :: 0 <= i < 6 ==> '0' <= t[i] <= '7'
    ensures OctalValue(Ascii(t)) == Some(32768 * (t[0] as int - 48) + 4096 * (t[1] as int - 48) + 512 * (t[2] as int - 48)
                                         + 64 * (t[3] as int - 48) + 8 * (t[4] as int - 48) + (t[5] as int - 48))
  {
    var b := Ascii(t);
    forall i | 0 <= i < 6 ensures b[i] == t[i] as int {
      AsciiText(t, i);
    }
    SixDigits(b);
  }

  lemma SixDigits(t: bytes)
    requires |t| == 6 && forall i :: 0 <= i < 6 ==> 48 <= t[i] < 56
    ensures OctalValue(t) == Some(32768 * (t[0] as int - 48) + 4096 * (t[1] as int - 48) + 512 * (t[2] as int - 48)
                                  + 64 * (t[3] as int - 48) + 8 * (t[4] as int - 48) + (t[5] as int - 48))
  {
    assert t[..5][..4] == t[..4] && t[..4][..3] == t[..3] && t[..3][..2] == t[..2] && t[..2][..1] == t[..1];
    assert t[..1][..0] == [];
    assert NumberOf(8, t[..1]) == t[0] as int - 48;
    assert NumberOf(8, t[..2]) == 8 * NumberOf(8, t[..1]) + (t[1] as int - 48);
    assert NumberOf(8, t[..3]) == 8 * NumberOf(8, t[..2]) + (t[2] as int - 48);
    assert NumberOf(8, t[..4]) == 8 * NumberOf(8, t[..3]) + (t[3] as int - 48);
    assert NumberOf(8, t[..5]) == 8 * NumberOf(8, t[..4]) + (t[4] as int - 48);
    OctalNumeral(t, NumberOf(8, t));
  }

  /** A file or link is recorded with its content under its letter and mode: a declared mode must be
      one of the kind, and stands for itself; without one a file's permission decides. A directory is
      recorded only where nothing is declared. */
  lemma NodeRecordIff(node: Node, raw: bytes, declared: int, r: Record)
    ensures NodeRecord(node, raw, declared) == Ok(r) <==>
              match node
              case Link(target) => declared in {0, 40960} && r == Record(Ascii("L"), raw, 40960, target)
              case File(executable, content) =>
                && declared in {0, 33188, 33261}
                && r == Record(Ascii("F"), raw,
                               if declared != 0 then declared else if executable then 33261 else 33188, content)
              case Directory => declared == 0 && r == Record(Ascii("D"), raw, 16384, [])
              case Special => false
              case Broken => false
    ensures NodeRecord(node, raw, declared) == Err(CannotRead(raw)) <==> node.Broken?
    ensures NodeRecord(node, raw, declared) == Err(UnsupportedType(raw)) <==> node.Special? || (node.Directory? && declared != 0)
    ensures NodeRecord(node, raw, declared) == Err(ModeDisagrees(raw)) <==>
              (node.Link? && declared !in {0, 40960}) || (node.File? && declared !in {0, 33188, 33261})
  {
    assert Ascii("L") == [76] && Ascii("F") == [70] && Ascii("D") == [68];
  }

  /** A deletion is recorded without a look; anything else as what stands at its place. */
  lemma PlanRecordIff(fs: FileSystem, path: bytes, plan: Plan, r: Record)
    ensures plan.deleted ==> PlanRecord(fs, Pair(path, plan)) == Ok(Record(Ascii("D"), path, plan.oldMode, []))
    ensures !plan.deleted ==>
              (PlanRecord(fs, Pair(path, plan)) == Ok(r) <==>
                 exists place :: Locate(path) == Ok(place) && place in fs && NodeRecord(fs[place], path, plan.newMode) == Ok(r))
  {
    assert Ascii("D") == [68];
  }

  // ---------- the projection ----------

  datatype Entry = Entry(header: bytes, path: bytes)

  predicate IsField(f: bytes) {
    f != [] && 0 !in f
  }

  function Laid(entries: seq<Entry>): seq<bytes> {
    if entries == [] then [] else [entries[0].header, entries[0].path] + Laid(entries[1..])
  }

  function Beyond(entries: seq<Entry>): seq<Entry> {
    if entries == [] then []
    else (if Split(entries[0].path, 47)[0] == Ascii(".saipen") then [] else [entries[0]]) + Beyond(entries[1..])
  }

  function PathsBeyond(paths: seq<bytes>): seq<bytes> {
    if paths == [] then []
    else (if Split(paths[0], 47)[0] == Ascii(".saipen") then [] else [paths[0]]) + PathsBeyond(paths[1..])
  }

  lemma LaidStep(e: Entry, rest: seq<Entry>, tail: seq<bytes>)
    ensures Laid([e] + rest) == [e.header, e.path] + Laid(rest)
    ensures Laid([e] + rest) + tail == [e.header, e.path] + (Laid(rest) + tail)
  {
    assert ([e] + rest)[1..] == rest;
  }

  lemma KeepEntry(e: Entry, rest: seq<bytes>)
    requires e.header != [] && e.path != []
    ensures KeepDelta([e.header, e.path] + rest)
         == Prepended(if Split(e.path, 47)[0] == Ascii(".saipen") then [] else [e.header, e.path], KeepDelta(rest))
  {
    var fields := [e.header, e.path] + rest;
    assert fields[2..] == rest;
    SaipenIsFirstComponent(e.path);
    PrependedNothing(KeepDelta(rest));
  }

  lemma BeyondStep(entries: seq<Entry>)
    requires entries != []
    ensures Laid(Beyond(entries))
         == (if Split(entries[0].path, 47)[0] == Ascii(".saipen") then [] else [entries[0].header, entries[0].path])
            + Laid(Beyond(entries[1..]))
  {
    var e, rest := entries[0], Beyond(entries[1..]);
    LaidStep(e, rest, []);
    assert [] + rest == rest && [] + Laid(rest) == Laid(rest);
  }

  predicate CutEntry(tail: seq<bytes>) {
    tail != [] && tail[0] != [] && (|tail| == 1 || tail[1] == [])
  }

  lemma {:induction false} KeepMeaning(entries: seq<Entry>, tail: seq<bytes>)
    requires forall e :: e in entries ==> e.header != [] && e.path != []
    ensures tail == [] || tail[0] == [] ==> KeepDelta(Laid(entries) + tail) == Ok(Laid(Beyond(entries)))
    ensures CutEntry(tail) ==> KeepDelta(Laid(entries) + tail) == Err(TruncatedDelta)
  {
    if entries == [] {
      assert Laid(entries) + tail == tail;
    } else {
      assert entries[0] in entries && forall e :: e in entries[1..] ==> e in entries;
      KeepMeaning(entries[1..], tail);
      assert entries == [entries[0]] + entries[1..];
      LaidStep(entries[0], entries[1..], tail);
      KeepEntry(entries[0], Laid(entries[1..]) + tail);
      BeyondStep(entries);
    }
  }

  lemma {:induction false} KeepPathsMeaning(paths: seq<bytes>)
    requires forall p :: p in paths ==> p != []
    ensures KeepPaths(paths + [[]]) == PathsBeyond(paths)
  {
    var all := paths + [[]];
    if paths == [] {
      assert all[0] == [] && all[1..] == [];
    } else {
      assert all[0] == paths[0] && all[1..] == paths[1..] + [[]];
      assert paths[0] in paths && forall p :: p in paths[1..] ==> p in paths;
      KeepPathsMeaning(paths[1..]);
      SaipenIsFirstComponent(paths[0]);
      assert [] + PathsBeyond(paths[1..]) == PathsBeyond(paths[1..]);
    }
  }

  lemma {:induction false} LaidAreFields(entries: seq<Entry>)
    requires forall e :: e in entries ==> IsField(e.header) && IsField(e.path)
    ensures forall f :: f in Laid(entries) ==> 0 !in f
  {
    if entries != [] {
      LaidAreFields(entries[1..]);
    }
  }

  /** Whatever its headers say, the projection keeps of a listing exactly the entries and the untracked paths whose
      first component is not `.saipen`, in order; a listing cut behind a header is refused. */
  lemma ProjectionMeaning(entries: seq<Entry>, untracked: seq<bytes>, header: bytes)
    requires forall e :: e in entries ==> IsField(e.header) && IsField(e.path)
    requires (forall u :: u in untracked ==> IsField(u)) && IsField(header)
    ensures Filtered(Terminated(Laid(entries)), Terminated(untracked))
         == Ok(Projection(Laid(Beyond(entries)), PathsBeyond(untracked)))
    ensures Filtered(Terminated(Laid(entries) + [header]), Terminated(untracked)) == Err(TruncatedDelta)
  {
    LaidAreFields(entries);
    SplitTerminated(Laid(entries));
    SplitTerminated(Laid(entries) + [header]);
    SplitTerminated(untracked);
    KeepMeaning(entries, [[]]);
    KeepMeaning(entries, [header, []]);
    assert (Laid(entries) + [header]) + [[]] == Laid(entries) + [header, []];
    KeepPathsMeaning(untracked);
  }
}
