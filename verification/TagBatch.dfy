/** The `cat-file --batch` response parser (tools/audit_tags.py `_parse_batch_versions`), with
    Python's index arithmetic. */
module TagBatch {
  import opened Outcome
  import opened ByteStrings
  import opened Numerals

  datatype ParseError =
    | NoHeader(tag: bytes)
    | MalformedHeader(header: bytes)
    | InvalidSize(size: bytes)
    | Truncated(tag: bytes)
    | Trailing(count: int)

  const NEWLINE: byte := 10
  const MISSING: bytes := Ascii("^{commit}:VERSION missing")

  // ---------- Python's indices ----------

  /** A negative index counts from the end; both ends are clamped. */
  function Clamp(i: int, length: nat): (n: nat)
    ensures n <= length
  {
    if i < 0 then (if length + i < 0 then 0 else length + i) else if i > length then length else i
  }

  function Slice(buf: bytes, i: int, j: int): bytes {
    var a, b := Clamp(i, |buf|), Clamp(j, |buf|);
    if a <= b then buf[a..b] else []
  }

  /** `buf.find(c, start)`. */
  function Find(buf: bytes, c: byte, start: int): int {
    if start > |buf| then -1 else FindFrom(buf, c, Clamp(start, |buf|))
  }

  function FindFrom(buf: bytes, c: byte, i: nat): int
    requires i <= |buf|
    decreases |buf| - i
  {
    if i == |buf| then -1 else if buf[i] == c then i else FindFrom(buf, c, i + 1)
  }

  /** `s.rsplit(" ", 2)` when it gives three parts. */
  function LastSpace(s: bytes): (r: Option<nat>)
    ensures r.Some? ==> r.value < |s| && s[r.value] == 32
  {
    if s == [] then None
    else if s[|s| - 1] == 32 then Some(|s| - 1)
    else LastSpace(s[..|s| - 1])
  }

  function SplitTwice(s: bytes): Option<(bytes, bytes, bytes)> {
    match LastSpace(s)
    case None => None
    case Some(k) =>
      match LastSpace(s[..k])
      case None => None
      case Some(j) => Some((s[..j], s[j + 1..k], s[k + 1..]))
  }

  predicate IsHex(c: byte) {
    48 <= c <= 57 || 97 <= c <= 102 || 65 <= c <= 70
  }

  predicate IsObjectId(s: bytes) {
    |s| in [40, 64] && forall i :: 0 <= i < |s| ==> IsHex(s[i])
  }

  // ---------- one response ----------

  /** What a header announces: no object, or a blob of some size. */
  function HeaderSize(tag: bytes, header: bytes): Result<Option<int>, ParseError> {
    if header == tag + MISSING then Ok(None)
    else match SplitTwice(header)
      case None => Err(MalformedHeader(header))
      case Some(p) =>
        if p.1 != Ascii("blob") || !IsObjectId(p.0) then Err(MalformedHeader(header))
        else match DecimalValue(p.2)
          case None => Err(InvalidSize(p.2))
          case Some(size) => Ok(Some(size))
  }

  /** How a header line is understood; the parsing loop is stated for any such reading. */
  type Reading = (bytes, bytes) -> Result<Option<int>, ParseError>

  /** One turn of the loop: the version at `pos` and the position after it. */
  function Step(read: Reading, tag: bytes, buf: bytes, pos: int): Result<(Option<bytes>, int), ParseError> {
    var nl := Find(buf, NEWLINE, pos);
    if nl < 0 then Err(NoHeader(tag))
    else match read(tag, Slice(buf, pos, nl))
      case Err(e) => Err(e)
      case Ok(None) => Ok((None, nl + 1))
      case Ok(Some(size)) =>
        var end := nl + 1 + size;
        if end >= |buf| || Slice(buf, end, end + 1) != [NEWLINE] then Err(Truncated(tag))
        else Ok((Some(Slice(buf, nl + 1, end)), end + 1))
  }

  type Versions = map<bytes, Option<bytes>>

  /** The versions found, and the complaint if there is one. */
  function ParseFrom(read: Reading, tags: seq<bytes>, buf: bytes, pos: int, versions: Versions): (Versions, Option<ParseError>) {
    if tags == [] then (versions, if pos != |buf| then Some(Trailing(|buf| - pos)) else None)
    else match Step(read, tags[0], buf, pos)
      case Err(e) => (versions, Some(e))
      case Ok(v) => ParseFrom(read, tags[1..], buf, v.1, versions[tags[0] := v.0])
  }

  /** `_parse_batch_versions`, before the text decoding of each version. */
  method ParseBatchVersions(tags: seq<bytes>, buf: bytes) returns (versions: Versions, error: Option<ParseError>)
    ensures (versions, error) == ParseFrom(HeaderSize, tags, buf, 0, map[])
  {
    versions, error := map[], None;
    var pos := 0;
    var k := 0;
    while k < |tags|
      invariant 0 <= k <= |tags|
      invariant ParseFrom(HeaderSize, tags[k..], buf, pos, versions) == ParseFrom(HeaderSize, tags, buf, 0, map[])
    {
      var tag := tags[k];
      assert tags[k..][0] == tag && tags[k..][1..] == tags[k + 1..];
      var nl := Find(buf, NEWLINE, pos);
      if nl < 0 {
        error := Some(NoHeader(tag));
        return;
      }
      var header := Slice(buf, pos, nl);
      var size := HeaderSize(tag, header);
      if size.Err? {
        error := Some(size.error);
        return;
      }
      pos := nl + 1;
      if size.value.None? {
        versions := versions[tag := None];
      } else {
        var end := pos + size.value.value;
        if end >= |buf| || Slice(buf, end, end + 1) != [NEWLINE] {
          error := Some(Truncated(tag));
          return;
        }
        versions := versions[tag := Some(Slice(buf, pos, end))];
        pos := end + 1;
      }
      k := k + 1;
    }
    assert tags[k..] == [];
    if pos != |buf| {
      error := Some(Trailing(|buf| - pos));
    }
  }

  // ---------- responses as they are written ----------

  /** A response: its header line, and the contents of the blob it announces. */
  datatype Response = Response(header: bytes, body: Option<bytes>)

  predicate WellFormed(read: Reading, tag: bytes, r: Response) {
    NEWLINE !in r.header
    && match r.body
       case None => read(tag, r.header) == Ok(None)
       case Some(content) => read(tag, r.header) == Ok(Some(|content|))
  }

  function ResponseText(r: Response): bytes {
    r.header + [NEWLINE] + if r.body.Some? then r.body.value + [NEWLINE] else []
  }

  predicate AllWellFormed(read: Reading, tags: seq<bytes>, rs: seq<Response>) {
    if tags == [] then rs == []
    else rs != [] && WellFormed(read, tags[0], rs[0]) && AllWellFormed(read, tags[1..], rs[1..])
  }

  function Text(rs: seq<Response>): bytes {
    if rs == [] then [] else ResponseText(rs[0]) + Text(rs[1..])
  }

  function Recorded(tags: seq<bytes>, rs: seq<Response>, versions: Versions): Versions {
    if tags == [] || rs == [] then versions else Recorded(tags[1..], rs[1..], versions[tags[0] := rs[0].body])
  }

  lemma {:induction false} FindInTail(buf: bytes, pos: nat, header: bytes, i: nat)
    requires pos + |header| < |buf| && buf[pos..pos + |header|] == header && buf[pos + |header|] == NEWLINE
    requires NEWLINE !in header && pos <= i <= pos + |header|
    ensures FindFrom(buf, NEWLINE, i) == pos + |header|
    decreases |buf| - i
  {
    if i < pos + |header| {
      assert buf[i] == header[i - pos];
      FindInTail(buf, pos, header, i + 1);
    }
  }

  lemma {:induction false} FindNothing(buf: bytes, i: nat)
    requires i <= |buf| && forall k :: i <= k < |buf| ==> buf[k] != NEWLINE
    ensures FindFrom(buf, NEWLINE, i) == -1
    decreases |buf| - i
  {
    if i < |buf| {
      FindNothing(buf, i + 1);
    }
  }

  /** A complete header line is found where it stands. */
  lemma HeaderLine(buf: bytes, pos: nat, header: bytes)
    requires pos <= |buf| && header + [NEWLINE] <= buf[pos..] && NEWLINE !in header
    ensures Find(buf, NEWLINE, pos) == pos + |header| && Slice(buf, pos, pos + |header|) == header
    ensures pos + |header| < |buf|
  {
    var tail := buf[pos..];
    assert tail[|header|] == (header + [NEWLINE])[|header|] == NEWLINE;
    assert buf[pos..pos + |header|] == tail[..|header|] == (header + [NEWLINE])[..|header|] == header;
    FindInTail(buf, pos, header, pos);
  }

  /** A text standing in the buffer is what slicing there gives. */
  lemma TextAt(buf: bytes, pos: nat, before: bytes, text: bytes)
    requires pos <= |buf| && before + text <= buf[pos..]
    ensures pos + |before| + |text| <= |buf|
    ensures Slice(buf, pos + |before|, pos + |before| + |text|) == text
  {
    var tail := buf[pos..];
    assert tail[..|before| + |text|] == before + text;
    assert buf[pos + |before|..pos + |before| + |text|] == tail[|before|..|before| + |text|]
        == (before + text)[|before|..] == text;
  }

  /** A whole response is read, newlines inside its contents included. */
  lemma StepReads(read: Reading, tag: bytes, r: Response, buf: bytes, pos: nat)
    requires WellFormed(read, tag, r) && pos <= |buf| && ResponseText(r) <= buf[pos..]
    ensures Step(read, tag, buf, pos) == Ok((r.body, pos + |ResponseText(r)|))
  {
    var line := r.header + [NEWLINE];
    assert line <= ResponseText(r);
    HeaderLine(buf, pos, r.header);
    if r.body.Some? {
      var content := r.body.value;
      assert ResponseText(r) == (line + content) + [NEWLINE];
      TextAt(buf, pos, line + content, [NEWLINE]);
      assert line + content <= ResponseText(r);
      TextAt(buf, pos, line, content);
    }
  }

  /** A cut response is refused. */
  lemma StepRefuses(read: Reading, tag: bytes, r: Response, buf: bytes, pos: nat)
    requires WellFormed(read, tag, r) && pos <= |buf|
    requires buf[pos..] <= ResponseText(r) && buf[pos..] != ResponseText(r)
    ensures Step(read, tag, buf, pos).Err?
  {
    var tail, text := buf[pos..], ResponseText(r);
    if |tail| <= |r.header| {
      NoNewline(buf, pos, r.header, text);
    } else {
      assert r.header + [NEWLINE] == text[..|r.header| + 1] == tail[..|r.header| + 1];
      HeaderLine(buf, pos, r.header);
    }
  }

  lemma NoNewline(buf: bytes, pos: nat, header: bytes, text: bytes)
    requires pos <= |buf| && |buf| - pos <= |header| && header <= text && buf[pos..] <= text && NEWLINE !in header
    ensures Find(buf, NEWLINE, pos) == -1
  {
    var tail := buf[pos..];
    forall k | pos <= k < |buf| ensures buf[k] != NEWLINE {
      assert buf[k] == tail[k - pos] == text[k - pos] == header[k - pos];
    }
    FindNothing(buf, pos);
  }

  // ---------- exactly the responses ----------

  lemma Advance(text: bytes, more: bytes, buf: bytes, pos: nat)
    requires pos <= |buf| && text <= buf[pos..]
    ensures pos + |text| <= |buf|
    ensures text + more <= buf[pos..] <==> more <= buf[pos + |text|..]
    ensures buf[pos..] <= text + more <==> buf[pos + |text|..] <= more
    ensures buf[pos..] == text + more <==> buf[pos + |text|..] == more
  {
    var tail := buf[pos..];
    assert tail[..|text|] == text;
    assert tail == text + tail[|text|..];
    assert tail[|text|..] == buf[pos + |text|..];
    if tail <= text + more {
      assert tail[|text|..] == (text + more)[..|tail|][|text|..] == more[..|tail| - |text|];
    }
    if text + more <= tail {
      assert tail[|text|..][..|more|] == tail[..|text| + |more|][|text|..] == more;
    }
  }

  lemma ReadsThenRest(read: Reading, tag: bytes, r: Response, more: bytes, buf: bytes, pos: nat)
    requires WellFormed(read, tag, r) && pos <= |buf| && buf[pos..] == ResponseText(r) + more
    ensures var next := pos + |ResponseText(r)|;
            Step(read, tag, buf, pos) == Ok((r.body, next)) && next <= |buf| && buf[next..] == more
  {
    var text := ResponseText(r);
    assert text <= text + more;
    StepReads(read, tag, r, buf, pos);
    Advance(text, more, buf, pos);
  }

  /** Responses for all the tags, and nothing after them, are accepted with their contents. */
  lemma {:induction false} ParseReads(read: Reading, tags: seq<bytes>, rs: seq<Response>, rest: bytes, buf: bytes,
                                      pos: nat, versions: Versions)
    requires AllWellFormed(read, tags, rs) && pos <= |buf| && buf[pos..] == Text(rs) + rest
    ensures ParseFrom(read, tags, buf, pos, versions)
         == (Recorded(tags, rs, versions), if rest == [] then None else Some(Trailing(|rest|)))
  {
    if tags != [] {
      Associative(ResponseText(rs[0]), Text(rs[1..]), rest);
      ReadsThenRest(read, tags[0], rs[0], Text(rs[1..]) + rest, buf, pos);
      ParseReads(read, tags[1..], rs[1..], rest, buf, pos + |ResponseText(rs[0])|, versions[tags[0] := rs[0].body]);
    }
  }

  /** A strict prefix of a response and more is a cut response, or the response and a strict
      prefix of more. */
  lemma RefusesOrReads(read: Reading, tag: bytes, r: Response, more: bytes, buf: bytes, pos: nat)
    requires WellFormed(read, tag, r) && pos <= |buf|
    requires buf[pos..] <= ResponseText(r) + more && buf[pos..] != ResponseText(r) + more
    ensures var next := pos + |ResponseText(r)|;
            Step(read, tag, buf, pos).Err?
            || (Step(read, tag, buf, pos) == Ok((r.body, next)) && next <= |buf|
                && buf[next..] <= more && buf[next..] != more)
  {
    var text, tail := ResponseText(r), buf[pos..];
    assert text <= text + more;
    PrefixesCompare(tail, text, text + more);
    if text <= tail {
      StepReads(read, tag, r, buf, pos);
      Advance(text, more, buf, pos);
    } else {
      StepRefuses(read, tag, r, buf, pos);
    }
  }

  /** Every strict prefix of the responses is refused. */
  lemma {:induction false} ParseRefusesPrefix(read: Reading, tags: seq<bytes>, rs: seq<Response>, buf: bytes, pos: nat, versions: Versions)
    requires AllWellFormed(read, tags, rs) && pos <= |buf|
    requires buf[pos..] <= Text(rs) && buf[pos..] != Text(rs)
    ensures ParseFrom(read, tags, buf, pos, versions).1.Some?
  {
    if tags != [] {
      RefusesOrReads(read, tags[0], rs[0], Text(rs[1..]), buf, pos);
      if Step(read, tags[0], buf, pos).Ok? {
        ParseRefusesPrefix(read, tags[1..], rs[1..], buf, pos + |ResponseText(rs[0])|, versions[tags[0] := rs[0].body]);
      }
    }
  }

  lemma PrefixesCompare(a: bytes, b: bytes, c: bytes)
    requires a <= c && b <= c
    ensures a <= b || b <= a
  {
    if |a| <= |b| {
      assert a == c[..|a|] == b[..|a|];
    } else {
      assert b == c[..|b|] == a[..|b|];
    }
  }

  predicate HeaderNonNegative(read: Reading, tag: bytes, buf: bytes, pos: int) {
    var nl := Find(buf, NEWLINE, pos);
    var size := read(tag, Slice(buf, pos, nl));
    nl >= 0 && size.Ok? && size.value.Some? ==> size.value.value >= 0
  }

  /** No header met along the parse announces a negative size. */
  predicate SizesNonNegative(read: Reading, tags: seq<bytes>, buf: bytes, pos: int) {
    tags == []
    || (HeaderNonNegative(read, tags[0], buf, pos)
        && match Step(read, tags[0], buf, pos)
           case Err(_) => true
           case Ok(v) => SizesNonNegative(read, tags[1..], buf, v.1))
  }

  lemma {:induction false} FindFromFinds(buf: bytes, c: byte, i: nat)
    requires i <= |buf|
    ensures var k := FindFrom(buf, c, i); k >= 0 ==> i <= k < |buf| && buf[k] == c && c !in buf[i..k]
    decreases |buf| - i
  {
    if i < |buf| && buf[i] != c {
      FindFromFinds(buf, c, i + 1);
      var k := FindFrom(buf, c, i + 1);
      if k >= 0 {
        assert buf[i..k] == [buf[i]] + buf[i + 1..k];
      }
    }
  }

  /** The response that an accepting step has read. */
  function StepResponse(read: Reading, tag: bytes, buf: bytes, pos: nat): Response
    requires Step(read, tag, buf, pos).Ok?
  {
    Response(Slice(buf, pos, Find(buf, NEWLINE, pos)), Step(read, tag, buf, pos).value.0)
  }

  lemma AcceptedSlices(read: Reading, tag: bytes, buf: bytes, pos: nat)
    requires pos <= |buf| && Step(read, tag, buf, pos).Ok? && HeaderNonNegative(read, tag, buf, pos)
    ensures var r, nl, after := StepResponse(read, tag, buf, pos), Find(buf, NEWLINE, pos), Step(read, tag, buf, pos).value.1;
            WellFormed(read, tag, r) && pos <= nl < after <= |buf| && buf[nl] == NEWLINE && r.header == buf[pos..nl]
            && if r.body.None? then after == nl + 1
               else r.body.value == buf[nl + 1..after - 1] && buf[after - 1] == NEWLINE && nl + 1 < after
  {
    FindFromFinds(buf, NEWLINE, pos);
    if StepResponse(read, tag, buf, pos).body.Some? {
      var end := Step(read, tag, buf, pos).value.1 - 1;
      assert buf[end..end + 1] == [NEWLINE];
      assert buf[end] == buf[end..end + 1][0];
    }
  }

  lemma Joined(buf: bytes, i: nat, j: nat)
    requires i <= j <= |buf|
    ensures buf[i..] == buf[i..j] + buf[j..]
  {
  }

  lemma Pieces(buf: bytes, i: nat, j: nat, k: nat)
    requires i <= j < |buf| && j + 1 < k <= |buf|
    ensures buf[i..j] + [buf[j]] + (buf[j + 1..k - 1] + [buf[k - 1]]) == buf[i..k]
  {
  }

  /** A step that accepts a non-negative size has read one well-formed response. */
  lemma StepIsResponse(read: Reading, tag: bytes, buf: bytes, pos: nat)
    requires pos <= |buf| && Step(read, tag, buf, pos).Ok? && HeaderNonNegative(read, tag, buf, pos)
    ensures var r, after := StepResponse(read, tag, buf, pos), Step(read, tag, buf, pos).value.1;
            WellFormed(read, tag, r) && pos <= after <= |buf| && ResponseText(r) == buf[pos..after]
  {
    AcceptedSlices(read, tag, buf, pos);
    var r, nl, after := StepResponse(read, tag, buf, pos), Find(buf, NEWLINE, pos), Step(read, tag, buf, pos).value.1;
    if r.body.Some? {
      Pieces(buf, pos, nl, after);
    } else {
      assert buf[pos..nl] + [buf[nl]] + [] == buf[pos..after];
    }
  }

  /** Everything accepted without a negative size is a list of well-formed responses, one for
      each tag and nothing else, and the versions are theirs. */
  lemma {:induction false} AcceptedIsResponses(read: Reading, tags: seq<bytes>, buf: bytes, pos: nat, versions: Versions)
    returns (rs: seq<Response>)
    requires pos <= |buf| && ParseFrom(read, tags, buf, pos, versions).1.None? && SizesNonNegative(read, tags, buf, pos)
    ensures AllWellFormed(read, tags, rs) && buf[pos..] == Text(rs)
    ensures ParseFrom(read, tags, buf, pos, versions).0 == Recorded(tags, rs, versions)
  {
    if tags == [] {
      rs := [];
    } else {
      StepIsResponse(read, tags[0], buf, pos);
      var r, after := StepResponse(read, tags[0], buf, pos), Step(read, tags[0], buf, pos).value.1;
      var rest := AcceptedIsResponses(read, tags[1..], buf, after, versions[tags[0] := r.body]);
      rs := [r] + rest;
      assert rs[1..] == rest;
      Joined(buf, pos, after);
    }
  }

  lemma HeaderOfResponse(read: Reading, tag: bytes, r: Response, more: bytes, buf: bytes, pos: nat)
    requires WellFormed(read, tag, r) && pos <= |buf| && buf[pos..] == ResponseText(r) + more
    ensures HeaderNonNegative(read, tag, buf, pos)
  {
    var line := r.header + [NEWLINE];
    assert line <= ResponseText(r) <= buf[pos..];
    HeaderLine(buf, pos, r.header);
  }

  /** Responses announce no negative size. */
  lemma {:induction false} ResponsesHaveSizes(read: Reading, tags: seq<bytes>, rs: seq<Response>, buf: bytes, pos: nat)
    requires AllWellFormed(read, tags, rs) && pos <= |buf| && buf[pos..] == Text(rs)
    ensures SizesNonNegative(read, tags, buf, pos)
  {
    if tags != [] {
      HeaderOfResponse(read, tags[0], rs[0], Text(rs[1..]), buf, pos);
      ReadsThenRest(read, tags[0], rs[0], Text(rs[1..]), buf, pos);
      ResponsesHaveSizes(read, tags[1..], rs[1..], buf, pos + |ResponseText(rs[0])|);
    }
  }

  /** A buffer is a sequence of responses to the tags exactly when the parser accepts it and met
      no negative size on the way. */
  lemma AcceptsExactlyResponses(read: Reading, tags: seq<bytes>, buf: bytes)
    ensures (exists rs :: AllWellFormed(read, tags, rs) && buf == Text(rs))
       <==> ParseFrom(read, tags, buf, 0, map[]).1.None? && SizesNonNegative(read, tags, buf, 0)
  {
    assert buf[0..] == buf;
    if ParseFrom(read, tags, buf, 0, map[]).1.None? && SizesNonNegative(read, tags, buf, 0) {
      var rs := AcceptedIsResponses(read, tags, buf, 0, map[]);
      assert AllWellFormed(read, tags, rs) && buf == Text(rs);
    }
    if rs :| AllWellFormed(read, tags, rs) && buf == Text(rs) {
      assert buf[0..] == Text(rs) + [];
      ParseReads(read, tags, rs, [], buf, 0, map[]);
      ResponsesHaveSizes(read, tags, rs, buf, 0);
    }
  }

  // ---------- what Git writes ----------

  lemma {:induction false} LastSpaceAt(a: bytes, b: bytes)
    requires 32 !in b
    ensures LastSpace(a + [32] + b) == Some(|a|)
  {
    if b == [] {
      assert a + [32] + b == a + [32];
    } else {
      var s := a + [32] + b;
      assert s[..|s| - 1] == a + [32] + b[..|b| - 1];
      assert s[|s| - 1] == b[|b| - 1] && b[|b| - 1] in b;
      LastSpaceAt(a, b[..|b| - 1]);
    }
  }

  const BLOB: bytes := [98, 108, 111, 98]

  function BlobHeader(oid: bytes, size: bytes): bytes {
    oid + [32] + BLOB + [32] + size
  }

  lemma BlobHeaderSize(tag: bytes, oid: bytes, size: bytes)
    requires IsObjectId(oid) && size != [] && 32 !in size && DecimalValue(size).Some?
    ensures HeaderSize(tag, BlobHeader(oid, size)) == Ok(DecimalValue(size))
  {
    var h := BlobHeader(oid, size);
    LastSpaceAt(oid + [32] + BLOB, size);
    assert h[..|oid| + 5] == oid + [32] + BLOB;
    LastSpaceAt(oid, BLOB);
    assert h[..|oid|] == oid && h[|oid| + 1..|oid| + 5] == BLOB && h[|oid| + 6..] == size;
    assert Ascii("blob") == BLOB;
    SizeIsNotMissing(tag, h, size);
  }

  /** A size ends in a digit, the missing line in a letter. */
  lemma SizeIsNotMissing(tag: bytes, h: bytes, size: bytes)
    requires size != [] && |size| <= |h| && h[|h| - |size|..] == size && DecimalValue(size).Some?
    ensures h != tag + MISSING
  {
    var text := "^{commit}:VERSION missing";
    assert |MISSING| == |text| == 25;
    assert MISSING[24] == (text[24] as int) % 256 == 103;
    if size[|size| - 1] == 103 {
      EndsInLetter(size);
    }
    assert h[|h| - 1] == size[|size| - 1];
  }

  lemma EndsInLetter(s: bytes)
    requires s != [] && s[|s| - 1] == 103
    ensures DecimalValue(s).None?
  {
    DropKeepsEnd(s);
    var t := TrimSpaces(DropSpaces(s));
    assert t == DropSpaces(s);
    DigitsRefuseEnd(Unsigned(t), 0, false);
  }

  lemma {:induction false} DropKeepsEnd(s: bytes)
    requires s != [] && s[|s| - 1] == 103
    ensures var t := DropSpaces(s); t != [] && t[|t| - 1] == 103
  {
    if IsSpace(s[0]) || 28 <= s[0] <= 31 {
      DropKeepsEnd(s[1..]);
    }
  }

  lemma {:induction false} DigitsRefuseEnd(s: bytes, acc: nat, after: bool)
    requires s != [] && s[|s| - 1] == 103
    ensures Digits(10, s, acc, after).None?
    decreases |s|
  {
    if 48 <= s[0] <= 57 {
      DigitsRefuseEnd(s[1..], acc * 10 + (s[0] - 48), true);
    } else if s[0] == 95 {
      DigitsRefuseEnd(s[1..], acc, false);
    }
  }

  /** One VERSION as Git answers for it: no such object, or an object id and contents. */
  datatype Answer = NoObject | Blob(oid: bytes, content: bytes)

  function ResponseOf(tag: bytes, a: Answer): Response {
    match a
    case NoObject => Response(tag + MISSING, None)
    case Blob(oid, content) => Response(BlobHeader(oid, DecimalText(|content|)), Some(content))
  }

  function ResponsesOf(tags: seq<bytes>, answers: seq<Answer>): seq<Response> {
    if tags == [] || answers == [] then []
    else [ResponseOf(tags[0], answers[0])] + ResponsesOf(tags[1..], answers[1..])
  }

  predicate Answerable(tag: bytes, a: Answer) {
    NEWLINE !in tag && (a.Blob? ==> IsObjectId(a.oid))
  }

  lemma {:induction false} AllAreWellFormed(tags: seq<bytes>, answers: seq<Answer>)
    requires |tags| == |answers| && forall i :: 0 <= i < |tags| ==> Answerable(tags[i], answers[i])
    ensures AllWellFormed(HeaderSize, tags, ResponsesOf(tags, answers))
  {
    if tags != [] {
      assert Answerable(tags[0], answers[0]);
      GitIsWellFormed(tags[0], answers[0]);
      forall i | 0 <= i < |tags[1..]| ensures Answerable(tags[1..][i], answers[1..][i]) {
        assert Answerable(tags[i + 1], answers[i + 1]);
      }
      AllAreWellFormed(tags[1..], answers[1..]);
      assert ResponsesOf(tags, answers)[1..] == ResponsesOf(tags[1..], answers[1..]);
    }
  }

  lemma MissingIsOneLine()
    ensures NEWLINE !in MISSING
  {
    var text := "^{commit}:VERSION missing";
    forall i | 0 <= i < |MISSING| ensures MISSING[i] != NEWLINE {
      assert MISSING[i] == (text[i] as int) % 256;
    }
  }

  lemma BlobHeaderIsOneLine(oid: bytes, size: bytes)
    requires IsObjectId(oid) && forall i :: 0 <= i < |size| ==> 48 <= size[i] <= 57
    ensures NEWLINE !in BlobHeader(oid, size)
  {
    var h := BlobHeader(oid, size);
    forall i | 0 <= i < |h| ensures h[i] != NEWLINE {
      if i < |oid| {
        assert h[i] == oid[i];
      } else if i < |oid| + 6 {
        assert h[i] == ([32] + BLOB + [32])[i - |oid|];
      } else {
        assert h[i] == size[i - |oid| - 6];
      }
    }
  }

  lemma GitIsWellFormed(tag: bytes, a: Answer)
    requires Answerable(tag, a)
    ensures WellFormed(HeaderSize, tag, ResponseOf(tag, a))
  {
    if a.Blob? {
      var size := DecimalText(|a.content|);
      DecimalRoundTrip(|a.content|);
      BlobHeaderSize(tag, a.oid, size);
      BlobHeaderIsOneLine(a.oid, size);
    } else {
      MissingIsOneLine();
    }
  }

  /** For distinct tags the recorded versions are, tag by tag, what was answered. */
  lemma {:induction false} RecordedAt(tags: seq<bytes>, rs: seq<Response>, versions: Versions, i: nat)
    requires |tags| == |rs| && i < |tags| && forall j, k :: 0 <= j < k < |tags| ==> tags[j] != tags[k]
    ensures tags[i] in Recorded(tags, rs, versions) && Recorded(tags, rs, versions)[tags[i]] == rs[i].body
  {
    var next := versions[tags[0] := rs[0].body];
    if i == 0 {
      RecordedKeeps(tags[1..], rs[1..], next, tags[0]);
    } else {
      RecordedAt(tags[1..], rs[1..], next, i - 1);
    }
  }

  lemma {:induction false} RecordedKeeps(tags: seq<bytes>, rs: seq<Response>, versions: Versions, tag: bytes)
    requires |tags| == |rs| && tag in versions && tag !in tags
    ensures tag in Recorded(tags, rs, versions) && Recorded(tags, rs, versions)[tag] == versions[tag]
  {
    if tags != [] {
      RecordedKeeps(tags[1..], rs[1..], versions[tags[0] := rs[0].body], tag);
    }
  }

  /** Batch correctness: Git's answers for any tags parse to exactly their contents; cut short
      anywhere they are refused; with anything appended they are refused. */
  lemma BatchRoundTrip(tags: seq<bytes>, answers: seq<Answer>, buf: bytes)
    requires |tags| == |answers| && forall i :: 0 <= i < |tags| ==> Answerable(tags[i], answers[i])
    ensures var rs := ResponsesOf(tags, answers);
            && (buf == Text(rs) ==> ParseFrom(HeaderSize, tags, buf, 0, map[]) == (Recorded(tags, rs, map[]), None))
            && (buf <= Text(rs) && buf != Text(rs) ==> ParseFrom(HeaderSize, tags, buf, 0, map[]).1.Some?)
            && (Text(rs) <= buf && buf != Text(rs) ==>
                  ParseFrom(HeaderSize, tags, buf, 0, map[]).1 == Some(Trailing(|buf| - |Text(rs)|)))
  {
    var rs := ResponsesOf(tags, answers);
    AllAreWellFormed(tags, answers);
    assert buf[0..] == buf;
    if Text(rs) <= buf {
      var rest := buf[|Text(rs)|..];
      assert buf == Text(rs) + rest;
      ParseReads(HeaderSize, tags, rs, rest, buf, 0, map[]);
      assert rest == [] ==> buf == Text(rs);
    } else if buf <= Text(rs) {
      ParseRefusesPrefix(HeaderSize, tags, rs, buf, 0, map[]);
    }
  }

  /** A header that announces size -1 is accepted as an empty blob with no contents line. */
  lemma NegativeSizeIsAccepted(tag: bytes, oid: bytes)
    requires IsObjectId(oid)
    ensures var header := BlobHeader(oid, [45, 49]);
            Step(HeaderSize, tag, header + [NEWLINE], 0) == Ok((Some([]), |header| + 1))
            && !SizesNonNegative(HeaderSize, [tag], header + [NEWLINE], 0)
  {
    var header := BlobHeader(oid, [45, 49]);
    var buf := header + [NEWLINE];
    assert [45, 49][1..] == [49] && [49][1..] == [];
    assert Digits(10, [49], 0, false) == Some(1);
    assert DecimalValue([45, 49]) == Some(-1);
    BlobHeaderSize(tag, oid, [45, 49]);
    assert buf[0..] == buf;
    HeaderLine(buf, 0, header);
    assert buf[|header|..|header| + 1] == [NEWLINE];
  }
}
