/** The canonical pre-image of a source fingerprint: a magic, the length-prefixed model
    name, and one length-prefixed frame per record (tools/freshness.py). */
module Framing {
  import opened Outcome
  import opened ByteStrings

  datatype Record = Record(kind: bytes, path: bytes, mode: int, content: bytes)

  /** `FreshnessError` for the kind, `struct.error` for a field out of range. */
  datatype FrameError = KindNotOneByte | FieldOverflow

  const TWO_32: nat := 0x1_0000_0000
  const TWO_64: nat := 0x1_0000_0000_0000_0000

  const SOURCE_MAGIC: bytes := Ascii("saipen-source-fingerprint-v1") + [0]
  const GIT_MODEL: bytes := Ascii("git-delta-v1")
  const NO_GIT_MODEL: bytes := Ascii("no-git-tree-v1")

  // ---------- big-endian integers ----------

  function Pow256(width: nat): nat {
    if width == 0 then 1 else 256 * Pow256(width - 1)
  }

  function BigEndian(n: nat, width: nat): (b: bytes)
    ensures |b| == width
  {
    if width == 0 then [] else BigEndian(n / 256, width - 1) + [n % 256]
  }

  function FromBigEndian(b: bytes): nat {
    if b == [] then 0 else 256 * FromBigEndian(b[..|b| - 1]) + b[|b| - 1]
  }

  lemma {:induction false} BigEndianRoundTrip(n: nat, width: nat)
    requires n < Pow256(width)
    ensures FromBigEndian(BigEndian(n, width)) == n
  {
    if width > 0 {
      BigEndianRoundTrip(n / 256, width - 1);
      var b := BigEndian(n, width);
      assert b[..|b| - 1] == BigEndian(n / 256, width - 1);
    }
  }

  lemma {:induction false} FromBigEndianRoundTrip(b: bytes)
    ensures FromBigEndian(b) < Pow256(|b|)
    ensures BigEndian(FromBigEndian(b), |b|) == b
  {
    if b != [] {
      FromBigEndianRoundTrip(b[..|b| - 1]);
      assert b == b[..|b| - 1] + [b[|b| - 1]];
    }
  }

  lemma FieldWidths()
    ensures Pow256(8) == TWO_64 && Pow256(4) == TWO_32
  {
    assert Pow256(2) == 0x1_0000;
    assert Pow256(4) == TWO_32;
    assert Pow256(6) == 0x1_0000_0000_0000;
  }

  // ---------- encoding ----------

  /** `struct.pack(">Q", len(field))` followed by the field. */
  function Prefixed(field: bytes): bytes {
    BigEndian(|field|, 8) + field
  }

  predicate Framable(r: Record) {
    |r.kind| == 1 && |r.path| < TWO_64 && 0 <= r.mode < TWO_32 && |r.content| < TWO_64
  }

  function Frame(r: Record): Result<bytes, FrameError> {
    if |r.kind| != 1 then Err(KindNotOneByte)
    else if !(|r.path| < TWO_64 && 0 <= r.mode < TWO_32 && |r.content| < TWO_64) then Err(FieldOverflow)
    else Ok(r.kind + (Prefixed(r.path) + (BigEndian(r.mode, 4) + Prefixed(r.content))))
  }

  /** Concatenation that stops at the first error. */
  function Chain(x: Result<bytes, FrameError>, y: Result<bytes, FrameError>): Result<bytes, FrameError> {
    match (x, y)
    case (Err(e), _) => Err(e)
    case (Ok(_), Err(e)) => Err(e)
    case (Ok(a), Ok(b)) => Ok(a + b)
  }

  /** Every frame in order, or the first error. */
  function Frames(rs: seq<Record>): Result<bytes, FrameError> {
    if rs == [] then Ok([]) else Chain(Frame(rs[0]), Frames(rs[1..]))
  }

  function Header(model: bytes): bytes {
    SOURCE_MAGIC + Prefixed(model)
  }

  /** The byte stream hashed for `rs` in the given order. */
  function SourceBytes(model: bytes, rs: seq<Record>): Result<bytes, FrameError> {
    if |model| >= TWO_64 then Err(FieldOverflow)
    else match Frames(rs)
      case Err(e) => Err(e)
      case Ok(b) => Ok(Header(model) + b)
  }

  function PathOf(r: Record): bytes { r.path }

  /** What `_digest` hashes: the records sorted by path, then framed. */
  function DigestBytes(model: bytes, rs: seq<Record>): Result<bytes, FrameError> {
    SourceBytes(model, SortBy(rs, PathOf))
  }

  // ---------- decoding ----------

  /** One length-prefixed field and what follows it. */
  function TakePrefixed(b: bytes): (r: Option<(bytes, bytes)>)
    ensures r.Some? ==> |r.value.1| < |b|
  {
    if |b| < 8 then None
    else
      var end := 8 + FromBigEndian(b[..8]);
      if |b| < end then None else Some((b[8..end], b[end..]))
  }

  function DecodeFrame(b: bytes): (r: Option<(Record, bytes)>)
    ensures r.Some? ==> |r.value.1| < |b|
  {
    if b == [] then None
    else match TakePrefixed(b[1..])
      case None => None
      case Some(path) =>
        if |path.1| < 4 then None
        else match TakePrefixed(path.1[4..])
          case None => None
          case Some(content) =>
            Some((Record(b[..1], path.0, FromBigEndian(path.1[..4]), content.0), content.1))
  }

  function DecodeFrames(b: bytes): Option<seq<Record>>
    decreases |b|
  {
    if b == [] then Some([])
    else match DecodeFrame(b)
      case None => None
      case Some(p) =>
        match DecodeFrames(p.1)
        case None => None
        case Some(rest) => Some([p.0] + rest)
  }

  function DecodeTagged(magic: bytes, b: bytes): Option<(bytes, seq<Record>)> {
    if |b| < |magic| || b[..|magic|] != magic then None
    else match TakePrefixed(b[|magic|..])
      case None => None
      case Some(model) =>
        match DecodeFrames(model.1)
        case None => None
        case Some(rs) => Some((model.0, rs))
  }

  function DecodeSource(b: bytes): Option<(bytes, seq<Record>)> {
    DecodeTagged(SOURCE_MAGIC, b)
  }

  lemma TakeOfPrefixed(field: bytes, rest: bytes)
    requires |field| < TWO_64
    ensures TakePrefixed(Prefixed(field) + rest) == Some((field, rest))
  {
    FieldWidths();
    var n := BigEndian(|field|, 8);
    BigEndianRoundTrip(|field|, 8);
    var b := Prefixed(field) + rest;
    assert b == n + (field + rest);
    CutConcat(n, field + rest);
    CutConcat(n + field, rest);
    CutConcat(field, rest);
    assert b[8..] == field + rest;
    assert b[8..8 + |field|] == field;
  }

  lemma PrefixedOfTake(b: bytes)
    requires TakePrefixed(b).Some?
    ensures var t := TakePrefixed(b).value; |t.0| < TWO_64 && Prefixed(t.0) + t.1 == b
  {
    FieldWidths();
    FromBigEndianRoundTrip(b[..8]);
    var end := 8 + FromBigEndian(b[..8]);
    assert |b[8..end]| == end - 8;
    assert b == b[..8] + b[8..end] + b[end..];
  }

  /** A frame followed by anything decodes to its record and exactly that rest. */
  lemma DecodeOfFrame(r: Record, rest: bytes)
    requires Framable(r)
    ensures DecodeFrame(Frame(r).value + rest) == Some((r, rest))
  {
    FieldWidths();
    BigEndianRoundTrip(r.mode, 4);
    var mode := BigEndian(r.mode, 4);
    var b := Frame(r).value + rest;
    var tail := mode + (Prefixed(r.content) + rest);
    assert b == r.kind + (Prefixed(r.path) + tail);
    CutConcat(r.kind, Prefixed(r.path) + tail);
    TakeOfPrefixed(r.path, tail);
    CutConcat(mode, Prefixed(r.content) + rest);
    TakeOfPrefixed(r.content, rest);
  }

  /** Whatever decodes is the frame of what it decodes to. */
  lemma FrameOfDecode(b: bytes)
    requires DecodeFrame(b).Some?
    ensures var d := DecodeFrame(b).value; Framable(d.0) && Frame(d.0).value + d.1 == b
  {
    FieldWidths();
    PrefixedOfTake(b[1..]);
    var path := TakePrefixed(b[1..]).value;
    PrefixedOfTake(path.1[4..]);
    FromBigEndianRoundTrip(path.1[..4]);
    var content := TakePrefixed(path.1[4..]).value;
    PartsOfFrame(b, Prefixed(path.0), path.1, Prefixed(content.0), content.1);
  }

  lemma PartsOfFrame(b: bytes, path: bytes, tail: bytes, content: bytes, rest: bytes)
    requires b != [] && b[1..] == path + tail && |tail| >= 4 && tail[4..] == content + rest
    ensures b[..1] + (path + (tail[..4] + content)) + rest == b
  {
    assert tail == tail[..4] + (content + rest);
    assert b == b[..1] + (path + (tail[..4] + (content + rest)));
  }

  lemma {:induction false} DecodeOfFrames(rs: seq<Record>)
    requires Frames(rs).Ok?
    ensures DecodeFrames(Frames(rs).value) == Some(rs)
  {
    if rs != [] {
      DecodeOfFrames(rs[1..]);
      DecodeOfFrame(rs[0], Frames(rs[1..]).value);
      assert rs == [rs[0]] + rs[1..];
    }
  }

  lemma {:induction false} FramesOfDecode(b: bytes)
    requires DecodeFrames(b).Some?
    ensures Frames(DecodeFrames(b).value) == Ok(b)
    decreases |b|
  {
    if b != [] {
      FrameOfDecode(b);
      var p := DecodeFrame(b).value;
      FramesOfDecode(p.1);
      var rs := DecodeFrames(b).value;
      assert rs[0] == p.0 && rs[1..] == DecodeFrames(p.1).value;
    }
  }

  lemma TaggedDecodes(magic: bytes, model: bytes, rs: seq<Record>, body: bytes)
    requires |model| < TWO_64 && Frames(rs) == Ok(body)
    ensures DecodeTagged(magic, magic + Prefixed(model) + body) == Some((model, rs))
  {
    DecodeOfFrames(rs);
    Associative(magic, Prefixed(model), body);
    CutConcat(magic, Prefixed(model) + body);
    TakeOfPrefixed(model, body);
  }

  lemma DecodedIsTagged(magic: bytes, b: bytes)
    requires DecodeTagged(magic, b).Some?
    ensures var d := DecodeTagged(magic, b).value;
            |d.0| < TWO_64 && Frames(d.1).Ok? && b == magic + Prefixed(d.0) + Frames(d.1).value
  {
    PrefixedOfTake(b[|magic|..]);
    var t := TakePrefixed(b[|magic|..]).value;
    FramesOfDecode(t.1);
    assert b == b[..|magic|] + b[|magic|..];
    Associative(magic, Prefixed(t.0), t.1);
  }

  /** Unique decodability, both ways: a byte string is the pre-image of (model, rs) exactly
      when it decodes to (model, rs). */
  lemma UniqueDecodability(model: bytes, rs: seq<Record>, b: bytes)
    ensures SourceBytes(model, rs) == Ok(b) <==> DecodeSource(b) == Some((model, rs))
  {
    if SourceBytes(model, rs) == Ok(b) {
      TaggedDecodes(SOURCE_MAGIC, model, rs, Frames(rs).value);
    }
    if DecodeSource(b) == Some((model, rs)) {
      DecodedIsTagged(SOURCE_MAGIC, b);
    }
  }

  /** `_digest` does not depend on the order in which the records were gathered. */
  lemma DigestForgetsOrder(model: bytes, a: seq<Record>, b: seq<Record>)
    requires multiset(a) == multiset(b) && DistinctBy(a, PathOf)
    ensures DigestBytes(model, a) == DigestBytes(model, b)
  {
    SortForgetsOrder(a, b, PathOf);
  }

  /** Equal pre-images come from the same model and the same records. */
  lemma DigestSeparates(m1: bytes, a: seq<Record>, m2: bytes, b: seq<Record>)
    requires DigestBytes(m1, a).Ok? && DigestBytes(m1, a) == DigestBytes(m2, b)
    ensures m1 == m2 && multiset(a) == multiset(b)
  {
    var pre := DigestBytes(m1, a).value;
    UniqueDecodability(m1, SortBy(a, PathOf), pre);
    UniqueDecodability(m2, SortBy(b, PathOf), pre);
    SortIsPermutation(a, PathOf);
    SortIsPermutation(b, PathOf);
  }

  lemma ChainAssociative(x: Result<bytes, FrameError>, y: Result<bytes, FrameError>,
                         z: Result<bytes, FrameError>)
    ensures Chain(Chain(x, y), z) == Chain(x, Chain(y, z))
  {
    if x.Ok? && y.Ok? && z.Ok? {
      Associative(x.value, y.value, z.value);
    }
  }

  lemma ChainUnits(x: Result<bytes, FrameError>)
    ensures Chain(Ok([]), x) == x == Chain(x, Ok([]))
  {
    if x.Ok? {
      assert [] + x.value == x.value == x.value + [];
    }
  }

  lemma {:induction false} FramesAppend(a: seq<Record>, b: seq<Record>)
    ensures Frames(a + b) == Chain(Frames(a), Frames(b))
  {
    if a == [] {
      assert a + b == b;
      ChainUnits(Frames(b));
    } else {
      assert (a + b)[1..] == a[1..] + b;
      FramesAppend(a[1..], b);
      ChainAssociative(Frame(a[0]), Frames(a[1..]), Frames(b));
    }
  }

  lemma {:induction false} FramesFailAt(rs: seq<Record>, i: nat)
    requires i < |rs| && Frame(rs[i]).Err?
    ensures Frames(rs).Err?
  {
    if i > 0 {
      FramesFailAt(rs[1..], i - 1);
    }
  }

  // ---------- the bytes themselves ----------

  lemma FourMore(b: bytes)
    requires |b| >= 4
    ensures var n := |b| - 4;
            FromBigEndian(b) == 0x1_0000_0000 * FromBigEndian(b[..n]) + 0x100_0000 * (b[n] as int)
                                + 0x1_0000 * (b[n + 1] as int) + 0x100 * (b[n + 2] as int) + b[n + 3]
  {
    var n := |b| - 4;
    assert b[..n + 3][..n + 2] == b[..n + 2] && b[..n + 2][..n + 1] == b[..n + 1] && b[..n + 1][..n] == b[..n];
    assert FromBigEndian(b[..n + 1]) == 256 * FromBigEndian(b[..n]) + b[n];
    assert FromBigEndian(b[..n + 2]) == 256 * FromBigEndian(b[..n + 1]) + b[n + 1];
    assert FromBigEndian(b[..n + 3]) == 256 * FromBigEndian(b[..n + 2]) + b[n + 2];
  }

  /** The most significant byte comes first. */
  lemma BigEndianDigits(b: bytes)
    ensures |b| == 4 ==>
              FromBigEndian(b) == 0x100_0000 * (b[0] as int) + 0x1_0000 * (b[1] as int) + 0x100 * (b[2] as int) + b[3]
    ensures |b| == 8 ==> FromBigEndian(b) == 0x1_0000_0000 * FromBigEndian(b[..4]) + FromBigEndian(b[4..])
  {
    if |b| == 4 {
      FourMore(b);
    } else if |b| == 8 {
      FourMore(b);
      FourMore(b[4..]);
    }
  }

  /** One frame, field by field: the kind, the length of the path, the path, the mode, the length
      of the content, the content. */
  predicate LaidOut(r: Record, f: bytes) {
    var n := |r.path|;
    && |f| == 21 + n + |r.content| && f[..1] == r.kind
    && FromBigEndian(f[1..9]) == n && f[9..9 + n] == r.path
    && FromBigEndian(f[9 + n..13 + n]) == r.mode
    && FromBigEndian(f[13 + n..21 + n]) == |r.content| && f[21 + n..] == r.content
  }

  predicate Fits(r: Record) {
    |r.path| < 0x1_0000_0000_0000_0000 && 0 <= r.mode < 0x1_0000_0000 && |r.content| < 0x1_0000_0000_0000_0000
  }

  lemma LayoutOf(k: bytes, n: bytes, path: bytes, mode: bytes, m: bytes, content: bytes)
    requires |k| == 1 && |n| == 8 && |mode| == 4 && |m| == 8
    ensures var f, p := k + ((n + path) + (mode + (m + content))), |path|;
            |f| == 21 + p + |content| && f[..1] == k && f[1..9] == n && f[9..9 + p] == path
            && f[9 + p..13 + p] == mode && f[13 + p..21 + p] == m && f[21 + p..] == content
  {
  }

  lemma LayoutConcat(f: bytes, p: nat)
    requires |f| >= 21 + p
    ensures f == f[..1] + ((f[1..9] + f[9..9 + p]) + (f[9 + p..13 + p] + (f[13 + p..21 + p] + f[21 + p..])))
  {
  }

  /** A record is framed exactly if its kind is one byte and its fields fit, and then its frame is
      the one string laid out like that. */
  lemma FrameLayout(r: Record, f: bytes)
    ensures Frame(r) == Ok(f) <==> |r.kind| == 1 && Fits(r) && LaidOut(r, f)
    ensures Frame(r) == Err(KindNotOneByte) <==> |r.kind| != 1
    ensures Frame(r) == Err(FieldOverflow) <==> |r.kind| == 1 && !Fits(r)
  {
    FieldWidths();
    if |r.kind| == 1 && Fits(r) {
      var n, mode, m := BigEndian(|r.path|, 8), BigEndian(r.mode, 4), BigEndian(|r.content|, 8);
      BigEndianRoundTrip(|r.path|, 8);
      BigEndianRoundTrip(r.mode, 4);
      BigEndianRoundTrip(|r.content|, 8);
      LayoutOf(r.kind, n, r.path, mode, m, r.content);
      if LaidOut(r, f) {
        var p := |r.path|;
        LayoutConcat(f, p);
        FromBigEndianRoundTrip(f[1..9]);
        FromBigEndianRoundTrip(f[9 + p..13 + p]);
        FromBigEndianRoundTrip(f[13 + p..21 + p]);
      }
    }
  }

  /** The frames of a list fail with its first unframable record. */
  lemma {:induction false} FramesFailFirst(rs: seq<Record>, e: FrameError)
    ensures Frames(rs) == Err(e) <==>
              exists i: nat :: i < |rs| && Frame(rs[i]) == Err(e) && forall j :: 0 <= j < i ==> Frame(rs[j]).Ok?
  {
    if rs != [] {
      FramesFailFirst(rs[1..], e);
      if i: nat :| i < |rs[1..]| && Frame(rs[1..][i]) == Err(e) && forall j :: 0 <= j < i ==> Frame(rs[1..][j]).Ok? {
        forall j | 0 <= j < i + 1 && Frame(rs[0]).Ok? ensures Frame(rs[j]).Ok? {
          assert j > 0 ==> rs[j] == rs[1..][j - 1];
        }
        assert rs[i + 1] == rs[1..][i];
      }
      if i: nat :| i < |rs| && Frame(rs[i]) == Err(e) && forall j :: 0 <= j < i ==> Frame(rs[j]).Ok? {
        if i > 0 {
          assert rs[1..][i - 1] == rs[i];
          forall j | 0 <= j < i - 1 ensures Frame(rs[1..][j]).Ok? { assert rs[1..][j] == rs[j + 1]; }
        }
      }
    }
  }

  lemma TextLengths()
    ensures |Ascii("git-delta-v1")| == 12 && |Ascii("no-git-tree-v1")| == 14
    ensures BigEndian(12, 8) == [0, 0, 0, 0, 0, 0, 0, 12] && BigEndian(14, 8) == [0, 0, 0, 0, 0, 0, 0, 14]
  {
    SmallLength(12);
    SmallLength(14);
  }

  lemma SmallLength(n: byte)
    ensures BigEndian(n, 8) == [0, 0, 0, 0, 0, 0, 0, n]
  {
    assert BigEndian(0, 1) == [0] && BigEndian(0, 2) == [0, 0] && BigEndian(0, 3) == [0, 0, 0];
    assert BigEndian(0, 5) == [0, 0, 0, 0, 0];
    assert BigEndian(0, 7) == [0, 0, 0, 0, 0, 0, 0];
  }

  /** Without records the hashed bytes are the magic and the model, each as its text. */
  lemma EmptyDigests()
    ensures DigestBytes(GIT_MODEL, [])
         == Ok(Ascii("saipen-source-fingerprint-v1") + [0] + [0, 0, 0, 0, 0, 0, 0, 12] + Ascii("git-delta-v1"))
    ensures DigestBytes(NO_GIT_MODEL, [])
         == Ok(Ascii("saipen-source-fingerprint-v1") + [0] + [0, 0, 0, 0, 0, 0, 0, 14] + Ascii("no-git-tree-v1"))
  {
    TextLengths();
    var magic := Ascii("saipen-source-fingerprint-v1") + [0];
    Associative(magic, BigEndian(12, 8), Ascii("git-delta-v1"));
    Associative(magic, BigEndian(14, 8), Ascii("no-git-tree-v1"));
    assert Header(GIT_MODEL) + [] == Header(GIT_MODEL) && Header(NO_GIT_MODEL) + [] == Header(NO_GIT_MODEL);
  }

  // ---------- the streaming hash object ----------

  /** `fed` is `base` and then the frames of `rs`. */
  ghost predicate Fed(base: bytes, fed: bytes, rs: seq<Record>) {
    Frames(rs).Ok? && fed == base + Frames(rs).value
  }

  lemma FedNothing(base: bytes)
    ensures Fed(base, base, [])
  {
    assert base + [] == base;
  }

  lemma FedMore(base: bytes, fed: bytes, rs: seq<Record>, fed': bytes, more: seq<Record>)
    requires Fed(base, fed, rs) && Fed(fed, fed', more)
    ensures Fed(base, fed', rs + more)
  {
    FramesAppend(rs, more);
    Associative(base, Frames(rs).value, Frames(more).value);
  }

  lemma FedOne(fed: bytes, r: Record)
    requires Frame(r).Ok?
    ensures Fed(fed, fed + Frame(r).value, [r])
  {
    FramesSingle(r);
  }

  /** The hash object of `_digest_capture`: what has been fed to it so far. */
  class DigestSink {
    var fed: bytes

    constructor (model: bytes)
      ensures fed == Header(model)
    {
      fed := Header(model);
    }

    method Observe(r: Record) returns (res: Result<(), FrameError>)
      modifies this
      ensures Frame(r).Ok? ==> res.Ok? && fed == old(fed) + Frame(r).value
      ensures Frame(r).Err? ==> res == Err(Frame(r).error) && fed == old(fed)
    {
      match Frame(r) {
        case Ok(f) => fed := fed + f; res := Ok(());
        case Err(e) => res := Err(e);
      }
    }
  }

  lemma FramesStep(rs: seq<Record>, i: nat)
    requires i < |rs| && Frames(rs[..i]).Ok?
    ensures Frames(rs[..i + 1]) == Chain(Frames(rs[..i]), Frame(rs[i]))
    ensures Frame(rs[i]).Err? ==> Frames(rs) == Err(Frame(rs[i]).error)
  {
    FramesSingle(rs[i]);
    assert rs[..i + 1] == rs[..i] + [rs[i]];
    FramesAppend(rs[..i], [rs[i]]);
    assert rs == rs[..i + 1] + rs[i + 1..];
    FramesAppend(rs[..i + 1], rs[i + 1..]);
  }

  lemma FramesSingle(r: Record)
    ensures Frames([r]) == Frame(r)
  {
    assert [r][1..] == [];
    ChainUnits(Frame(r));
  }

  /** `_digest`: sort by path, then feed every frame. */
  method DigestRecords(model: bytes, records: seq<Record>) returns (r: Result<bytes, FrameError>)
    requires |model| < TWO_64
    ensures r == DigestBytes(model, records)
  {
    var sink := new DigestSink(model);
    var sorted := SortBy(records, PathOf);
    var i := 0;
    while i < |sorted|
      invariant 0 <= i <= |sorted|
      invariant Frames(sorted[..i]).Ok? && sink.fed == Header(model) + Frames(sorted[..i]).value
    {
      FramesStep(sorted, i);
      var res := sink.Observe(sorted[i]);
      if res.Ok? {
        Associative(Header(model), Frames(sorted[..i]).value, Frame(sorted[i]).value);
      }
      if res.Err? {
        return Err(res.error);
      }
      i := i + 1;
    }
    assert sorted[..i] == sorted;
    return Ok(sink.fed);
  }
}
