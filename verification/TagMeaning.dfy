/** The header line of a batch response, and Python's slices, in their own terms
    (tools/audit_tags.py). */
module TagMeaning {
  import opened Outcome
  import opened ByteStrings
  import opened Numerals
  import opened TagBatch

  // ---------- slices and searches ----------

  /** `buf[i:j]`: inside the buffer what stands there; a negative index counts from the end, and an
      index beyond an end stands for that end. */
  lemma SliceMeaning(buf: bytes, i: int, j: int)
    ensures 0 <= i <= j <= |buf| ==> Slice(buf, i, j) == buf[i..j]
    ensures i < 0 ==> Slice(buf, i, j) == Slice(buf, if |buf| + i < 0 then 0 else |buf| + i, j)
    ensures j < 0 ==> Slice(buf, i, j) == Slice(buf, i, if |buf| + j < 0 then 0 else |buf| + j)
    ensures 0 <= j <= i || |buf| <= i ==> Slice(buf, i, j) == []
    ensures j > |buf| ==> Slice(buf, i, j) == Slice(buf, i, |buf|)
  {
  }

  /** `buf.find(c, start)` for a start inside the buffer: the first place of `c`, or -1. */
  lemma FindMeaning(buf: bytes, c: byte, start: nat, k: int)
    requires start <= |buf|
    ensures Find(buf, c, start) == k <==>
              if k < 0 then k == -1 && c !in buf[start..]
              else start <= k < |buf| && buf[k] == c && c !in buf[start..k]
  {
    FirstPlace(buf, c, start, k);
  }

  lemma {:induction false} FirstPlace(buf: bytes, c: byte, i: nat, k: int)
    requires i <= |buf|
    ensures FindFrom(buf, c, i) == k <==>
              if k < 0 then k == -1 && c !in buf[i..] else i <= k < |buf| && buf[k] == c && c !in buf[i..k]
    decreases |buf| - i
  {
    if i < |buf| {
      assert buf[i..] == [buf[i]] + buf[i + 1..];
      FirstPlace(buf, c, i + 1, k);
      if i < k <= |buf| {
        assert buf[i..k] == [buf[i]] + buf[i + 1..k];
      } else if k == i {
        assert buf[i..k] == [];
      }
    }
  }

  // ---------- the header line ----------

  predicate HexText(oid: bytes) {
    |oid| in {40, 64} && forall c :: c in oid ==> c in Ascii("0123456789abcdefABCDEF")
  }

  predicate BlobLine(header: bytes, oid: bytes, size: bytes) {
    header == oid + Ascii(" blob ") + size && HexText(oid) && 32 !in size
  }

  predicate Missing(tag: bytes, header: bytes) {
    header == tag + Ascii("^{commit}:VERSION missing")
  }

  lemma HexDigit(c: byte)
    ensures IsHex(c) <==> c in Ascii("0123456789abcdefABCDEF")
  {
    var digits := Ascii("0123456789abcdefABCDEF");
    HexDigitsAre();
    if 48 <= c <= 57 {
      assert digits[c - 48] == c;
    } else if 97 <= c <= 102 {
      assert digits[c - 87] == c;
    } else if 65 <= c <= 70 {
      assert digits[c - 49] == c;
    }
  }

  lemma HexDigitsAre()
    ensures var d := Ascii("0123456789abcdefABCDEF");
            |d| == 22 && forall i :: 0 <= i < 22 ==> d[i] == if i < 10 then 48 + i else if i < 16 then 87 + i else 49 + i
  {
    var text := "0123456789abcdefABCDEF";
    assert Ascii(text) == [48, 49, 50, 51, 52, 53, 54, 55, 56, 57, 97, 98, 99, 100, 101, 102, 65, 66, 67, 68, 69, 70];
  }

  lemma HexTextIff(oid: bytes)
    ensures IsObjectId(oid) <==> HexText(oid)
  {
    forall c: byte ensures IsHex(c) <==> c in Ascii("0123456789abcdefABCDEF") {
      HexDigit(c);
    }
    if HexText(oid) {
      forall i | 0 <= i < |oid| ensures IsHex(oid[i]) {
        assert oid[i] in oid;
      }
    }
  }

  lemma BlobWord()
    ensures Ascii("blob") == [98, 108, 111, 98] && Ascii(" blob ") == [32] + Ascii("blob") + [32]
  {
  }

  lemma {:induction false} LastSpaceIs(s: bytes, k: nat)
    ensures LastSpace(s) == Some(k) <==> k < |s| && s[k] == 32 && 32 !in s[k + 1..]
    ensures LastSpace(s) == None <==> 32 !in s
  {
    if s != [] {
      var n := |s| - 1;
      LastSpaceIs(s[..n], k);
      assert s == s[..n] + [s[n]];
      if k < n {
        assert s[k + 1..] == s[..n][k + 1..] + [s[n]];
      }
    }
  }

  /** Three parts, the last two without a space. */
  lemma SplitTwiceIff(s: bytes, a: bytes, b: bytes, c: bytes)
    ensures SplitTwice(s) == Some((a, b, c)) <==> s == a + [32] + b + [32] + c && 32 !in b && 32 !in c
  {
    if s == a + [32] + b + [32] + c && 32 !in b && 32 !in c {
      TwoSpaces(s, a, b, c);
    } else if SplitTwice(s) == Some((a, b, c)) {
      var k := LastSpace(s).value;
      var j := LastSpace(s[..k]).value;
      LastSpaceIs(s, k);
      LastSpaceIs(s[..k], j);
      assert s[..k][j + 1..] == s[j + 1..k];
      Reassembled(s, j, k);
    }
  }

  lemma TwoSpaces(s: bytes, a: bytes, b: bytes, c: bytes)
    requires s == a + [32] + b + [32] + c && 32 !in b && 32 !in c
    ensures SplitTwice(s) == Some((a, b, c))
  {
    var k, j := |a| + 1 + |b|, |a|;
    var front := a + [32] + b;
    assert s == front + ([32] + c);
    CutConcat(front, [32] + c);
    assert s[k] == 32 && s[k + 1..] == c;
    LastSpaceIs(s, k);
    assert front[j] == 32 && front[j + 1..] == b && front[..j] == a;
    LastSpaceIs(front, j);
    assert s[..j] == front[..j] && s[j + 1..k] == front[j + 1..];
  }

  lemma Reassembled(s: bytes, j: nat, k: nat)
    requires j < k < |s| && s[j] == 32 && s[k] == 32
    ensures s == s[..j] + [32] + s[j + 1..k] + [32] + s[k + 1..]
  {
  }

  lemma BlobLineIff(header: bytes, oid: bytes, size: bytes)
    ensures BlobLine(header, oid, size) <==> HexText(oid) && SplitTwice(header) == Some((oid, Ascii("blob"), size))
  {
    BlobWord();
    SplitTwiceIff(header, oid, Ascii("blob"), size);
    assert oid + ([32] + Ascii("blob") + [32]) + size == oid + [32] + Ascii("blob") + [32] + size;
  }

  /** A header is the missing line, or announces a blob by an object id of 40 or 64 hexadecimal
      digits, the word and a size that is a number; it is malformed if it does not have that form, and
      its size invalid if it is not a number. */
  lemma HeaderIff(tag: bytes, header: bytes, n: int, s: bytes)
    ensures HeaderSize(tag, header) == Ok(None) <==> Missing(tag, header)
    ensures HeaderSize(tag, header) == Ok(Some(n)) <==>
              !Missing(tag, header) && exists oid, size :: BlobLine(header, oid, size) && DecimalValue(size) == Some(n)
    ensures HeaderSize(tag, header) == Err(InvalidSize(s)) <==>
              !Missing(tag, header) && DecimalValue(s) == None && exists oid :: BlobLine(header, oid, s)
    ensures HeaderSize(tag, header) == Err(MalformedHeader(header)) <==>
              !Missing(tag, header) && forall oid, size :: !BlobLine(header, oid, size)
  {
    forall oid, size
      ensures BlobLine(header, oid, size) <==> HexText(oid) && SplitTwice(header) == Some((oid, Ascii("blob"), size))
    {
      BlobLineIff(header, oid, size);
    }
    if !Missing(tag, header) {
      HeaderSplit(tag, header);
      match SplitTwice(header) {
        case None =>
        case Some(p) => assert p.1 == Ascii("blob") && HexText(p.0) ==> BlobLine(header, p.0, p.2);
      }
    }
  }

  lemma HeaderSplit(tag: bytes, header: bytes)
    requires !Missing(tag, header)
    ensures HeaderSize(tag, header)
         == match SplitTwice(header)
            case None => Err(MalformedHeader(header))
            case Some(p) =>
              if p.1 != Ascii("blob") || !HexText(p.0) then Err(MalformedHeader(header))
              else if DecimalValue(p.2).None? then Err(InvalidSize(p.2)) else Ok(DecimalValue(p.2))
  {
    if SplitTwice(header).Some? {
      HexTextIff(SplitTwice(header).value.0);
    }
  }

  /** Why one response is refused: its header line does not end, its header is refused, or no newline
      stands behind its contents. */
  lemma StepErrors(read: Reading, tag: bytes, buf: bytes, pos: nat, nl: nat)
    requires pos <= |buf|
    ensures 10 !in buf[pos..] ==> Step(read, tag, buf, pos) == Err(NoHeader(tag))
    ensures pos <= nl < |buf| && buf[nl] == 10 && 10 !in buf[pos..nl] ==>
              StepBehind(read(tag, buf[pos..nl]), tag, buf, nl, Step(read, tag, buf, pos))
  {
    FindMeaning(buf, 10, pos, -1);
    FindMeaning(buf, 10, pos, nl);
    if pos <= nl < |buf| && buf[nl] == 10 && 10 !in buf[pos..nl] {
      BehindLine(read, tag, buf, pos, nl);
    }
  }

  lemma BehindLine(read: Reading, tag: bytes, buf: bytes, pos: nat, nl: nat)
    requires pos <= nl < |buf| && Find(buf, 10, pos) == nl
    ensures StepBehind(read(tag, buf[pos..nl]), tag, buf, nl, Step(read, tag, buf, pos))
  {
    SliceMeaning(buf, pos, nl);
    match read(tag, buf[pos..nl]) {
      case Ok(Some(size)) =>
        SliceMeaning(buf, nl + 1, nl + 1 + size);
        SliceMeaning(buf, nl + 1 + size, nl + 2 + size);
      case _ =>
    }
  }

  predicate StepBehind(header: Result<Option<int>, ParseError>, tag: bytes, buf: bytes, nl: nat,
                       step: Result<(Option<bytes>, int), ParseError>)
    requires nl < |buf|
  {
    match header
    case Err(e) => step == Err(e)
    case Ok(None) => step == Ok((None, nl + 1))
    case Ok(Some(size)) =>
      if size >= 0 then
        if nl + 1 + size < |buf| && buf[nl + 1 + size] == 10 then step == Ok((Some(buf[nl + 1..nl + 1 + size]), nl + size + 2))
        else step == Err(Truncated(tag))
      else step.Ok? || step == Err(Truncated(tag))
  }
}
