/** Uses of a captured identity (tools/freshness.py): the oracle's identity, the re-reading
    digest, and the revalidation of a token on a later tree. */
module Revalidation {
  import opened Outcome
  import opened ByteStrings
  import opened Framing
  import opened Dicts
  import opened GitDelta
  import opened GoldenDelta
  import opened GitListing
  import opened Capture
  import opened Identity

  // ---------- the oracle's identity ----------

  /** The oracle's `_git_identity` on an unmoving tree: parse, then sort, then frame. */
  function GoldenCapture(w: World): Result<SourceIdentity, Error> {
    match (w.head, ListingOf(w.raw, w.untracked))
    case (Ok(head), Ok(listing)) =>
      (match GoldenRecords(w.fs, listing.0, listing.1)
       case Err(e) => Err(e)
       case Ok(recs) =>
         match DigestBytes(GIT_MODEL, recs)
         case Err(e) => Err(BadFrame(e))
         case Ok(b) => Ok(SourceIdentity(head, Fingerprint(GIT_MODEL, Sha256(b)), GIT_MODEL)))
    case (Err(e), _) => Err(e)
    case (_, Err(e)) => Err(e)
  }

  /** Every identity the oracle would have issued is still the identity issued, for a project
      that declares no nested repository. */
  lemma IdentityRefinesGolden(w: World)
    requires GoldenCapture(w).Ok?
    ensures StaticCapture(w).Ok? && Bound(StaticCapture(w).value, []).identity == GoldenCapture(w).value
  {
    var listing := ListingOf(w.raw, w.untracked).value;
    LiveRefinesGolden(w.fs, listing.0, listing.1, GIT_MODEL);
  }

  // ---------- the re-reading digest ----------

  function EvidencePath(e: Evidence): bytes { e.path }

  /** The frame of a held record, given the content of a regular file. */
  function HeldRecord(e: Evidence, content: bytes): Record {
    Record(e.kind, e.path, e.mode, if e.kind == KIND_FILE then content else if e.held.Raw? then e.held.data else [])
  }

  /** Digests are held for regular files and only for them, as `_record_evidence` leaves it. */
  predicate WellHeld(e: Evidence) {
    e.kind == KIND_FILE <==> e.held.Hashed?
  }

  /** `r` frames what the evidence `e` holds. */
  predicate Rereads(e: Evidence, r: Record) {
    r.kind == e.kind && r.path == e.path && r.mode == e.mode
    && e.held == if r.kind == KIND_FILE then Hashed(Sha256(r.content)) else Raw(r.content)
  }

  ghost predicate AllReread(es: seq<Evidence>, rs: seq<Record>) {
    |rs| <= |es| && forall i :: 0 <= i < |rs| ==> Rereads(es[i], rs[i])
  }

  function RereadAt(fs: FileSystem, e: Evidence): Result<Record, Error> {
    if e.kind != KIND_FILE then Ok(HeldRecord(e, []))
    else
      var node := At(fs, StripSlashes(e.path));
      if !node.File? then Err(CannotRead(e.path))
      else if e.held != Hashed(Sha256(node.content)) then Err(ContentMoved)
      else Ok(HeldRecord(e, node.content))
  }

  lemma RereadHolds(fs: FileSystem, e: Evidence)
    requires WellHeld(e) && RereadAt(fs, e).Ok?
    ensures Rereads(e, RereadAt(fs, e).value)
  {
  }

  predicate RereadFails(fs: FileSystem, e: Evidence) {
    var r := RereadAt(fs, e);
    r.Err? || Frame(r.value).Err?
  }

  /** The second read of one held path. */
  method Reread(env: Environment, e: Evidence) returns (r: Result<Record, Error>, ghost at: nat)
    modifies env`now
    ensures old(env.now) <= at <= env.now && r == RereadAt(env.worlds(at).fs, e)
  {
    at := env.now;
    var content: bytes := [];
    if e.kind == KIND_FILE {
      var node;
      node, at := env.Look(StripSlashes(e.path));
      if !node.File? {
        return Err(CannotRead(e.path)), at;
      }
      if e.held != Hashed(Sha256(node.content)) {
        return Err(ContentMoved), at;
      }
      content := node.content;
    }
    r := Ok(HeldRecord(e, content));
  }

  ghost predicate SomeRereadFails(worlds: nat -> World, es: seq<Evidence>, lo: nat, hi: nat) {
    exists i, t :: 0 <= i < |es| && lo <= t <= hi && RereadFails(worlds(t).fs, es[i])
  }

  /** `_stream_digest`: every regular file is read again, checked against its digest, and framed.
      It fails only where a file no longer holds what the evidence says. */
  method StreamDigest(env: Environment, evidence: seq<Evidence>) returns (r: Result<bytes, Error>, ghost recs: seq<Record>)
    requires forall e :: e in evidence ==> WellHeld(e)
    modifies env`now
    ensures r.Ok? ==> |recs| == |evidence| && AllReread(SortBy(evidence, EvidencePath), recs)
    ensures r.Ok? ==> SourceBytes(GIT_MODEL, recs) == Ok(r.value)
    ensures r.Err? ==> SomeRereadFails(env.worlds, SortBy(evidence, EvidencePath), old(env.now), env.now)
  {
    var sink := new DigestSink(GIT_MODEL);
    SortIsPermutation(evidence, EvidencePath);
    var sorted := SortBy(evidence, EvidencePath);
    recs := [];
    assert sink.fed + [] == sink.fed;
    for i := 0 to |sorted|
      invariant old(env.now) <= env.now
      invariant |recs| == i && Frames(recs).Ok? && sink.fed == Header(GIT_MODEL) + Frames(recs).value
      invariant AllReread(sorted, recs)
    {
      assert sorted[i] in multiset(sorted) && sorted[i] in evidence;
      var record, at := Reread(env, sorted[i]);
      if record.Err? {
        assert RereadFails(env.worlds(at).fs, sorted[i]);
        return Err(record.error), recs;
      }
      var seen := sink.Observe(record.value);
      if seen.Err? {
        assert RereadFails(env.worlds(at).fs, sorted[i]);
        return Err(BadFrame(seen.error)), recs;
      }
      RereadHolds(env.worlds(at).fs, sorted[i]);
      FramesAppend(recs, [record.value]);
      FramesSingle(record.value);
      Associative(Header(GIT_MODEL), Frames(recs).value, Frame(record.value).value);
      recs := recs + [record.value];
    }
    r := Ok(sink.fed);
  }

  lemma {:induction false} InsertEvidences(r: Record, rs: seq<Record>)
    ensures Insert(EvidenceOf(r), Evidences(rs), EvidencePath) == Evidences(Insert(r, rs, PathOf))
  {
    if rs != [] {
      InsertEvidences(r, rs[1..]);
      assert Evidences(rs)[1..] == Evidences(rs[1..]);
    }
  }

  lemma {:induction false} SortEvidences(rs: seq<Record>)
    ensures SortBy(Evidences(rs), EvidencePath) == Evidences(SortBy(rs, PathOf))
  {
    if rs == [] {
      assert Evidences(rs) == [];
    } else {
      SortEvidences(rs[1..]);
      assert Evidences(rs)[1..] == Evidences(rs[1..]);
      InsertEvidences(rs[0], SortBy(rs[1..], PathOf));
    }
  }

  /** The third way to the pre-image agrees with the first: whatever the re-reading digest
      accepts, it hashed exactly the bytes `_digest` hashes for the confirmed records. */
  lemma StreamEqualsDigest(confirmed: seq<Record>, recs: seq<Record>)
    requires |recs| == |confirmed| && AllReread(SortBy(Evidences(confirmed), EvidencePath), recs)
    ensures SourceBytes(GIT_MODEL, recs) == DigestBytes(GIT_MODEL, confirmed)
  {
    SortEvidences(confirmed);
    var sorted := SortBy(confirmed, PathOf);
    assert |Evidences(sorted)| == |sorted| == |recs| by { SortIsPermutation(confirmed, PathOf); }
    forall i | 0 <= i < |recs| ensures recs[i] == sorted[i] {
      assert Rereads(EvidenceOf(sorted[i]), recs[i]);
    }
    assert recs == sorted;
  }

  // ---------- revalidation ----------

  /** The Git branch of `revalidate_source_identity` on an unmoving tree. */
  predicate Revalidates(w: World, c: Captured) {
    match (c.token.listing, ListingOf(w.raw, w.untracked))
    case (Some(held), Ok(now)) =>
      && w.head == Ok(c.token.head) && c.token.head == c.identity.head
      && Filtered(now.0, now.1).Ok? && Filtered(now.0, now.1) == Filtered(held.0, held.1)
      && Reproduces(LiveRecords(w.fs, now.0, now.1), c)
    case _ => false
  }

  /** Reading the tree again gave the token's evidence and the identity's fingerprint. */
  predicate Reproduces(recs: Result<seq<Record>, Error>, c: Captured) {
    recs.Ok? && Evidences(recs.value) == c.token.evidence && SourceBytes(GIT_MODEL, recs.value).Ok?
    && c.identity.fingerprint == Fingerprint(GIT_MODEL, Sha256(SourceBytes(GIT_MODEL, recs.value).value))
  }

  /** What an accepting revalidation read, and when. */
  datatype Recheck = Recheck(head0: nat, raw0: nat, untracked0: nat, times: seq<nat>, recs: seq<Record>,
                             raw1: nat, untracked1: nat, head1: nat)

  /** The comparisons it makes, over the values read at those instants. */
  ghost predicate Rechecks(worlds: nat -> World, lo: nat, hi: nat, at: Recheck, c: Captured) {
    && lo <= at.head0 <= at.raw0 <= at.untracked0 <= at.raw1 <= at.untracked1 <= at.head1 <= hi
    && worlds(at.head0).head == Ok(c.token.head) == worlds(at.head1).head && c.token.head == c.identity.head
    && c.token.listing.Some?
    && SameProjection(worlds, at.raw0, at.untracked0, c.token.listing.value)
    && SameProjection(worlds, at.raw1, at.untracked1, c.token.listing.value)
    && Reads(worlds, PlansOf(c), at.untracked0, at.raw1, at.times, at.recs)
    && Reproduces(Ok(at.recs), c)
  }

  /** The listing of a moment projects like the one held. */
  ghost predicate SameProjection(worlds: nat -> World, raw: nat, untracked: nat, held: (bytes, bytes)) {
    var now := ListingOf(worlds(raw).raw, worlds(untracked).untracked);
    now.Ok? && Filtered(now.value.0, now.value.1).Ok? && Filtered(now.value.0, now.value.1) == Filtered(held.0, held.1)
  }

  /** Everything a revalidation reads. */
  datatype Taken = Taken(head0: bytes, before: (bytes, bytes), evidence: seq<Evidence>, fed: bytes,
                         after: (bytes, bytes), head1: bytes)

  ghost predicate TakenAt(worlds: nat -> World, lo: nat, hi: nat, at: Recheck, k: Taken) {
    && lo <= at.head0 <= at.raw0 <= at.untracked0 <= at.raw1 <= at.untracked1 <= at.head1 <= hi
    && worlds(at.head0).head == Ok(k.head0) && worlds(at.head1).head == Ok(k.head1)
    && ListingOf(worlds(at.raw0).raw, worlds(at.untracked0).untracked) == Ok(k.before)
    && ListingOf(worlds(at.raw1).raw, worlds(at.untracked1).untracked) == Ok(k.after)
    && SortedPlans(k.before.0, k.before.1).Ok?
    && Reads(worlds, SortedPlans(k.before.0, k.before.1).value, at.untracked0, at.raw1, at.times, at.recs)
    && k.evidence == Evidences(at.recs) && SourceBytes(GIT_MODEL, at.recs) == Ok(k.fed)
  }

  /** The reads of `revalidate_source_identity`, in its order. */
  method TakeAgain(env: Environment) returns (r: Result<Taken, Error>, ghost at: Recheck)
    modifies env`now
    ensures old(env.now) <= env.now
    ensures r.Ok? ==> TakenAt(env.worlds, old(env.now), env.now, at, r.value)
    ensures r.Err? && Still(env.worlds, old(env.now), env.now) ==> StaticCapture(env.worlds(old(env.now))).Err?
  {
    ghost var start := env.now;
    at := Recheck(0, 0, 0, [], [], 0, 0, 0);
    var head0, atHead0 := env.Head();
    if head0.Err? {
      return Err(head0.error), at;
    }
    var before, raw0, unt0 := env.Listing();
    if before.Err? {
      return Err(before.error), at;
    }
    var plans := ParseListing(before.value.0, before.value.1);
    if plans.Err? {
      return Err(plans.error), at;
    }
    ghost var reading := env.now;
    var sink := new DigestSink(GIT_MODEL);
    var evidence, cache, times, recs := ParsePass(env, plans.value, map[], sink, true);
    ghost var read := env.now;
    if evidence.Err? {
      if Still(env.worlds, start, env.now) {
        StillFails(env.worlds, start, plans.value, reading, read, true);
      }
      return Err(evidence.error), at;
    }
    var after, raw1, unt1 := env.Listing();
    if after.Err? {
      return Err(after.error), at;
    }
    var head1, atHead1 := env.Head();
    if head1.Err? {
      return Err(head1.error), at;
    }
    ReadsWiden(env.worlds, plans.value, reading, read, times, recs, unt0, raw1);
    at := Recheck(atHead0, raw0, unt0, times, recs, raw1, unt1, atHead1);
    r := Ok(Taken(head0.value, before.value, evidence.value, sink.fed, after.value, head1.value));
  }

  /** What the comparisons make of it. */
  predicate Agrees(k: Taken, c: Captured) {
    && c.token.listing.Some?
    && k.head0 == k.head1 == c.token.head && c.token.head == c.identity.head
    && Filtered(k.before.0, k.before.1).Ok?
    && Filtered(k.before.0, k.before.1) == Filtered(k.after.0, k.after.1)
    && Filtered(k.before.0, k.before.1) == Filtered(c.token.listing.value.0, c.token.listing.value.1)
    && k.evidence == c.token.evidence && c.identity.fingerprint == Fingerprint(GIT_MODEL, Sha256(k.fed))
  }

  lemma AgreedIsRechecked(worlds: nat -> World, lo: nat, hi: nat, at: Recheck, k: Taken, c: Captured)
    requires TakenAt(worlds, lo, hi, at, k) && Agrees(k, c)
    ensures Rechecks(worlds, lo, hi, at, c)
  {
    var held := c.token.listing.value;
    SaipenNoninterference(k.before.0, k.before.1, held.0, held.1);
  }

  lemma StillTaken(worlds: nat -> World, lo: nat, hi: nat, at: Recheck, k: Taken, c: Captured)
    requires TakenAt(worlds, lo, hi, at, k) && Still(worlds, lo, hi)
    ensures Agrees(k, c) <==> Revalidates(worlds(lo), c)
  {
    StillShorter(worlds, lo, hi, at.raw1);
    StillReads(worlds, lo, SortedPlans(k.before.0, k.before.1).value, at.untracked0, at.raw1, at.times, at.recs);
    assert worlds(at.raw0) == worlds(at.untracked0) == worlds(at.raw1) == worlds(at.untracked1) == worlds(lo);
    assert worlds(at.head0) == worlds(at.head1) == worlds(lo);
    assert k.before == k.after;
    assert LiveRecords(worlds(lo).fs, k.before.0, k.before.1) == Ok(at.recs);
  }

  lemma RevalidatedIsCaptured(w: World, c: Captured)
    requires Revalidates(w, c)
    ensures StaticCapture(w).Ok?
  {
  }

  /** The Git branch of `revalidate_source_identity`: any error is a refusal, and acceptance means
      that every comparison held, whatever moved meanwhile. */
  method Revalidate(env: Environment, c: Captured) returns (accepted: bool, ghost at: Recheck)
    modifies env`now
    ensures old(env.now) <= env.now
    ensures accepted ==> Rechecks(env.worlds, old(env.now), env.now, at, c)
    ensures Still(env.worlds, old(env.now), env.now) ==> (accepted <==> Revalidates(env.worlds(old(env.now)), c))
  {
    ghost var start := env.now;
    at := Recheck(0, 0, 0, [], [], 0, 0, 0);
    if c.token.listing.None? {
      return false, at;
    }
    var taken;
    taken, at := TakeAgain(env);
    if taken.Err? {
      if Revalidates(env.worlds(start), c) {
        RevalidatedIsCaptured(env.worlds(start), c);
      }
      return false, at;
    }
    var k, held := taken.value, c.token.listing.value;
    var f0 := FilteredListing(k.before.0, k.before.1);
    var f1 := FilteredListing(k.after.0, k.after.1);
    var f2 := FilteredListing(held.0, held.1);
    accepted := f0.Ok? && f1.Ok? && f2.Ok?
                && k.head0 == k.head1 == c.token.head && c.token.head == c.identity.head
                && f0 == f1 && f0 == f2 && k.evidence == c.token.evidence
                && c.identity.fingerprint == Fingerprint(GIT_MODEL, Sha256(k.fed));
    assert accepted <==> Agrees(k, c);
    if accepted {
      AgreedIsRechecked(env.worlds, start, env.now, at, k, c);
    }
    if Still(env.worlds, start, env.now) {
      StillTaken(env.worlds, start, env.now, at, k, c);
    }
  }

  // ---------- the time between capture and revalidation ----------

  /** The two halves of a listing, outside `.saipen`. */
  function KeptRaw(w: World): Result<seq<bytes>, Error> {
    match w.raw
    case Err(e) => Err(e)
    case Ok(raw) => KeepDelta(Split(raw, 0))
  }

  function KeptUntracked(w: World): Result<seq<bytes>, Error> {
    match w.untracked
    case Err(e) => Err(e)
    case Ok(untracked) => Ok(KeepPaths(Split(untracked, 0)))
  }

  /** Of what revalidation compares, nothing is the same before and after while differing in
      between. */
  ghost predicate SourceUnreturning(a: World, b: World, c: World, plans: Plans) {
    && (a.head == c.head ==> b.head == a.head)
    && (KeptRaw(a) == KeptRaw(c) ==> KeptRaw(b) == KeptRaw(a))
    && (KeptUntracked(a) == KeptUntracked(c) ==> KeptUntracked(b) == KeptUntracked(a))
    && (forall p :: p in plans ==> PlaceSteady(a, b, c, p))
  }

  ghost predicate SourceNeverReturns(worlds: nat -> World, plans: Plans, lo: nat, hi: nat) {
    forall i, j, k :: lo <= i <= j <= k <= hi ==> SourceUnreturning(worlds(i), worlds(j), worlds(k), plans)
  }

  lemma ProjectionHalves(raw: bytes, untracked: bytes, held: (bytes, bytes))
    requires Filtered(raw, untracked).Ok?
    ensures Filtered(raw, untracked) == Filtered(held.0, held.1) <==>
              KeepDelta(Split(raw, 0)) == KeepDelta(Split(held.0, 0)) && KeepPaths(Split(untracked, 0)) == KeepPaths(Split(held.1, 0))
  {
  }

  /** The listing in force at an instant between two that project alike projects alike. */
  lemma ProjectionSettles(worlds: nat -> World, plans: Plans, lo: nat, t: nat, hi: nat, held: (bytes, bytes),
                          raw: nat, untracked: nat, raw': nat, untracked': nat)
    requires SourceNeverReturns(worlds, plans, lo, hi)
    requires lo <= raw <= t && lo <= untracked <= t && t <= raw' <= hi && t <= untracked' <= hi
    requires worlds(raw).raw == Ok(held.0) && worlds(untracked).untracked == Ok(held.1)
    requires SameProjection(worlds, raw', untracked', held)
    ensures SameProjection(worlds, t, t, held)
  {
    var now := ListingOf(worlds(raw').raw, worlds(untracked').untracked).value;
    ProjectionHalves(now.0, now.1, held);
    assert SourceUnreturning(worlds(raw), worlds(t), worlds(raw'), plans);
    assert SourceUnreturning(worlds(untracked), worlds(t), worlds(untracked'), plans);
    assert worlds(t).raw.Ok? && worlds(t).untracked.Ok?;
    ProjectionHalves(worlds(t).raw.value, worlds(t).untracked.value, held);
  }

  /** Records read before an instant and again after it are the records at it. */
  lemma RecordsSettle(worlds: nat -> World, plans: Plans, recs: seq<Record>, lo: nat, from: nat, t: nat, to: nat, hi: nat,
                      before: seq<nat>, after: seq<nat>)
    requires SourceNeverReturns(worlds, plans, lo, hi) && lo <= from <= t <= to <= hi
    requires Reads(worlds, plans, lo, from, before, recs) && Reads(worlds, plans, to, hi, after, recs)
    ensures PlanRecords(worlds(t).fs, plans) == Ok(recs)
  {
    forall i | 0 <= i < |plans| ensures PlanRecord(worlds(t).fs, plans[i]) == Ok(recs[i]) {
      assert SourceUnreturning(worlds(before[i]), worlds(t), worlds(after[i]), plans) && plans[i] in plans;
      RecordSettles(worlds(before[i]), worlds(t), worlds(after[i]), plans[i], recs[i]);
    }
    PlanRecordsPointwise(worlds(t).fs, plans);
    assert PlanRecords(worlds(t).fs, plans).value == recs;
  }

  /** What the capture read last: its third listing, its second head, its confirming pass. */
  ghost predicate CapturedBefore(worlds: nat -> World, lo: nat, captured: nat, seen: Seen) {
    var tr := seen.trace;
    lo <= tr.head0 <= tr.raw2 <= tr.untracked2 <= tr.head1 <= tr.end <= captured
    && worlds(tr.head0).head == Ok(seen.head)
    && worlds(tr.raw2).raw == Ok(seen.listing.0) && worlds(tr.untracked2).untracked == Ok(seen.listing.1)
    && Reads(worlds, seen.plans, tr.head1, tr.end, tr.third, seen.recs)
    && SortedPlans(seen.listing.0, seen.listing.1) == Ok(seen.plans)
  }

  lemma ExplainedBefore(worlds: nat -> World, lo: nat, captured: nat, seen: Seen, c: Captured)
    requires Explains(worlds, lo, captured, seen, c) && seen.trace.end <= captured
    ensures CapturedBefore(worlds, lo, captured, seen)
  {
  }

  /** What the revalidation read first: its head, its listing, its pass. */
  ghost predicate RecheckedAfter(worlds: nat -> World, from: nat, hi: nat, at: Recheck, seen: Seen) {
    from <= at.head0 <= at.raw0 <= at.untracked0 <= at.raw1 <= hi
    && worlds(at.head0).head == Ok(seen.head) && SameProjection(worlds, at.raw0, at.untracked0, seen.listing)
    && Reads(worlds, seen.plans, at.untracked0, at.raw1, at.times, seen.recs)
  }

  lemma RechecksAfter(worlds: nat -> World, from: nat, hi: nat, at: Recheck, seen: Seen, c: Captured)
    requires Rechecks(worlds, from, hi, at, c)
    requires c.token.listing == Some(seen.listing) && c.token.head == seen.head && PlansOf(c) == seen.plans && at.recs == seen.recs
    ensures RecheckedAfter(worlds, from, hi, at, seen)
  {
  }

  lemma LinkedReads(worlds: nat -> World, lo: nat, captured: nat, seen: Seen, c: Captured, from: nat, hi: nat, at: Recheck)
    requires Explains(worlds, lo, captured, seen, c) && Rechecks(worlds, from, hi, at, c)
    ensures CapturedBefore(worlds, lo, captured, seen) && RecheckedAfter(worlds, from, hi, at, seen)
    ensures Fingerprinted(seen.head, seen.listing.0, seen.listing.1, seen.recs) == Ok(c)
  {
    ExplainedPlans(worlds, lo, captured, seen, c);
    CaptureOfExplained(worlds, lo, captured, seen, c, at.recs);
    EvidencesSeparate(seen.recs, at.recs);
    ExplainedBefore(worlds, lo, captured, seen, c);
    RechecksAfter(worlds, from, hi, at, seen, c);
  }

  /** Acceptance reaches back: if nothing compared returned to an earlier value since the capture
      began, then at every instant from the end of the capture to the start of the revalidation a
      still capture would have given the accepted identity. */
  lemma UnchangedThroughout(worlds: nat -> World, lo: nat, captured: nat, seen: Seen, c: Captured,
                            from: nat, hi: nat, at: Recheck, t: nat)
    requires Explains(worlds, lo, captured, seen, c) && Rechecks(worlds, from, hi, at, c)
    requires captured <= t <= from && SourceNeverReturns(worlds, seen.plans, lo, hi)
    ensures StaticCapture(worlds(t)).Ok? && StaticCapture(worlds(t)).value.identity == c.identity
  {
    LinkedReads(worlds, lo, captured, seen, c, from, hi, at);
    ListingBetween(worlds, lo, captured, seen, from, hi, at, t);
    RecordsBetween(worlds, lo, captured, seen, from, hi, at, t);
    CaptureOf(worlds(t), seen, c);
  }

  lemma ListingBetween(worlds: nat -> World, lo: nat, captured: nat, seen: Seen, from: nat, hi: nat, at: Recheck, t: nat)
    requires CapturedBefore(worlds, lo, captured, seen) && RecheckedAfter(worlds, from, hi, at, seen)
    requires captured <= t <= from && SourceNeverReturns(worlds, seen.plans, lo, hi)
    ensures worlds(t).head == Ok(seen.head)
    ensures var now := ListingOf(worlds(t).raw, worlds(t).untracked);
            now.Ok? && SortedPlans(now.value.0, now.value.1) == Ok(seen.plans)
  {
    var tr, held := seen.trace, seen.listing;
    ProjectionSettles(worlds, seen.plans, lo, t, hi, held, tr.raw2, tr.untracked2, at.raw0, at.untracked0);
    var now := ListingOf(worlds(t).raw, worlds(t).untracked).value;
    SaipenNoninterference(now.0, now.1, held.0, held.1);
    assert SourceUnreturning(worlds(tr.head0), worlds(t), worlds(at.head0), seen.plans);
  }

  lemma RecordsBetween(worlds: nat -> World, lo: nat, captured: nat, seen: Seen, from: nat, hi: nat, at: Recheck, t: nat)
    requires CapturedBefore(worlds, lo, captured, seen) && RecheckedAfter(worlds, from, hi, at, seen)
    requires captured <= t <= from && SourceNeverReturns(worlds, seen.plans, lo, hi)
    ensures PlanRecords(worlds(t).fs, seen.plans) == Ok(seen.recs)
  {
    var tr := seen.trace;
    ReadsWiden(worlds, seen.plans, tr.head1, tr.end, tr.third, seen.recs, lo, captured);
    ReadsWiden(worlds, seen.plans, at.untracked0, at.raw1, at.times, seen.recs, from, hi);
    RecordsSettle(worlds, seen.plans, seen.recs, lo, captured, t, from, hi, tr.third, at.times);
  }

  lemma CaptureOf(w: World, seen: Seen, c: Captured)
    requires w.head == Ok(seen.head) && ListingOf(w.raw, w.untracked).Ok?
    requires var now := ListingOf(w.raw, w.untracked).value; SortedPlans(now.0, now.1) == Ok(seen.plans)
    requires PlanRecords(w.fs, seen.plans) == Ok(seen.recs)
    requires var f := Fingerprinted(seen.head, seen.listing.0, seen.listing.1, seen.recs); f.Ok? && c == f.value
    ensures StaticCapture(w).Ok? && StaticCapture(w).value.identity == c.identity
  {
    var now := ListingOf(w.raw, w.untracked).value;
    assert LiveRecords(w.fs, now.0, now.1) == Ok(seen.recs);
  }

  /** A revalidated identity is not bound to anything, and holds the evidence of its capture. */
  lemma CaptureOfExplained(worlds: nat -> World, lo: nat, hi: nat, seen: Seen, c: Captured, recs: seq<Record>)
    requires Explains(worlds, lo, hi, seen, c) && Reproduces(Ok(recs), c)
    ensures c.token.evidence == Evidences(seen.recs) && c.token.head == seen.head && c.token.listing == Some(seen.listing)
    ensures seen.binding == [] && Fingerprinted(seen.head, seen.listing.0, seen.listing.1, seen.recs) == Ok(c)
    ensures seen.trace.end <= hi
  {
    var t :| seen.trace.end <= t <= hi && worlds(t).nested == Ok(seen.binding);
  }

  /** Acceptance says: captured afresh, this tree has the accepted identity, before any nested
      repository is bound into it. */
  lemma RevalidationMeansFresh(w: World, c: Captured)
    requires Revalidates(w, c) && c.identity.model == GIT_MODEL
    ensures StaticCapture(w).Ok? && StaticCapture(w).value.identity == c.identity
  {
  }

  /** A full fresh capture then reproduces the accepted identity exactly when the tree binds no
      nested repository: the check never looks at the binding. */
  lemma RevalidationIsBlindToNested(w: World, c: Captured)
    requires Revalidates(w, c) && c.identity.model == GIT_MODEL && w.nested.Ok?
    ensures Bound(StaticCapture(w).value, w.nested.value).identity == c.identity <==> w.nested.value == []
  {
    RevalidationMeansFresh(w, c);
    var f := c.identity.fingerprint;
    assert f.digest.Sha256?;
  }

  /** An empty delta under HEAD "h", captured without nested repositories and revalidated after
      one has been declared: accepted, although a fresh capture names another identity. */
  lemma StaleAcceptance()
    ensures var w0 := World(Ok([104]), Ok([]), Ok([]), map[], Ok([]));
            var w1 := w0.(nested := Ok([7]));
            StaticCapture(w0).Ok?
            && Revalidates(w1, Bound(StaticCapture(w0).value, []))
            && Bound(StaticCapture(w1).value, [7]).identity != Bound(StaticCapture(w0).value, []).identity
  {
    var w0 := World(Ok([104]), Ok([]), Ok([]), map[], Ok([]));
    assert Split([], 0) == [[]];
    assert SortedPlans([], []) == Ok([]);
    assert LiveRecords(map[], [], []) == Ok([]);
    assert Filtered([], []).Ok?;
  }

  /** An identity that binds a nested repository is refused on every tree. */
  lemma BoundNeverRevalidates(w0: World, binding: bytes, w: World)
    requires StaticCapture(w0).Ok? && binding != []
    ensures !Revalidates(w, Bound(StaticCapture(w0).value, binding))
  {
  }

  lemma {:induction false} DeltaPlansPlain(fields: seq<bytes>, d: Plans)
    requires DistinctKeys(d) && (forall q :: q in d ==> !IsSaipen(q.key)) && DeltaPlans(fields, d).Ok?
    ensures DistinctKeys(DeltaPlans(fields, d).value)
    ensures forall q :: q in DeltaPlans(fields, d).value ==> !IsSaipen(q.key)
    decreases |fields|
  {
    if fields != [] && fields[0] != [] {
      if IsSaipen(fields[1]) {
        DeltaPlansPlain(fields[2..], d);
      } else {
        var p := HeaderPlan(fields[0], fields[1]).value;
        PutKeepsPlain(d, fields[1], p);
        DeltaPlansPlain(fields[2..], Put(d, fields[1], p));
      }
    }
  }

  /** No planned path lies in `.saipen`. */
  lemma PlansArePlain(raw: bytes, untracked: bytes)
    requires SortedPlans(raw, untracked).Ok?
    ensures forall i :: 0 <= i < |SortedPlans(raw, untracked).value| ==>
              !IsSaipen(SortedPlans(raw, untracked).value[i].key)
  {
    DeltaPlansPlain(Split(raw, 0), []);
    var d := DeltaPlans(Split(raw, 0), []).value;
    var all := UntrackedPlans(Split(untracked, 0), d);
    var sorted := SortBy(all, KeyOf<Plan>);
    forall i | 0 <= i < |sorted| ensures !IsSaipen(sorted[i].key) {
      SortIsPermutation(all, KeyOf<Plan>);
      assert sorted[i] in multiset(all);
      UntrackedMembers(Split(untracked, 0), d, sorted[i]);
    }
  }

  lemma {:induction false} StripKeepsPlain(path: bytes)
    requires !IsSaipen(path)
    ensures !IsSaipen(StripSlashes(path))
  {
    if path != [] && path[|path| - 1] == 47 {
      var front := path[..|path| - 1];
      assert path == front + [47];
      StripKeepsPlain(front);
    }
  }

  /** The two file systems agree outside `.saipen`. */
  ghost predicate SameSource(a: FileSystem, b: FileSystem) {
    forall p :: !IsSaipen(p) ==> At(a, p) == At(b, p)
  }

  lemma {:induction false} SamePlanRecords(a: FileSystem, b: FileSystem, plans: Plans)
    requires SameSource(a, b) && forall i :: 0 <= i < |plans| ==> !IsSaipen(plans[i].key)
    ensures PlanRecords(a, plans) == PlanRecords(b, plans)
  {
    if plans != [] {
      StripKeepsPlain(plans[0].key);
      SamePlanRecords(a, b, plans[1..]);
    }
  }

  /** Completeness: an identity captured with an empty binding is accepted on every later tree
      with the same HEAD, the same projected listing and the same source, whatever happened
      inside `.saipen`. */
  lemma UnchangedTreeRevalidates(w0: World, w: World)
    requires StaticCapture(w0).Ok? && w.head == w0.head && SameSource(w0.fs, w.fs)
    requires ListingOf(w.raw, w.untracked).Ok?
    requires var a, b := ListingOf(w0.raw, w0.untracked).value, ListingOf(w.raw, w.untracked).value;
             Filtered(a.0, a.1) == Filtered(b.0, b.1)
    ensures Revalidates(w, Bound(StaticCapture(w0).value, []))
  {
    var a, b := ListingOf(w0.raw, w0.untracked).value, ListingOf(w.raw, w.untracked).value;
    if Filtered(a.0, a.1).Err? {
      FilterErrorIsParseError(a.0, a.1);
    }
    SaipenNoninterference(a.0, a.1, b.0, b.1);
    PlansArePlain(a.0, a.1);
    SamePlanRecords(w0.fs, w.fs, SortedPlans(a.0, a.1).value);
  }
}
