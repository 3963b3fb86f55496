/** The identity a capture yields (tools/freshness.py `_git_identity`), the instant it is the
    identity of, and what it is on an unmoving tree. */
module Identity {
  import opened Outcome
  import opened ByteStrings
  import opened Framing
  import opened Dicts
  import opened GitDelta
  import opened Capture

  /** `_parse_git_delta_evidence` after its parsing loops: observers and short lists take the
      sequential loop. */
  method ParsePass(env: Environment, plans: Plans, cache: map<bytes, bytes>, sink: DigestSink?, parallel: bool)
    returns (r: Result<seq<Evidence>, Error>, filled: map<bytes, bytes>, ghost times: seq<nat>, ghost recs: seq<Record>)
    requires CacheValid(cache)
    modifies env`now, if sink == null then {} else {sink}
    ensures old(env.now) <= env.now && CacheValid(filled)
    ensures r.Ok? ==> Reads(env.worlds, plans, old(env.now), env.now, times, recs) && r.value == Evidences(recs)
    ensures r.Ok? && sink != null ==> Frames(recs).Ok? && sink.fed == old(sink.fed) + Frames(recs).value
    ensures r.Err? ==> ReadFails(env.worlds, plans, old(env.now), env.now, sink != null)
  {
    if sink != null || !parallel || |plans| < 2 {
      r, filled, times, recs := SequentialPass(env, plans, cache, sink);
    } else {
      r, filled, times, recs := SlotPass(env, plans, cache);
    }
  }

  datatype SourceIdentity = SourceIdentity(head: bytes, fingerprint: Fingerprint, model: bytes)

  /** The revalidation token, without the root it is bound to. */
  datatype Token = Token(model: bytes, head: bytes, listing: Option<(bytes, bytes)>, evidence: seq<Evidence>)

  datatype Captured = Captured(identity: SourceIdentity, token: Token)

  /** The capture of these records under this head and listing, before any nested binding. */
  function Fingerprinted(head: bytes, raw: bytes, untracked: bytes, recs: seq<Record>): Result<Captured, Error> {
    match SourceBytes(GIT_MODEL, recs)
    case Err(e) => Err(BadFrame(e))
    case Ok(b) =>
      Ok(Captured(SourceIdentity(head, Fingerprint(GIT_MODEL, Sha256(b)), GIT_MODEL),
                  Token(GIT_MODEL, head, Some((raw, untracked)), Evidences(recs))))
  }

  /** What a world that holds still is captured as. */
  function StaticCapture(w: World): Result<Captured, Error> {
    match (w.head, ListingOf(w.raw, w.untracked))
    case (Ok(head), Ok(listing)) =>
      (match LiveRecords(w.fs, listing.0, listing.1)
       case Err(e) => Err(e)
       case Ok(recs) => Fingerprinted(head, listing.0, listing.1, recs))
    case (Err(e), _) => Err(e)
    case (_, Err(e)) => Err(e)
  }

  function Bound(c: Captured, binding: bytes): Captured {
    c.(identity := c.identity.(fingerprint := Bind(c.identity.fingerprint, binding)))
  }

  /** The instants at which an accepting capture read what it read. */
  datatype Trace = Trace(
    head0: nat, raw0: nat, untracked0: nat, first: seq<nat>,
    raw1: nat, untracked1: nat, second: seq<nat>,
    raw2: nat, untracked2: nat, head1: nat, third: seq<nat>, end: nat)

  ghost predicate Ordered(tr: Trace) {
    tr.head0 <= tr.raw0 <= tr.untracked0 <= tr.raw1 <= tr.untracked1 <= tr.raw2 <= tr.untracked2 <= tr.head1 <= tr.end
  }

  /** The comparisons `_git_identity` makes, over the values read along `tr`. */
  ghost predicate Accepts(worlds: nat -> World, tr: Trace, head: bytes, raw: bytes, untracked: bytes,
                          plans: Plans, recs: seq<Record>)
  {
    && Ordered(tr)
    && worlds(tr.head0).head == Ok(head) == worlds(tr.head1).head
    && worlds(tr.raw0).raw == Ok(raw) == worlds(tr.raw1).raw == worlds(tr.raw2).raw
    && worlds(tr.untracked0).untracked == Ok(untracked) == worlds(tr.untracked1).untracked
    && worlds(tr.untracked2).untracked == Ok(untracked)
    && SortedPlans(raw, untracked) == Ok(plans)
    && Reads(worlds, plans, tr.untracked0, tr.raw1, tr.first, recs)
    && Reads(worlds, plans, tr.untracked1, tr.raw2, tr.second, recs)
    && Reads(worlds, plans, tr.head1, tr.end, tr.third, recs)
  }

  // ---------- the single instant ----------

  /** What stands at a path, its permission bit forgotten. */
  function Body(n: Node): Node {
    if n.File? then n.(executable := false) else n
  }

  /** What stands at a place, and its content alone, are not the same before and after while
      differing in between. */
  predicate Steady(a: Node, b: Node, c: Node) {
    (a == c ==> b == a) && (Body(a) == Body(c) ==> Body(b) == Body(a))
  }

  predicate PlaceSteady(a: World, b: World, c: World, p: Pair<Plan>) {
    !p.value.deleted && Locate(p.key).Ok? ==>
      Steady(At(a.fs, Locate(p.key).value), At(b.fs, Locate(p.key).value), At(c.fs, Locate(p.key).value))
  }

  /** Nothing that the capture looks at is the same before and after while differing in between:
      not HEAD, not the untracked half of the listing, and not what stands at a listed path. */
  ghost predicate Unreturning(a: World, b: World, c: World, plans: Plans) {
    && (a.head == c.head ==> b.head == a.head)
    && (a.untracked == c.untracked ==> b.untracked == a.untracked)
    && (forall p :: p in plans ==> PlaceSteady(a, b, c, p))
  }

  ghost predicate NeverReturns(worlds: nat -> World, plans: Plans, lo: nat, hi: nat) {
    forall i, j, k :: lo <= i <= j <= k <= hi ==> Unreturning(worlds(i), worlds(j), worlds(k), plans)
  }

  /** A plan recorded alike before and after is recorded alike in between. */
  lemma RecordSettles(a: World, b: World, c: World, p: Pair<Plan>, r: Record)
    requires PlaceSteady(a, b, c, p)
    requires PlanRecord(a.fs, p) == Ok(r) == PlanRecord(c.fs, p)
    ensures PlanRecord(b.fs, p) == Ok(r)
  {
    if !p.value.deleted {
      var place := Locate(p.key).value;
      var x, y, z := At(a.fs, place), At(b.fs, place), At(c.fs, place);
      if x.File? && p.value.newMode != 0 {
        assert Body(x) == Body(z);
      } else {
        assert x == z;
      }
    }
  }

  /** A pass before an instant and an equal pass after it fix every plan's record at it. */
  lemma ReadsSettle(worlds: nat -> World, plans: Plans, recs: seq<Record>, lo: nat, at: nat, hi: nat,
                    before: seq<nat>, after: seq<nat>)
    requires NeverReturns(worlds, plans, lo, hi) && lo <= at <= hi
    requires Reads(worlds, plans, lo, at, before, recs) && Reads(worlds, plans, at, hi, after, recs)
    ensures PlanRecords(worlds(at).fs, plans) == Ok(recs)
  {
    forall i | 0 <= i < |plans| ensures PlanRecord(worlds(at).fs, plans[i]) == Ok(recs[i]) {
      assert Unreturning(worlds(before[i]), worlds(at), worlds(after[i]), plans) && plans[i] in plans;
      RecordSettles(worlds(before[i]), worlds(at), worlds(after[i]), plans[i], recs[i]);
    }
    PlanRecordsPointwise(worlds(at).fs, plans);
    assert PlanRecords(worlds(at).fs, plans).value == recs;
  }

  lemma NeverReturnsWithin(worlds: nat -> World, plans: Plans, lo: nat, hi: nat, lo': nat, hi': nat)
    requires NeverReturns(worlds, plans, lo, hi) && lo <= lo' && hi' <= hi
    ensures NeverReturns(worlds, plans, lo', hi')
  {
    forall i, j, k | lo' <= i <= j <= k <= hi' ensures Unreturning(worlds(i), worlds(j), worlds(k), plans) {
    }
  }

  lemma ReadsWiden(worlds: nat -> World, plans: Plans, lo: nat, hi: nat, times: seq<nat>, recs: seq<Record>,
                   lo': nat, hi': nat)
    requires Reads(worlds, plans, lo, hi, times, recs) && lo' <= lo && hi <= hi'
    ensures Reads(worlds, plans, lo', hi', times, recs)
  {
  }

  lemma ListingSettles(worlds: nat -> World, tr: Trace, head: bytes, raw: bytes, untracked: bytes,
                       plans: Plans, recs: seq<Record>)
    requires Accepts(worlds, tr, head, raw, untracked, plans, recs)
    requires NeverReturns(worlds, plans, tr.head0, tr.end)
    ensures var w := worlds(tr.raw1); w.head == Ok(head) && w.raw == Ok(raw) && w.untracked == Ok(untracked)
  {
    assert Unreturning(worlds(tr.head0), worlds(tr.raw1), worlds(tr.head1), plans);
    assert Unreturning(worlds(tr.untracked0), worlds(tr.raw1), worlds(tr.untracked1), plans);
  }

  /** Atomic snapshot: an accepted capture is exactly the static capture of the world as it
      stood when the middle listing was taken. */
  lemma AtomicSnapshot(worlds: nat -> World, tr: Trace, head: bytes, raw: bytes, untracked: bytes,
                       plans: Plans, recs: seq<Record>)
    requires Accepts(worlds, tr, head, raw, untracked, plans, recs)
    requires NeverReturns(worlds, plans, tr.head0, tr.end)
    ensures StaticCapture(worlds(tr.raw1)) == Fingerprinted(head, raw, untracked, recs)
  {
    ListingSettles(worlds, tr, head, raw, untracked, plans, recs);
    ReadsWiden(worlds, plans, tr.untracked1, tr.raw2, tr.second, recs, tr.raw1, tr.raw2);
    NeverReturnsWithin(worlds, plans, tr.head0, tr.end, tr.untracked0, tr.raw2);
    ReadsSettle(worlds, plans, recs, tr.untracked0, tr.raw1, tr.raw2, tr.first, tr.second);
    assert LiveRecords(worlds(tr.raw1).fs, raw, untracked) == Ok(recs);
  }

  /** Two untracked files whose contents are exchanged at every tick. */
  function Flickering(t: nat): World {
    var even := t % 2 == 0;
    World(Ok([104]), Ok([]), Ok([112, 0, 113, 0]),
          map[[112] := File(false, if even then [1] else [2]), [113] := File(false, if even then [2] else [1])],
          Ok([]))
  }

  const P_AND_Q: bytes := [112, 0, 113, 0]
  const FLICKER_PLANS: Plans := [Pair([112], UNTRACKED), Pair([113], UNTRACKED)]
  const FLICKER_RECORDS: seq<Record> :=
    [Record(KIND_FILE, [112], MODE_FILE, [1]), Record(KIND_FILE, [113], MODE_FILE, [1])]
  const FLICKER_TRACE: Trace := Trace(0, 0, 0, [2, 3], 4, 4, [4, 5], 6, 6, 6, [6, 7], 8)

  lemma FlickeringPlans()
    ensures SortedPlans([], P_AND_Q) == Ok(FLICKER_PLANS)
  {
    SplitSingle([], 0);
    SplitPrepend([113], [], 0);
    SplitPrepend([112], [113, 0], 0);
    assert [113] + [0] + [] == [113, 0] && [112] + [0] + [113, 0] == P_AND_Q;
    assert Split(P_AND_Q, 0) == [[112], [113], []];
    assert DeltaPlans([[]], []) == Ok([]);
    FlickeringDict();
    FlickeringOrder();
  }

  lemma FlickeringDict()
    ensures UntrackedPlans([[112], [113], []], []) == FLICKER_PLANS
  {
    var p: Plans := [Pair([112], UNTRACKED)];
    assert p[1..] == [];
    assert Put([], [112], UNTRACKED) == p && Put(p, [113], UNTRACKED) == FLICKER_PLANS;
    var paths: seq<bytes> := [[112], [113], []];
    assert paths[1..] == [[113], []] && paths[1..][1..] == [[]] && paths[1..][1..][1..] == [];
    assert UntrackedPlans(paths[1..][1..], FLICKER_PLANS) == FLICKER_PLANS;
    assert UntrackedPlans(paths[1..], p) == FLICKER_PLANS;
  }

  lemma FlickeringOrder()
    ensures SortBy(FLICKER_PLANS, KeyOf<Plan>) == FLICKER_PLANS
  {
    BelowAsymmetric([112], [113]);
    SortOfSorted(FLICKER_PLANS, KeyOf<Plan>);
  }

  lemma Plainly(path: bytes)
    requires |path| == 1 && path[0] !in [0, 46, 47]
    ensures Locate(path) == Ok(path)
  {
    SplitSingle(path, 47);
  }

  lemma FlickeringRecord(t: nat, i: nat)
    requires i < 2
    ensures PlanRecord(Flickering(t).fs, FLICKER_PLANS[i])
         == Ok(FLICKER_RECORDS[i].(content := if (t + i) % 2 == 0 then [1] else [2]))
  {
    Plainly(FLICKER_PLANS[i].key);
    assert FLICKER_PLANS[i].key == if i == 0 then [112] else [113];
  }

  lemma FlickeringReads(lo: nat, hi: nat, t: nat)
    requires lo <= t && t + 1 <= hi && t % 2 == 0
    ensures Reads(Flickering, FLICKER_PLANS, lo, hi, [t, t + 1], FLICKER_RECORDS)
  {
    FlickeringRecord(t, 0);
    FlickeringRecord(t + 1, 1);
  }

  lemma FlickeringLive(t: nat)
    ensures var live := LiveRecords(Flickering(t).fs, [], P_AND_Q); live.Ok? && live.value != FLICKER_RECORDS
  {
    FlickeringPlans();
    FlickeringRecord(t, 0);
    FlickeringRecord(t, 1);
    PlanRecordsPointwise(Flickering(t).fs, FLICKER_PLANS);
    var live := PlanRecords(Flickering(t).fs, FLICKER_PLANS);
    assert live.value[0].content != live.value[1].content;
  }

  lemma FingerprintsSeparate(head: bytes, raw: bytes, untracked: bytes, a: seq<Record>, b: seq<Record>)
    requires Fingerprinted(head, raw, untracked, b).Ok?
    requires Fingerprinted(head, raw, untracked, a) == Fingerprinted(head, raw, untracked, b)
    ensures a == b
  {
    EvidencesSeparate(a, b);
  }

  lemma FlickeringNever(t: nat)
    ensures StaticCapture(Flickering(t)) != Fingerprinted([104], [], P_AND_Q, FLICKER_RECORDS)
  {
    FlickeringLive(t);
    FlickeringFrames();
    var live := LiveRecords(Flickering(t).fs, [], P_AND_Q).value;
    assert StaticCapture(Flickering(t)) == Fingerprinted([104], [], P_AND_Q, live);
    if Fingerprinted([104], [], P_AND_Q, live) == Fingerprinted([104], [], P_AND_Q, FLICKER_RECORDS) {
      FingerprintsSeparate([104], [], P_AND_Q, live, FLICKER_RECORDS);
    }
  }

  lemma FlickeringFrames()
    ensures Fingerprinted([104], [], P_AND_Q, FLICKER_RECORDS).Ok?
  {
    var a, b := FLICKER_RECORDS[0], FLICKER_RECORDS[1];
    assert FLICKER_RECORDS == [a] + [b];
    FramesAppend([a], [b]);
    FramesSingle(a);
    FramesSingle(b);
  }

  /** Without that proviso the comparisons do not make a snapshot: a capture that finds both
      files holding [1] in all three passes is accepted, and no instant ever looked so. */
  lemma ReturningValuesDefeatTheCapture()
    ensures Accepts(Flickering, FLICKER_TRACE, [104], [], P_AND_Q, FLICKER_PLANS, FLICKER_RECORDS)
    ensures Fingerprinted([104], [], P_AND_Q, FLICKER_RECORDS).Ok?
    ensures forall t :: StaticCapture(Flickering(t)) != Fingerprinted([104], [], P_AND_Q, FLICKER_RECORDS)
  {
    FlickeringPlans();
    FlickeringReads(0, 4, 2);
    FlickeringReads(4, 6, 4);
    FlickeringReads(6, 8, 6);
    FlickeringFrames();
    forall t ensures StaticCapture(Flickering(t)) != Fingerprinted([104], [], P_AND_Q, FLICKER_RECORDS) {
      FlickeringNever(t);
    }
  }

  // ---------- the unmoving tree ----------

  ghost predicate Still(worlds: nat -> World, lo: nat, hi: nat) {
    forall t :: lo <= t <= hi ==> worlds(t) == worlds(lo)
  }

  /** On an unmoving tree both passes are the one-at-a-time loop: same success, same list. */
  lemma StillReads(worlds: nat -> World, start: nat, plans: Plans, lo: nat, hi: nat, times: seq<nat>, recs: seq<Record>)
    requires start <= lo <= hi && Still(worlds, start, hi)
    requires Reads(worlds, plans, lo, hi, times, recs)
    ensures PlanRecords(worlds(start).fs, plans) == Ok(recs)
  {
    forall i | 0 <= i < |plans| ensures PlanRecord(worlds(start).fs, plans[i]) == Ok(recs[i]) {
      assert worlds(times[i]) == worlds(start);
    }
    PlanRecordsPointwise(worlds(start).fs, plans);
    assert PlanRecords(worlds(start).fs, plans).value == recs;
  }

  lemma StillFails(worlds: nat -> World, start: nat, plans: Plans, lo: nat, hi: nat, framed: bool)
    requires start <= lo <= hi && Still(worlds, start, hi)
    requires ReadFails(worlds, plans, lo, hi, framed)
    ensures var all := PlanRecords(worlds(start).fs, plans); all.Err? || (framed && Frames(all.value).Err?)
  {
    var i, t :| 0 <= i < |plans| && lo <= t <= hi && PlanFails(worlds(t).fs, plans[i], framed);
    assert worlds(t) == worlds(start);
    PlanRecordsPointwise(worlds(start).fs, plans);
    var all := PlanRecords(worlds(start).fs, plans);
    if all.Ok? {
      FramesFailAt(all.value, i);
    }
  }

  lemma StillPart(worlds: nat -> World, start: nat, end: nat, t: nat)
    requires start <= t <= end && Still(worlds, start, end)
    ensures worlds(t) == worlds(start)
  {
  }

  /** The listing of one moment, or the error of Git or of the parser. */
  ghost predicate Parsed(worlds: nat -> World, atRaw: nat, atUntracked: nat, listing: (bytes, bytes), plans: Plans) {
    ListingOf(worlds(atRaw).raw, worlds(atUntracked).untracked) == Ok(listing)
    && SortedPlans(listing.0, listing.1) == Ok(plans)
  }

  /** No capture of a still tree is refused but for what makes its static capture fail. */
  ghost predicate Refused(worlds: nat -> World, lo: nat, hi: nat) {
    Still(worlds, lo, hi) ==> StaticCapture(worlds(lo)).Err? || worlds(lo).nested.Err?
  }

  lemma RefusedWithin(worlds: nat -> World, lo: nat, lo': nat, hi': nat, hi: nat)
    requires lo <= lo' <= hi' <= hi && Refused(worlds, lo', hi')
    ensures Refused(worlds, lo, hi)
  {
    if Still(worlds, lo, hi) {
      StillPart(worlds, lo, hi, lo');
      assert Still(worlds, lo', hi');
    }
  }

  /** When and what one sampling pass read. */
  datatype Sampling = Sampling(atRaw: nat, atUntracked: nat, plans: Plans, times: seq<nat>, recs: seq<Record>)

  /** A sampling pass: list, parse, and read everything once. */
  method Sample(env: Environment, cache: map<bytes, bytes>)
    returns (r: Result<((bytes, bytes), seq<Evidence>), Error>, filled: map<bytes, bytes>, ghost s: Sampling)
    requires CacheValid(cache)
    modifies env`now
    ensures old(env.now) <= s.atRaw <= s.atUntracked <= env.now && CacheValid(filled)
    ensures r.Ok? ==> Parsed(env.worlds, s.atRaw, s.atUntracked, r.value.0, s.plans)
                      && Reads(env.worlds, s.plans, s.atUntracked, env.now, s.times, s.recs)
                      && r.value.1 == Evidences(s.recs)
    ensures r.Err? ==> Refused(env.worlds, old(env.now), env.now)
  {
    filled := cache;
    ghost var start := env.now;
    var listing, atRaw, atUntracked := env.Listing();
    s := Sampling(atRaw, atUntracked, [], [], []);
    if listing.Err? {
      return Err(listing.error), filled, s;
    }
    var parsed := ParseListing(listing.value.0, listing.value.1);
    if parsed.Err? {
      return Err(parsed.error), filled, s;
    }
    var evidence;
    ghost var times, recs;
    evidence, filled, times, recs := ParsePass(env, parsed.value, cache, null, true);
    s := Sampling(atRaw, atUntracked, parsed.value, times, recs);
    if evidence.Err? {
      if Still(env.worlds, start, env.now) {
        StillPart(env.worlds, start, env.now, atRaw);
        StillPart(env.worlds, start, env.now, atUntracked);
        StillFails(env.worlds, start, parsed.value, atUntracked, env.now, false);
      }
      return Err(evidence.error), filled, s;
    }
    r := Ok((listing.value, evidence.value));
  }

  /** What an accepting capture saw, and when; the nested binding is read `before` the confirming
      pass and `after` it. */
  datatype Seen = Seen(trace: Trace, head: bytes, listing: (bytes, bytes), plans: Plans, recs: seq<Record>,
                       binding: bytes, before: nat, after: nat)

  ghost predicate Explains(worlds: nat -> World, lo: nat, hi: nat, seen: Seen, c: Captured) {
    && Accepts(worlds, seen.trace, seen.head, seen.listing.0, seen.listing.1, seen.plans, seen.recs)
    && lo <= seen.trace.head0
    && Fingerprinted(seen.head, seen.listing.0, seen.listing.1, seen.recs).Ok?
    && c == Bound(Fingerprinted(seen.head, seen.listing.0, seen.listing.1, seen.recs).value, seen.binding)
    && NestedAround(worlds, seen, hi)
  }

  /** Both readings of the nested binding agree, and the confirming pass lies between them. */
  ghost predicate NestedAround(worlds: nat -> World, seen: Seen, hi: nat) {
    && seen.trace.head1 <= seen.before <= seen.trace.end <= seen.after <= hi
    && worlds(seen.before).nested == Ok(seen.binding) == worlds(seen.after).nested
    && Reads(worlds, seen.plans, seen.before, seen.trace.end, seen.trace.third, seen.recs)
  }

  /** The nested repositories are not the same before and after while differing in between. */
  ghost predicate NestedNeverReturns(worlds: nat -> World, lo: nat, hi: nat) {
    forall i, j, k :: lo <= i <= j <= k <= hi ==> NestedUnreturning(worlds(i), worlds(j), worlds(k))
  }

  predicate NestedUnreturning(a: World, b: World, c: World) {
    a.nested == c.nested ==> b.nested == a.nested
  }

  /** `binding` is what the nested repositories were at every instant of a stretch of the run in which every
      changed path was read and found as in the identity. */
  ghost predicate BoundThrough(worlds: nat -> World, lo: nat, hi: nat, plans: Plans, binding: bytes, c: Captured) {
    exists from: nat, to: nat, times, recs :: BoundWhile(worlds, lo, hi, plans, binding, c, from, to, times, recs)
  }

  ghost predicate BoundWhile(worlds: nat -> World, lo: nat, hi: nat, plans: Plans, binding: bytes, c: Captured,
                             from: nat, to: nat, times: seq<nat>, recs: seq<Record>) {
    && lo <= from <= to <= hi && (forall t :: from <= t <= to ==> worlds(t).nested == Ok(binding))
    && Reads(worlds, plans, from, to, times, recs) && c.token.evidence == Evidences(recs)
  }

  lemma NestedSettles(worlds: nat -> World, lo: nat, hi: nat, from: nat, to: nat, binding: bytes)
    requires NestedNeverReturns(worlds, lo, hi) && lo <= from <= to <= hi
    requires worlds(from).nested == Ok(binding) == worlds(to).nested
    ensures forall t :: from <= t <= to ==> worlds(t).nested == Ok(binding)
  {
    forall t | from <= t <= to ensures worlds(t).nested == Ok(binding) {
      assert NestedUnreturning(worlds(from), worlds(t), worlds(to));
    }
  }

  lemma AroundIsBound(worlds: nat -> World, lo: nat, hi: nat, seen: Seen, c: Captured)
    requires NestedAround(worlds, seen, hi) && lo <= seen.before && c.token.evidence == Evidences(seen.recs)
    requires NestedNeverReturns(worlds, lo, hi)
    ensures BoundThrough(worlds, lo, hi, seen.plans, seen.binding, c)
  {
    NestedSettles(worlds, lo, hi, seen.before, seen.after, seen.binding);
    ReadsWiden(worlds, seen.plans, seen.before, seen.trace.end, seen.trace.third, seen.recs, seen.before, seen.after);
    assert BoundWhile(worlds, lo, hi, seen.plans, seen.binding, c, seen.before, seen.after, seen.trace.third, seen.recs);
  }

  lemma ExplainedIsAround(worlds: nat -> World, lo: nat, hi: nat, seen: Seen, c: Captured)
    requires Explains(worlds, lo, hi, seen, c)
    ensures NestedAround(worlds, seen, hi) && lo <= seen.before && c.token.evidence == Evidences(seen.recs)
  {
  }

  /** An accepted capture is bound to what the nested repositories were throughout its confirming pass. */
  lemma ExplainedIsBound(worlds: nat -> World, lo: nat, hi: nat, seen: Seen, c: Captured)
    requires Explains(worlds, lo, hi, seen, c)
    ensures NestedNeverReturns(worlds, lo, hi) ==> BoundThrough(worlds, lo, hi, seen.plans, seen.binding, c)
  {
    ExplainedIsAround(worlds, lo, hi, seen, c);
    if NestedNeverReturns(worlds, lo, hi) {
      AroundIsBound(worlds, lo, hi, seen, c);
    }
  }

  /** The identity `c` is the bound identity of one instant of the run. */
  ghost predicate InstantOf(worlds: nat -> World, lo: nat, hi: nat, binding: bytes, c: Captured) {
    exists t :: lo <= t <= hi && CapturedAt(worlds(t), binding, c)
  }

  predicate CapturedAt(w: World, binding: bytes, c: Captured) {
    StaticCapture(w).Ok? && c == Bound(StaticCapture(w).value, binding)
  }

  /** The confirming pass: the frames it reads are the digest. */
  method Confirm(env: Environment, head: bytes, listing: (bytes, bytes), plans: Plans, cache: map<bytes, bytes>)
    returns (r: Result<Captured, Error>, ghost times: seq<nat>, ghost recs: seq<Record>)
    requires CacheValid(cache) && SortedPlans(listing.0, listing.1) == Ok(plans)
    modifies env`now
    ensures old(env.now) <= env.now
    ensures r.Ok? ==> Reads(env.worlds, plans, old(env.now), env.now, times, recs)
                      && r == Fingerprinted(head, listing.0, listing.1, recs)
    ensures r.Err? ==> ReadFails(env.worlds, plans, old(env.now), env.now, true)
  {
    var sink := new DigestSink(GIT_MODEL);
    var evidence, filled;
    evidence, filled, times, recs := ParsePass(env, plans, cache, sink, false);
    if evidence.Err? {
      return Err(evidence.error), times, recs;
    }
    r := Ok(Captured(SourceIdentity(head, Fingerprint(GIT_MODEL, Sha256(sink.fed)), GIT_MODEL),
                     Token(GIT_MODEL, head, Some(listing), evidence.value)));
  }

  /** Accepted means: the identity of one instant. */
  lemma ExplainedIsSnapshot(worlds: nat -> World, lo: nat, hi: nat, seen: Seen, c: Captured)
    requires Explains(worlds, lo, hi, seen, c) && NeverReturns(worlds, seen.plans, lo, hi)
    ensures InstantOf(worlds, lo, hi, seen.binding, c)
  {
    NeverReturnsWithin(worlds, seen.plans, lo, hi, seen.trace.head0, seen.trace.end);
    AtomicSnapshot(worlds, seen.trace, seen.head, seen.listing.0, seen.listing.1, seen.plans, seen.recs);
    assert CapturedAt(worlds(seen.trace.raw1), seen.binding, c);
  }

  lemma StillNeverReturns(worlds: nat -> World, plans: Plans, lo: nat, hi: nat)
    requires lo <= hi && Still(worlds, lo, hi)
    ensures NeverReturns(worlds, plans, lo, hi)
  {
    forall i, j, k | lo <= i <= j <= k <= hi ensures Unreturning(worlds(i), worlds(j), worlds(k), plans) {
      StillPart(worlds, lo, hi, i);
      StillPart(worlds, lo, hi, j);
      StillPart(worlds, lo, hi, k);
    }
  }

  lemma ExplainedWhenStill(worlds: nat -> World, lo: nat, hi: nat, seen: Seen, c: Captured)
    requires lo <= hi && Explains(worlds, lo, hi, seen, c) && Still(worlds, lo, hi)
    ensures worlds(lo).nested == Ok(seen.binding) && CapturedAt(worlds(lo), seen.binding, c)
  {
    assert InstantOf(worlds, lo, hi, seen.binding, c) by {
      StillNeverReturns(worlds, seen.plans, lo, hi);
      ExplainedIsSnapshot(worlds, lo, hi, seen, c);
    }
    var t :| lo <= t <= hi && CapturedAt(worlds(t), seen.binding, c);
    StillPart(worlds, lo, hi, t);
    StillPart(worlds, lo, hi, seen.after);
  }

  /** Everything before the confirming pass: both heads, three listings, two samples. */
  datatype Samples = Samples(
    head: bytes, listing: (bytes, bytes), first: seq<Evidence>, second: seq<Evidence>, cache: map<bytes, bytes>)

  /** When the two heads and the third listing were taken, and what the samples read. */
  datatype Times = Times(head0: nat, s0: Sampling, s1: Sampling, raw2: nat, untracked2: nat, head1: nat)

  ghost predicate Sampled(worlds: nat -> World, lo: nat, hi: nat, at: Times, s: Samples) {
    && lo <= at.head0 <= at.s0.atRaw <= at.s0.atUntracked <= at.s1.atRaw <= at.s1.atUntracked
    && at.s1.atUntracked <= at.raw2 <= at.untracked2 <= at.head1 <= hi
    && worlds(at.head0).head == Ok(s.head) == worlds(at.head1).head
    && Parsed(worlds, at.s0.atRaw, at.s0.atUntracked, s.listing, at.s0.plans)
    && Parsed(worlds, at.s1.atRaw, at.s1.atUntracked, s.listing, at.s0.plans)
    && ListingOf(worlds(at.raw2).raw, worlds(at.untracked2).untracked) == Ok(s.listing)
    && Reads(worlds, at.s0.plans, at.s0.atUntracked, at.s1.atRaw, at.s0.times, at.s0.recs)
    && Reads(worlds, at.s0.plans, at.s1.atUntracked, at.raw2, at.s1.times, at.s1.recs)
    && s.first == Evidences(at.s0.recs) && s.second == Evidences(at.s1.recs)
    && CacheValid(s.cache)
  }

  function ListingAt(worlds: nat -> World, atRaw: nat, atUntracked: nat): Result<(bytes, bytes), Error> {
    ListingOf(worlds(atRaw).raw, worlds(atUntracked).untracked)
  }

  lemma RefusedByMove(worlds: nat -> World, lo: nat, hi: nat, head0: nat, head1: nat, s0: Sampling, s1: Sampling,
                      raw2: nat, untracked2: nat)
    requires lo <= head0 <= hi && lo <= head1 <= hi && lo <= raw2 <= hi && lo <= untracked2 <= hi
    requires lo <= s0.atRaw <= hi && lo <= s0.atUntracked <= hi && lo <= s1.atRaw <= hi && lo <= s1.atUntracked <= hi
    requires worlds(head0).head != worlds(head1).head
             || ListingAt(worlds, s0.atRaw, s0.atUntracked) != ListingAt(worlds, s1.atRaw, s1.atUntracked)
             || ListingAt(worlds, s1.atRaw, s1.atUntracked) != ListingAt(worlds, raw2, untracked2)
    ensures Refused(worlds, lo, hi)
  {
  }

  /** The steps of `_git_identity` up to its first comparison. */
  method SampleTwice(env: Environment)
    returns (r: Result<Samples, Error>, ghost at: Times)
    modifies env`now
    ensures old(env.now) <= env.now
    ensures r.Ok? ==> Sampled(env.worlds, old(env.now), env.now, at, r.value)
    ensures r.Err? ==> Refused(env.worlds, old(env.now), env.now)
  {
    at := Times(0, Sampling(0, 0, [], [], []), Sampling(0, 0, [], [], []), 0, 0, 0);
    ghost var start := env.now;
    var head0, atHead0 := env.Head();
    if head0.Err? {
      return Err(head0.error), at;
    }
    var first, cache, s0 := Sample(env, map[]);
    if first.Err? {
      RefusedWithin(env.worlds, start, atHead0, env.now, env.now);
      return Err(first.error), at;
    }
    ghost var between := env.now;
    var second, cached, s1 := Sample(env, cache);
    if second.Err? {
      RefusedWithin(env.worlds, start, between, env.now, env.now);
      return Err(second.error), at;
    }
    var after, raw2, unt2 := env.Listing();
    if after.Err? {
      return Err(after.error), at;
    }
    var head1, atHead1 := env.Head();
    if head1.Err? {
      return Err(head1.error), at;
    }
    if head0 != head1 || !(first.value.0 == second.value.0 == after.value) {
      RefusedByMove(env.worlds, start, env.now, atHead0, atHead1, s0, s1, raw2, unt2);
      return Err(ListingMoved), at;
    }
    at := Times(atHead0, s0, s1, raw2, unt2, atHead1);
    r := Ok(Samples(head0.value, after.value, first.value.1, second.value.1, cached));
  }

  function TraceOf(at: Times, third: seq<nat>, end: nat): Trace {
    Trace(at.head0, at.s0.atRaw, at.s0.atUntracked, at.s0.times, at.s1.atRaw, at.s1.atUntracked, at.s1.times,
          at.raw2, at.untracked2, at.head1, third, end)
  }

  lemma SampledAccepts(worlds: nat -> World, lo: nat, hi: nat, at: Times, s: Samples, third: seq<nat>,
                       recs: seq<Record>, end: nat)
    requires Sampled(worlds, lo, hi, at, s) && hi <= end
    requires Reads(worlds, at.s0.plans, hi, end, third, recs)
    requires s.first == s.second == Evidences(recs)
    ensures Accepts(worlds, TraceOf(at, third, end), s.head, s.listing.0, s.listing.1, at.s0.plans, recs)
  {
    EvidencesSeparate(at.s0.recs, recs);
    EvidencesSeparate(at.s1.recs, recs);
  }

  /** Samples of a still tree agree with each other and with the confirming pass. */
  lemma StillSamples(worlds: nat -> World, lo: nat, hi: nat, at: Times, s: Samples)
    requires Sampled(worlds, lo, hi, at, s) && Still(worlds, lo, hi)
    ensures PlanRecords(worlds(lo).fs, at.s0.plans) == Ok(at.s0.recs) && at.s1.recs == at.s0.recs
    ensures var w := worlds(lo);
            w.head == Ok(s.head) && ListingOf(w.raw, w.untracked) == Ok(s.listing)
            && SortedPlans(s.listing.0, s.listing.1) == Ok(at.s0.plans)
  {
    StillPart(worlds, lo, hi, at.head0);
    StillPart(worlds, lo, hi, at.s0.atRaw);
    StillPart(worlds, lo, hi, at.s0.atUntracked);
    StillShorter(worlds, lo, hi, at.s1.atRaw);
    StillShorter(worlds, lo, hi, at.raw2);
    StillReads(worlds, lo, at.s0.plans, at.s0.atUntracked, at.s1.atRaw, at.s0.times, at.s0.recs);
    StillReads(worlds, lo, at.s0.plans, at.s1.atUntracked, at.raw2, at.s1.times, at.s1.recs);
  }

  lemma StillShorter(worlds: nat -> World, lo: nat, hi: nat, hi': nat)
    requires Still(worlds, lo, hi) && hi' <= hi
    ensures Still(worlds, lo, hi')
  {
  }

  /** The steps of `_git_identity`. */
  method CaptureGit(env: Environment) returns (r: Result<Captured, Error>, ghost seen: Option<Seen>)
    modifies env`now
    ensures old(env.now) <= env.now
    ensures r.Ok? ==> seen.Some? && Explains(env.worlds, old(env.now), env.now, seen.value, r.value)
    ensures r.Err? ==> Refused(env.worlds, old(env.now), env.now)
  {
    ghost var start := env.now;
    seen := None;
    var samples, at := SampleTwice(env);
    ghost var sampled := env.now;
    if samples.Err? {
      return Err(samples.error), seen;
    }
    var s := samples.value;
    var before, atBefore := env.Nested();
    if before.Err? {
      RefusedByNested(env.worlds, start, env.now, atBefore);
      return Err(before.error), seen;
    }
    var plans := ParseListing(s.listing.0, s.listing.1);
    ghost var confirming := env.now;
    assert sampled <= atBefore <= confirming;
    var confirmed, third, recs := Confirm(env, s.head, s.listing, plans.value, s.cache);
    ghost var end := env.now;
    if confirmed.Err? {
      RefusedByConfirm(env.worlds, start, sampled, confirming, end, at, s);
      return Err(confirmed.error), seen;
    }
    if !(s.first == s.second == confirmed.value.token.evidence) {
      RefusedByContent(env.worlds, start, sampled, confirming, end, at, s, third, recs);
      return Err(ContentMoved), seen;
    }
    ReadsWiden(env.worlds, plans.value, confirming, end, third, recs, sampled, end);
    ReadsWiden(env.worlds, plans.value, confirming, end, third, recs, atBefore, end);
    SampledAccepts(env.worlds, start, sampled, at, s, third, recs, end);
    var again, atAgain := env.Nested();
    if again.Err? {
      RefusedByNested(env.worlds, start, env.now, atAgain);
      return Err(again.error), seen;
    }
    if before != again {
      RefusedByMovedNested(env.worlds, start, env.now, atBefore, atAgain);
      return Err(NestedMoved), seen;
    }
    seen := Some(Seen(TraceOf(at, third, end), s.head, s.listing, plans.value, recs, before.value, atBefore, atAgain));
    assert NestedAround(env.worlds, seen.value, env.now);
    r := Ok(Bound(confirmed.value, before.value));
  }

  lemma RefusedByNested(worlds: nat -> World, lo: nat, hi: nat, t: nat)
    requires lo <= t <= hi && worlds(t).nested.Err?
    ensures Refused(worlds, lo, hi)
  {
  }

  lemma RefusedByMovedNested(worlds: nat -> World, lo: nat, hi: nat, t: nat, u: nat)
    requires lo <= t <= hi && lo <= u <= hi && worlds(t).nested != worlds(u).nested
    ensures Refused(worlds, lo, hi)
  {
  }

  lemma RefusedByConfirm(worlds: nat -> World, lo: nat, sampled: nat, from: nat, hi: nat, at: Times, s: Samples)
    requires Sampled(worlds, lo, sampled, at, s) && lo <= sampled <= from <= hi
    requires ReadFails(worlds, at.s0.plans, from, hi, true)
    ensures Refused(worlds, lo, hi)
  {
    if Still(worlds, lo, hi) {
      StillShorter(worlds, lo, hi, sampled);
      StillSamples(worlds, lo, sampled, at, s);
      StillFails(worlds, lo, at.s0.plans, from, hi, true);
    }
  }

  lemma RefusedByContent(worlds: nat -> World, lo: nat, sampled: nat, from: nat, hi: nat, at: Times, s: Samples,
                         third: seq<nat>, recs: seq<Record>)
    requires Sampled(worlds, lo, sampled, at, s) && lo <= sampled <= from <= hi
    requires Reads(worlds, at.s0.plans, from, hi, third, recs)
    requires !(s.first == s.second == Evidences(recs))
    ensures Refused(worlds, lo, hi)
  {
    if Still(worlds, lo, hi) {
      StillShorter(worlds, lo, hi, sampled);
      StillSamples(worlds, lo, sampled, at, s);
      StillReads(worlds, lo, at.s0.plans, from, hi, third, recs);
    }
  }

  /** The plans of the listing that an identity was captured under. */
  function PlansOf(c: Captured): Plans {
    match c.token.listing
    case None => []
    case Some(listing) => (match SortedPlans(listing.0, listing.1) case Ok(plans) => plans case Err(_) => [])
  }

  /** `_git_identity`: an accepted identity is that of one instant, bound to what the nested
      repositories were throughout the confirming pass, provided nothing it looked at returned to an
      earlier value; and an unmoving tree is always accepted, as its static capture. */
  method GitIdentity(env: Environment) returns (r: Result<Captured, Error>, ghost binding: bytes)
    modifies env`now
    ensures old(env.now) <= env.now
    ensures r.Ok? ==> OneInstant(env.worlds, old(env.now), env.now, binding, r.value)
                      && OneBinding(env.worlds, old(env.now), env.now, binding, r.value)
    ensures Still(env.worlds, old(env.now), env.now) ==>
              var w := env.worlds(old(env.now));
              (r.Ok? <==> StaticCapture(w).Ok? && w.nested.Ok?)
              && (r.Ok? ==> CapturedAt(w, w.nested.value, r.value))
  {
    ghost var start := env.now;
    binding := [];
    ghost var seen;
    r, seen := CaptureGit(env);
    if r.Ok? {
      binding := seen.value.binding;
      ExplainedPromises(env.worlds, start, env.now, seen.value, r.value);
      StillAnswers(env.worlds, start, env.now, seen.value, r.value);
    }
  }

  lemma StillAnswers(worlds: nat -> World, lo: nat, hi: nat, seen: Seen, c: Captured)
    requires lo <= hi && Explains(worlds, lo, hi, seen, c)
    ensures Still(worlds, lo, hi) ==>
              var w := worlds(lo);
              StaticCapture(w).Ok? && w.nested.Ok? && CapturedAt(w, w.nested.value, c)
  {
    if Still(worlds, lo, hi) {
      ExplainedWhenStill(worlds, lo, hi, seen, c);
    }
  }

  ghost predicate OneInstant(worlds: nat -> World, lo: nat, hi: nat, binding: bytes, c: Captured) {
    NeverReturns(worlds, PlansOf(c), lo, hi) ==> InstantOf(worlds, lo, hi, binding, c)
  }

  ghost predicate OneBinding(worlds: nat -> World, lo: nat, hi: nat, binding: bytes, c: Captured) {
    NestedNeverReturns(worlds, lo, hi) ==> BoundThrough(worlds, lo, hi, PlansOf(c), binding, c)
  }

  lemma ExplainedPromises(worlds: nat -> World, lo: nat, hi: nat, seen: Seen, c: Captured)
    requires Explains(worlds, lo, hi, seen, c)
    ensures OneInstant(worlds, lo, hi, seen.binding, c) && OneBinding(worlds, lo, hi, seen.binding, c)
  {
    ExplainedPlans(worlds, lo, hi, seen, c);
    ExplainedIsBound(worlds, lo, hi, seen, c);
    if NeverReturns(worlds, seen.plans, lo, hi) {
      ExplainedIsSnapshot(worlds, lo, hi, seen, c);
    }
  }

  lemma ExplainedPlans(worlds: nat -> World, lo: nat, hi: nat, seen: Seen, c: Captured)
    requires Explains(worlds, lo, hi, seen, c)
    ensures PlansOf(c) == seen.plans
  {
  }

  // ---------- what an identity tells apart ----------

  /** A binding changes a fingerprint unless it is empty, and two bindings never alike. */
  lemma BindIsInjective(f: Fingerprint, g: Fingerprint, a: bytes, b: bytes)
    requires f.digest.Sha256? && g.digest.Sha256?
    ensures Bind(f, a) == Bind(g, b) <==> f == g && a == b
    ensures Bind(f, a).model == f.model && (Bind(f, a) == f <==> a == [])
  {
  }

  /** What a still tree is captured as: HEAD, and the hash of its records under the model's name. */
  lemma CaptureIs(w: World, binding: bytes)
    requires StaticCapture(w).Ok?
    ensures w.head.Ok? && w.raw.Ok? && w.untracked.Ok? && LiveRecords(w.fs, w.raw.value, w.untracked.value).Ok?
    ensures var recs := LiveRecords(w.fs, w.raw.value, w.untracked.value).value;
            SourceBytes(Ascii("git-delta-v1"), recs).Ok?
            && Bound(StaticCapture(w).value, binding)
            == Captured(SourceIdentity(w.head.value,
                                       Bind(Fingerprint(Ascii("git-delta-v1"), Sha256(SourceBytes(Ascii("git-delta-v1"), recs).value)),
                                            binding),
                                       Ascii("git-delta-v1")),
                        Token(Ascii("git-delta-v1"), w.head.value, Some((w.raw.value, w.untracked.value)), Evidences(recs)))
  {
  }

  /** What it means that a world is captured so: its static identity, bound, with the token as it is. */
  lemma CapturedAtIff(w: World, binding: bytes, c: Captured)
    ensures CapturedAt(w, binding, c) <==>
              && StaticCapture(w).Ok? && c.token == StaticCapture(w).value.token
              && c.identity.head == StaticCapture(w).value.identity.head
              && c.identity.model == StaticCapture(w).value.identity.model
              && c.identity.fingerprint == Bind(StaticCapture(w).value.identity.fingerprint, binding)
  {
  }

  /** Two captures have one identity exactly if HEAD, the records and the nested binding agree. */
  lemma SameIdentityIff(v: World, w: World, a: bytes, b: bytes)
    requires StaticCapture(v).Ok? && StaticCapture(w).Ok?
    ensures Bound(StaticCapture(v).value, a).identity == Bound(StaticCapture(w).value, b).identity
       <==> v.head == w.head && a == b
            && LiveRecords(v.fs, v.raw.value, v.untracked.value) == LiveRecords(w.fs, w.raw.value, w.untracked.value)
  {
    CaptureIs(v, a);
    CaptureIs(w, b);
    var p := LiveRecords(v.fs, v.raw.value, v.untracked.value).value;
    var q := LiveRecords(w.fs, w.raw.value, w.untracked.value).value;
    var model := Ascii("git-delta-v1");
    var x, y := SourceBytes(model, p).value, SourceBytes(model, q).value;
    BindIsInjective(Fingerprint(model, Sha256(x)), Fingerprint(model, Sha256(y)), a, b);
    UniqueDecodability(model, p, x);
    UniqueDecodability(model, q, y);
  }

  /** So do two accepted captures, whenever they were made. */
  lemma SameExplainedIff(worlds: nat -> World, lo: nat, hi: nat, seen: Seen, c: Captured,
                         worlds': nat -> World, lo': nat, hi': nat, seen': Seen, c': Captured)
    requires Explains(worlds, lo, hi, seen, c) && Explains(worlds', lo', hi', seen', c')
    ensures c.identity == c'.identity <==> seen.head == seen'.head && seen.recs == seen'.recs && seen.binding == seen'.binding
  {
    var x, y := SourceBytes(GIT_MODEL, seen.recs).value, SourceBytes(GIT_MODEL, seen'.recs).value;
    BindIsInjective(Fingerprint(GIT_MODEL, Sha256(x)), Fingerprint(GIT_MODEL, Sha256(y)), seen.binding, seen'.binding);
    UniqueDecodability(GIT_MODEL, seen.recs, x);
    UniqueDecodability(GIT_MODEL, seen'.recs, y);
  }
}
