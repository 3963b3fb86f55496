/** The race-safe Git capture `_git_identity` (tools/freshness.py) against an environment
    that may change between any two reads. */
module Capture {
  import opened Outcome
  import opened ByteStrings
  import opened Framing
  import opened Dicts
  import opened GitDelta

  // ---------- ideal hashes ----------

  /** SHA-256 taken as injective; `Mixed` hashes a printed fingerprint with a binding, which
      starts with the model name and never with the source magic. */
  datatype Digest = Sha256(preimage: bytes) | Mixed(fingerprint: Fingerprint, binding: bytes)

  datatype Fingerprint = Fingerprint(model: bytes, digest: Digest)

  /** `_bind_nested`. */
  function Bind(f: Fingerprint, binding: bytes): Fingerprint {
    if binding == [] then f else Fingerprint(f.model, Mixed(f, binding))
  }

  // ---------- bounded evidence ----------

  datatype Held = Raw(data: bytes) | Hashed(digest: Digest)

  datatype Evidence = Evidence(kind: bytes, path: bytes, mode: int, held: Held, length: nat)

  function EvidenceOf(r: Record): Evidence {
    Evidence(r.kind, r.path, r.mode,
             if r.kind == KIND_FILE then Hashed(Sha256(r.content)) else Raw(r.content), |r.content|)
  }

  function Evidences(rs: seq<Record>): seq<Evidence> {
    seq(|rs|, i requires 0 <= i < |rs| => EvidenceOf(rs[i]))
  }

  /** Bounded evidence still tells records apart. */
  lemma EvidencesSeparate(a: seq<Record>, b: seq<Record>)
    requires Evidences(a) == Evidences(b)
    ensures a == b
  {
    assert |Evidences(a)| == |Evidences(b)|;
    forall i | 0 <= i < |a| ensures a[i] == b[i] {
      assert EvidenceOf(a[i]) == Evidences(a)[i] == Evidences(b)[i] == EvidenceOf(b[i]);
    }
  }

  /** A file is held by the hash of its content, anything else by the content. */
  lemma EvidenceMeaning(r: Record)
    ensures var e := EvidenceOf(r);
            e.kind == r.kind && e.path == r.path && e.mode == r.mode && e.length == |r.content|
            && (e.held == Hashed(Sha256(r.content)) <==> r.kind == Ascii("F"))
            && (e.held == Raw(r.content) <==> r.kind != Ascii("F"))
  {
    assert Ascii("F") == [70];
  }

  lemma EvidencesAppend(a: seq<Record>, b: seq<Record>)
    ensures Evidences(a + b) == Evidences(a) + Evidences(b)
  {
  }

  // ---------- the environment ----------

  /** What Git and the file system would answer at one instant. */
  datatype World = World(
    head: Result<bytes, Error>,
    raw: Result<bytes, Error>,
    untracked: Result<bytes, Error>,
    fs: FileSystem,
    nested: Result<bytes, Error>)

  /** A run of the environment and a clock that any read may find advanced. */
  class Environment {
    const worlds: nat -> World
    var now: nat

    constructor (worlds: nat -> World)
      ensures this.worlds == worlds && now == 0
    {
      this.worlds := worlds;
      now := 0;
    }

    method Elapse()
      modifies this`now
      ensures old(now) <= now
    {
      var steps :| 0 <= steps;
      now := now + steps;
    }

    method Head() returns (r: Result<bytes, Error>, ghost at: nat)
      modifies this`now
      ensures old(now) <= at == now && r == worlds(at).head
    {
      Elapse();
      r, at := worlds(now).head, now;
    }

    /** `_git_delta_listing`: two Git calls, one after the other. */
    method Listing() returns (r: Result<(bytes, bytes), Error>, ghost atRaw: nat, ghost atUntracked: nat)
      modifies this`now
      ensures old(now) <= atRaw <= atUntracked == now
      ensures r == ListingOf(worlds(atRaw).raw, worlds(atUntracked).untracked)
    {
      Elapse();
      var raw := worlds(now).raw;
      atRaw := now;
      Elapse();
      atUntracked := now;
      r := ListingOf(raw, worlds(now).untracked);
    }

    method Look(place: bytes) returns (node: Node, ghost at: nat)
      modifies this`now
      ensures old(now) <= at == now && node == At(worlds(at).fs, place)
    {
      Elapse();
      node, at := At(worlds(now).fs, place), now;
    }

    method Nested() returns (r: Result<bytes, Error>, ghost at: nat)
      modifies this`now
      ensures old(now) <= at == now && r == worlds(at).nested
    {
      Elapse();
      r, at := worlds(now).nested, now;
    }
  }

  function ListingOf(raw: Result<bytes, Error>, untracked: Result<bytes, Error>): Result<(bytes, bytes), Error> {
    match (raw, untracked)
    case (Err(e), _) => Err(e)
    case (Ok(_), Err(e)) => Err(e)
    case (Ok(a), Ok(b)) => Ok((a, b))
  }

  // ---------- one parse pass ----------

  /** `recs[i]` is what plan `i` was found to be at `times[i]`. */
  ghost predicate Reads(worlds: nat -> World, plans: Plans, lo: nat, hi: nat, times: seq<nat>, recs: seq<Record>) {
    |times| == |plans| == |recs|
    && forall i :: 0 <= i < |plans| ==>
         lo <= times[i] <= hi && PlanRecord(worlds(times[i]).fs, plans[i]) == Ok(recs[i])
  }

  /** Some plan, at some instant in the interval, cannot be recorded (or framed). */
  ghost predicate ReadFails(worlds: nat -> World, plans: Plans, lo: nat, hi: nat, framed: bool) {
    exists i, t :: 0 <= i < |plans| && lo <= t <= hi && PlanFails(worlds(t).fs, plans[i], framed)
  }

  predicate PlanFails(fs: FileSystem, p: Pair<Plan>, framed: bool) {
    var r := PlanRecord(fs, p);
    r.Err? || (framed && Frame(r.value).Err?)
  }

  /** `path_map`: validated places of listed paths. */
  ghost predicate CacheValid(cache: map<bytes, bytes>) {
    forall k :: k in cache ==> Locate(k) == Ok(cache[k])
  }

  /** `_record_evidence` up to its record: one atomic look at the located path. */
  method ReadPlan(env: Environment, p: Pair<Plan>, cache: map<bytes, bytes>)
    returns (r: Result<Record, Error>, filled: map<bytes, bytes>, ghost at: nat)
    requires CacheValid(cache) && !p.value.deleted
    modifies env`now
    ensures old(env.now) <= at <= env.now && CacheValid(filled)
    ensures r == PlanRecord(env.worlds(at).fs, p)
  {
    at := env.now;
    filled := cache;
    if p.key !in cache {
      match Locate(p.key) {
        case Err(e) => return Err(e), filled, at;
        case Ok(place) => filled := cache[p.key := place];
      }
    }
    var node;
    node, at := env.Look(filled[p.key]);
    r := NodeRecord(node, p.key, p.value.newMode);
  }

  /** The one-at-a-time loop: it also feeds the observer when there is one. */
  method SequentialPass(env: Environment, plans: Plans, cache: map<bytes, bytes>, sink: DigestSink?)
    returns (r: Result<seq<Evidence>, Error>, filled: map<bytes, bytes>, ghost times: seq<nat>, ghost recs: seq<Record>)
    requires CacheValid(cache)
    modifies env`now, if sink == null then {} else {sink}
    ensures old(env.now) <= env.now && CacheValid(filled)
    ensures r.Ok? ==> Reads(env.worlds, plans, old(env.now), env.now, times, recs) && r.value == Evidences(recs)
    ensures r.Ok? && sink != null ==> Frames(recs).Ok? && sink.fed == old(sink.fed) + Frames(recs).value
    ensures r.Err? ==> ReadFails(env.worlds, plans, old(env.now), env.now, sink != null)
  {
    var evidence: seq<Evidence> := [];
    times, recs, filled := [], [], cache;
    if sink != null {
      assert sink.fed + [] == sink.fed;
    }
    for k := 0 to |plans|
      invariant old(env.now) <= env.now && CacheValid(filled)
      invariant Reads(env.worlds, plans[..k], old(env.now), env.now, times, recs)
      invariant evidence == Evidences(recs)
      invariant sink != null ==> Frames(recs).Ok? && sink.fed == old(sink.fed) + Frames(recs).value
    {
      var p := plans[k];
      ghost var at := env.now;
      var record := Record(KIND_DELETED, p.key, p.value.oldMode, []);
      if !p.value.deleted {
        var read;
        read, filled, at := ReadPlan(env, p, filled);
        if read.Err? {
          assert PlanFails(env.worlds(at).fs, plans[k], sink != null);
          return Err(read.error), filled, times, recs;
        }
        record := read.value;
      }
      assert PlanRecord(env.worlds(at).fs, p) == Ok(record);
      if sink != null {
        var seen := sink.Observe(record);
        if seen.Err? {
          assert PlanFails(env.worlds(at).fs, plans[k], true);
          return Err(BadFrame(seen.error)), filled, times, recs;
        }
        FramesAppend(recs, [record]);
        FramesSingle(record);
        Associative(old(sink.fed), Frames(recs).value, Frame(record).value);
      }
      evidence := evidence + [EvidenceOf(record)];
      times, recs := times + [at], recs + [record];
      assert plans[..k + 1] == plans[..k] + [p];
    }
    assert plans[..|plans|] == plans;
    r := Ok(evidence);
  }

  // ---------- the slot-and-worker pass ----------

  const PLACEHOLDER: Evidence := Evidence(KIND_FILE, [], 0, Raw([]), 0)

  function EvidenceResult(r: Result<Record, Error>): Result<Evidence, Error> {
    match r
    case Err(e) => Err(e)
    case Ok(record) => Ok(EvidenceOf(record))
  }

  /** After `k` plans: deletions filled in, every other slot queued for a read, in order. */
  ghost predicate SlotsBuilt(plans: Plans, k: nat, slots: seq<Evidence>, readSlots: seq<nat>, pending: Plans) {
    && |slots| == k <= |plans| && |readSlots| == |pending|
    && (forall m :: 0 <= m < |readSlots| ==>
          readSlots[m] < k && pending[m] == plans[readSlots[m]] && !pending[m].value.deleted)
    && (forall m, n :: 0 <= m < n < |readSlots| ==> readSlots[m] < readSlots[n])
    && (forall j :: 0 <= j < k && plans[j].value.deleted ==>
          slots[j] == EvidenceOf(Record(KIND_DELETED, plans[j].key, plans[j].value.oldMode, [])))
    && (forall j :: 0 <= j < k && !plans[j].value.deleted ==> j in readSlots)
  }

  method BuildSlots(plans: Plans) returns (slots: seq<Evidence>, readSlots: seq<nat>, pending: Plans)
    ensures SlotsBuilt(plans, |plans|, slots, readSlots, pending)
  {
    slots, readSlots, pending := [], [], [];
    for k := 0 to |plans|
      invariant SlotsBuilt(plans, k, slots, readSlots, pending)
    {
      var p := plans[k];
      if p.value.deleted {
        slots := slots + [EvidenceOf(Record(KIND_DELETED, p.key, p.value.oldMode, []))];
      } else {
        readSlots := readSlots + [|slots|];
        slots := slots + [PLACEHOLDER];
        pending := pending + [p];
        assert forall j :: 0 <= j < k && !plans[j].value.deleted ==> j in readSlots;
      }
    }
  }

  /** `path_map` is filled before any worker starts. */
  method FillCache(pending: Plans, cache: map<bytes, bytes>) returns (r: Result<map<bytes, bytes>, Error>)
    requires CacheValid(cache)
    ensures r.Ok? ==> CacheValid(r.value) && forall m :: 0 <= m < |pending| ==> pending[m].key in r.value
    ensures r.Err? ==> exists m :: 0 <= m < |pending| && Locate(pending[m].key).Err?
  {
    var filled := cache;
    for m := 0 to |pending|
      invariant CacheValid(filled) && forall n :: 0 <= n < m ==> pending[n].key in filled
    {
      if pending[m].key !in filled {
        match Locate(pending[m].key) {
          case Err(e) => return Err(e);
          case Ok(place) => filled := filled[pending[m].key := place];
        }
      }
    }
    return Ok(filled);
  }

  function Indices(n: nat): (s: set<nat>)
    ensures forall m :: m in s <==> 0 <= m < n
  {
    if n == 0 then {} else Indices(n - 1) + {n - 1}
  }

  ghost predicate ReadAt(worlds: nat -> World, p: Pair<Plan>, lo: nat, hi: nat, t: nat, got: Result<Evidence, Error>) {
    lo <= t <= hi && got == EvidenceResult(PlanRecord(worlds(t).fs, p))
  }

  /** The futures: every pending path is read once, in an order nothing constrains. */
  method ReadInAnyOrder(env: Environment, pending: Plans, cache: map<bytes, bytes>)
    returns (results: seq<Result<Evidence, Error>>, ghost at: seq<nat>)
    requires CacheValid(cache) && forall m :: 0 <= m < |pending| ==> !pending[m].value.deleted
    modifies env`now
    ensures old(env.now) <= env.now && |results| == |at| == |pending|
    ensures forall m :: 0 <= m < |pending| ==>
              ReadAt(env.worlds, pending[m], old(env.now), env.now, at[m], results[m])
  {
    results := seq(|pending|, _ => Ok(PLACEHOLDER));
    at := seq(|pending|, _ => 0);
    var todo := Indices(|pending|);
    while todo != {}
      invariant old(env.now) <= env.now && |results| == |at| == |pending|
      invariant forall m :: m in todo ==> 0 <= m < |pending|
      invariant forall m :: 0 <= m < |pending| && m !in todo ==>
                  ReadAt(env.worlds, pending[m], old(env.now), env.now, at[m], results[m])
      decreases todo
    {
      var m :| m in todo;
      var read, _, when := ReadPlan(env, pending[m], cache);
      results, at := results[m := EvidenceResult(read)], at[m := when];
      todo := todo - {m};
    }
  }

  /** `future.result()` in submission order: the first failure is raised. */
  method Collect(results: seq<Result<Evidence, Error>>) returns (r: Result<seq<Evidence>, Error>)
    ensures r.Ok? ==> |r.value| == |results| && forall m :: 0 <= m < |results| ==> results[m] == Ok(r.value[m])
    ensures r.Err? ==> exists m :: 0 <= m < |results| && results[m] == Err(r.error) && forall n :: 0 <= n < m ==> results[n].Ok?
  {
    var values: seq<Evidence> := [];
    for m := 0 to |results|
      invariant |values| == m && forall n :: 0 <= n < m ==> results[n] == Ok(values[n])
    {
      if results[m].Err? {
        return Err(results[m].error);
      }
      values := values + [results[m].value];
    }
    return Ok(values);
  }

  ghost predicate Increasing(at: seq<nat>, bound: nat) {
    (forall m :: 0 <= m < |at| ==> at[m] < bound) && forall m, n :: 0 <= m < n < |at| ==> at[m] < at[n]
  }

  /** The placeholders replaced, one read slot after the other. */
  method FillSlots<T>(built: seq<T>, readSlots: seq<nat>, values: seq<T>) returns (slots: seq<T>)
    requires |readSlots| == |values| && Increasing(readSlots, |built|)
    ensures |slots| == |built|
    ensures forall m :: 0 <= m < |values| ==> slots[readSlots[m]] == values[m]
    ensures forall j :: 0 <= j < |built| && j !in readSlots ==> slots[j] == built[j]
  {
    slots := built;
    for m := 0 to |values|
      invariant |slots| == |built|
      invariant forall n :: 0 <= n < m ==> slots[readSlots[n]] == values[n]
      invariant forall j :: 0 <= j < |built| && j !in readSlots ==> slots[j] == built[j]
    {
      slots := slots[readSlots[m] := values[m]];
    }
  }

  /** When each plan was read: a deletion needs no read, so any instant serves. */
  ghost function SlotTime(j: nat, readSlots: seq<nat>, at: seq<nat>, lo: nat): nat
    requires |readSlots| == |at|
  {
    if j in readSlots then (var m :| 0 <= m < |readSlots| && readSlots[m] == j; at[m]) else lo
  }

  lemma SlotRead(worlds: nat -> World, plans: Plans, built: seq<Evidence>, readSlots: seq<nat>, pending: Plans,
                 values: seq<Evidence>, at: seq<nat>, slots: seq<Evidence>, lo: nat, hi: nat, j: nat)
    requires SlotsBuilt(plans, |plans|, built, readSlots, pending) && |values| == |at| == |pending| && lo <= hi
    requires forall m :: 0 <= m < |pending| ==> ReadAt(worlds, pending[m], lo, hi, at[m], Ok(values[m]))
    requires |slots| == |plans| && j < |plans|
    requires forall m :: 0 <= m < |values| ==> slots[readSlots[m]] == values[m]
    requires j !in readSlots ==> slots[j] == built[j]
    ensures ReadAt(worlds, plans[j], lo, hi, SlotTime(j, readSlots, at, lo), Ok(slots[j]))
  {
    if j in readSlots {
      var m :| 0 <= m < |readSlots| && readSlots[m] == j && SlotTime(j, readSlots, at, lo) == at[m];
      assert slots[readSlots[m]] == values[m] && pending[m] == plans[readSlots[m]];
    } else {
      assert plans[j].value.deleted;
    }
  }

  /** The observer-less pass: deletions and placeholders first, then the reads, then the
      placeholders replaced. No placeholder is left, and the order is that of the plans. */
  method SlotPass(env: Environment, plans: Plans, cache: map<bytes, bytes>)
    returns (r: Result<seq<Evidence>, Error>, filled: map<bytes, bytes>, ghost times: seq<nat>, ghost recs: seq<Record>)
    requires CacheValid(cache)
    modifies env`now
    ensures old(env.now) <= env.now && CacheValid(filled)
    ensures r.Ok? ==> Reads(env.worlds, plans, old(env.now), env.now, times, recs) && r.value == Evidences(recs)
    ensures r.Err? ==> ReadFails(env.worlds, plans, old(env.now), env.now, false)
  {
    filled, times, recs := cache, [], [];
    ghost var start := env.now;
    var built, readSlots, pending := BuildSlots(plans);
    if |pending| > 1 {
      var prepared := FillCache(pending, cache);
      if prepared.Err? {
        ghost var m :| 0 <= m < |pending| && Locate(pending[m].key).Err?;
        assert PlanFails(env.worlds(start).fs, plans[readSlots[m]], false);
        return Err(prepared.error), filled, times, recs;
      }
      filled := prepared.value;
    }
    var results, at := ReadInAnyOrder(env, pending, filled);
    var values := Collect(results);
    if values.Err? {
      ghost var m :| 0 <= m < |pending| && results[m] == Err(values.error);
      assert ReadAt(env.worlds, pending[m], start, env.now, at[m], results[m]);
      assert PlanFails(env.worlds(at[m]).fs, plans[readSlots[m]], false);
      return Err(values.error), filled, times, recs;
    }
    forall m | 0 <= m < |pending| ensures ReadAt(env.worlds, pending[m], start, env.now, at[m], Ok(values.value[m])) {
      assert ReadAt(env.worlds, pending[m], start, env.now, at[m], results[m]);
    }
    var slots := FillSlots(built, readSlots, values.value);
    times := seq(|plans|, j requires 0 <= j < |plans| => SlotTime(j, readSlots, at, start));
    forall j | 0 <= j < |plans| ensures ReadAt(env.worlds, plans[j], start, env.now, times[j], Ok(slots[j])) {
      SlotRead(env.worlds, plans, built, readSlots, pending, values.value, at, slots, start, env.now, j);
    }
    recs := RecordsAt(env.worlds, plans, times, slots, start, env.now);
    r := Ok(slots);
  }

  ghost function RecordsAt(worlds: nat -> World, plans: Plans, times: seq<nat>, slots: seq<Evidence>, lo: nat, hi: nat)
    : (recs: seq<Record>)
    requires |slots| == |times| == |plans|
    requires forall j :: 0 <= j < |plans| ==> ReadAt(worlds, plans[j], lo, hi, times[j], Ok(slots[j]))
    ensures Reads(worlds, plans, lo, hi, times, recs) && slots == Evidences(recs)
  {
    var recs := seq(|plans|, j requires 0 <= j < |plans| =>
      assert ReadAt(worlds, plans[j], lo, hi, times[j], Ok(slots[j]));
      PlanRecord(worlds(times[j]).fs, plans[j]).value);
    assert forall j :: 0 <= j < |plans| ==> ReadAt(worlds, plans[j], lo, hi, times[j], Ok(slots[j]));
    recs
  }
}
