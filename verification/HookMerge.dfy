/** The entries this installer owns in a hook configuration shared with other owners
    (tools/install_host_guard.py): the merge of one event, and its removal. */
module HookMerge {
  import opened Outcome

  type Fields = map<string, Json>

  datatype Json =
    | Null
    | Bool(truth: bool)
    | Number(value: int)
    | Text(text: string)
    | Arr(items: seq<Json>)
    | Obj(fields: map<string, Json>)

  datatype Error =
    | HooksNotObject
    | EventNotArray(event: string)
    | MalformedGroup(event: string)
    | MalformedEntry

  /** One row of the installer's event table, with the entry it wants there. */
  datatype Wanted = Wanted(event: string, matcher: Option<string>, expected: Fields)

  /** The entries of a group, unless it is malformed. */
  function EntriesOf(group: Json): Option<seq<Json>> {
    if group.Obj? && "hooks" in group.fields && group.fields["hooks"].Arr? then Some(group.fields["hooks"].items) else None
  }

  function WithEntries(group: Json, items: seq<Json>): Json
    requires group.Obj?
  {
    Obj(group.fields["hooks" := Arr(items)])
  }

  /** `group.get("matcher") == matcher`: an absent matcher and a null one are the same. */
  predicate MatcherIs(group: Json, matcher: Option<string>)
    requires group.Obj?
  {
    var found := if "matcher" in group.fields then group.fields["matcher"] else Null;
    found == match matcher case None => Null case Some(m) => Text(m)
  }

  function NewGroup(w: Wanted): Json {
    var bare := map["hooks" := Arr([Obj(w.expected)])];
    if w.matcher in {None, Some("")} then Obj(bare) else Obj(bare["matcher" := Text(w.matcher.value)])
  }

  function Marked(hook: Fields, ok: bool): Fields { hook["_matcher_ok" := Bool(ok)] }

  // ---------- the merge of one event ----------

  /** A group's entries after the merge, and the owned ones it held. */
  datatype Entries = Entries(items: seq<Json>, owned: seq<Fields>, inserted: bool)

  function MergeItems(items: seq<Json>, expected: Fields, ours: Fields -> bool, ok: bool, inserted: bool): Option<Entries> {
    if items == [] then Some(Entries([], [], inserted))
    else if !items[0].Obj? then None
    else
      var hook := items[0].fields;
      match MergeItems(items[1..], expected, ours, ok, inserted || ours(hook))
      case None => None
      case Some(e) =>
        if ours(hook) then Some(Entries((if inserted then [] else [Obj(expected)]) + e.items, [Marked(hook, ok)] + e.owned, e.inserted))
        else Some(Entries([items[0]] + e.items, e.owned, e.inserted))
  }

  /** The groups as they stand when the loop ends, or when it raises. */
  datatype Merge = Merge(groups: seq<Json>, owned: seq<Fields>, inserted: bool, error: Option<Error>)

  function MergeGroups(groups: seq<Json>, w: Wanted, ours: Fields -> bool, inserted: bool): Merge {
    if groups == [] then Merge([], [], inserted, None)
    else if EntriesOf(groups[0]).None? then Merge(groups, [], inserted, Some(MalformedGroup(w.event)))
    else match MergeItems(EntriesOf(groups[0]).value, w.expected, ours, MatcherIs(groups[0], w.matcher), inserted)
      case None => Merge(groups, [], inserted, Some(MalformedEntry))
      case Some(e) =>
        var rest := MergeGroups(groups[1..], w, ours, e.inserted);
        Merge([WithEntries(groups[0], e.items)] + rest.groups, e.owned + rest.owned, rest.inserted, rest.error)
  }

  /** `_own_event_hooks` on the hooks object: what it becomes, and what is returned or raised. */
  function OwnStep(hooks: Fields, w: Wanted, ours: Fields -> bool): (Fields, Result<seq<Fields>, Error>) {
    var groups := if w.event in hooks then hooks[w.event] else Arr([]);
    if !groups.Arr? then (hooks, Err(EventNotArray(w.event)))
    else
      var m := MergeGroups(groups.items, w, ours, false);
      if m.error.Some? then (hooks[w.event := Arr(m.groups)], Err(m.error.value))
      else (hooks[w.event := Arr(m.groups + if m.inserted then [] else [NewGroup(w)])], Ok(m.owned))
  }

  function InstallAll(hooks: Fields, table: seq<Wanted>, ours: Fields -> bool): (Fields, Result<seq<seq<Fields>>, Error>)
    decreases |table|
  {
    if table == [] then (hooks, Ok([]))
    else
      var (next, r) := OwnStep(hooks, table[0], ours);
      if r.Err? then (next, Err(r.error))
      else
        var (last, rs) := InstallAll(next, table[1..], ours);
        (last, if rs.Err? then rs else Ok([r.value] + rs.value))
  }

  // ---------- uninstall ----------

  predicate IsMine(item: Json, mine: Fields -> bool) { item.Obj? && mine(item.fields) }

  function KeepItems(items: seq<Json>, mine: Fields -> bool): seq<Json> {
    if items == [] then []
    else (if IsMine(items[0], mine) then [] else [items[0]]) + KeepItems(items[1..], mine)
  }

  predicate Bare(group: Json)
    requires group.Obj?
  {
    group.fields.Keys <= {"matcher", "hooks"}
  }

  /** A group goes when it loses its last entry to the removal and says nothing else. */
  predicate GroupStays(group: Json, mine: Fields -> bool)
    requires EntriesOf(group).Some?
  {
    var items := EntriesOf(group).value;
    KeepItems(items, mine) != [] || KeepItems(items, mine) == items || !Bare(group)
  }

  predicate WellFormed(groups: seq<Json>) {
    forall i :: 0 <= i < |groups| ==> EntriesOf(groups[i]).Some?
  }

  function KeepGroups(groups: seq<Json>, mine: Fields -> bool): seq<Json>
    requires WellFormed(groups)
  {
    if groups == [] then []
    else
      (if GroupStays(groups[0], mine) then [WithEntries(groups[0], KeepItems(EntriesOf(groups[0]).value, mine))] else [])
      + KeepGroups(groups[1..], mine)
  }

  function MineIn(groups: seq<Json>, mine: Fields -> bool): nat
    requires WellFormed(groups)
  {
    if groups == [] then 0
    else
      var items := EntriesOf(groups[0]).value;
      KeepLength(items, mine);
      |items| - |KeepItems(items, mine)| + MineIn(groups[1..], mine)
  }

  predicate Readable(hooks: Fields) {
    forall e :: e in hooks ==> EventReadable(hooks[e])
  }

  predicate EventReadable(event: Json) { event.Arr? && WellFormed(event.items) }

  /** An event whose groups all go is popped; one that had none is left alone. */
  predicate EventStays(groups: seq<Json>, mine: Fields -> bool)
    requires WellFormed(groups)
  {
    groups == [] || KeepGroups(groups, mine) != []
  }

  function HooksWithout(hooks: Fields, mine: Fields -> bool): Fields
    requires Readable(hooks)
  {
    map e | e in hooks && EventStays(hooks[e].items, mine) :: Arr(KeepGroups(hooks[e].items, mine))
  }

  ghost function MineAmong(hooks: Fields, events: set<string>, mine: Fields -> bool): nat
    requires Readable(hooks) && events <= hooks.Keys
  {
    if events == {} then 0
    else
      var e :| e in events;
      MineIn(hooks[e].items, mine) + MineAmong(hooks, events - {e}, mine)
  }

  lemma {:induction false} MineAmongSplit(hooks: Fields, events: set<string>, mine: Fields -> bool, e: string)
    requires Readable(hooks) && events <= hooks.Keys && e in events
    ensures MineAmong(hooks, events, mine) == MineIn(hooks[e].items, mine) + MineAmong(hooks, events - {e}, mine)
  {
    var d :| d in events && MineAmong(hooks, events, mine) == MineIn(hooks[d].items, mine) + MineAmong(hooks, events - {d}, mine);
    if d != e {
      MineAmongSplit(hooks, events - {d}, mine, e);
      MineAmongSplit(hooks, events - {e}, mine, d);
      assert events - {d} - {e} == events - {e} - {d};
    }
  }

  lemma {:induction false} KeepLength(items: seq<Json>, mine: Fields -> bool)
    ensures |KeepItems(items, mine)| <= |items|
    ensures |KeepItems(items, mine)| == |items| ==> KeepItems(items, mine) == items
  {
    if items != [] {
      KeepLength(items[1..], mine);
    }
  }

  /** The configuration file's object after uninstall, and the number of entries removed. */
  ghost function Uninstalled(data: Fields, mine: Fields -> bool): Result<(Fields, nat), Error> {
    var hooks := if "hooks" in data then data["hooks"] else Obj(map[]);
    if !hooks.Obj? then Err(HooksNotObject)
    else if !Readable(hooks.fields) then Err(MalformedEntry)
    else
      var after := HooksWithout(hooks.fields, mine);
      var removed := MineAmong(hooks.fields, hooks.fields.Keys, mine);
      if "hooks" !in data then Ok((data, removed))
      else if removed > 0 && after == map[] then Ok((data - {"hooks"}, removed))
      else Ok((data["hooks" := Obj(after)], removed))
  }

  // ---------- the configuration that is updated in place ----------

  predicate HasHooks(data: Fields) { "hooks" in data && data["hooks"].Obj? }

  class SharedConfig {
    var data: Fields

    constructor (data: Fields)
      ensures this.data == data
    {
      this.data := data;
    }

    /** `_own_event_hooks`; a malformed group stops it with the earlier groups already rewritten. */
    method OwnEvent(w: Wanted, ours: Fields -> bool) returns (r: Result<seq<Fields>, Error>)
      requires HasHooks(data)
      modifies this
      ensures HasHooks(data) && data == old(data)["hooks" := data["hooks"]]
      ensures (data["hooks"].fields, r) == OwnStep(old(data["hooks"].fields), w, ours)
    {
      var hooks := data["hooks"].fields;
      if w.event !in hooks {
        hooks := hooks[w.event := Arr([])];
      }
      if !hooks[w.event].Arr? {
        return Err(EventNotArray(w.event));
      }
      var m := OwnGroups(hooks[w.event].items, w, ours);
      if m.error.Some? {
        assert hooks[w.event := Arr(m.groups)] == data["hooks"].fields[w.event := Arr(m.groups)];
        data := data["hooks" := Obj(hooks[w.event := Arr(m.groups)])];
        return Err(m.error.value);
      }
      var groups := m.groups;
      if !m.inserted {
        groups := groups + [NewGroup(w)];
      }
      assert groups == m.groups + if m.inserted then [] else [NewGroup(w)];
      assert hooks[w.event := Arr(groups)] == data["hooks"].fields[w.event := Arr(groups)];
      data := data["hooks" := Obj(hooks[w.event := Arr(groups)])];
      return Ok(m.owned);
    }

    /** The installer's loop over its event table. */
    method Install(table: seq<Wanted>, ours: Fields -> bool) returns (r: Result<seq<seq<Fields>>, Error>)
      modifies this
      ensures "hooks" in old(data) && !old(data)["hooks"].Obj? ==> r == Err(HooksNotObject) && data == old(data)
      ensures "hooks" !in old(data) || old(data)["hooks"].Obj? ==>
                HasHooks(data) && data == old(data)["hooks" := data["hooks"]]
                && (data["hooks"].fields, r)
                   == InstallAll(if "hooks" in old(data) then old(data)["hooks"].fields else map[], table, ours)
    {
      if "hooks" !in data {
        data := data["hooks" := Obj(map[])];
      }
      if !data["hooks"].Obj? {
        return Err(HooksNotObject);
      }
      ghost var start := data["hooks"].fields;
      var owned: seq<seq<Fields>> := [];
      assert table[0..] == table;
      InstallEnds(owned, InstallAll(start, table, ours));
      for i := 0 to |table|
        invariant HasHooks(data) && data == old(data)["hooks" := data["hooks"]]
        invariant InstallAll(start, table, ours) == JoinedRuns(owned, InstallAll(data["hooks"].fields, table[i..], ours))
      {
        InstallStep(data["hooks"].fields, table[i..], ours, owned);
        assert table[i..][0] == table[i] && table[i..][1..] == table[i + 1..];
        var one := OwnEvent(table[i], ours);
        if one.Err? {
          return Err(one.error);
        }
        owned := owned + [one.value];
      }
      assert table[|table|..] == [];
      InstallEnds(owned, (data["hooks"].fields, Ok([])));
      return Ok(owned);
    }

    /** The removal `uninstall` makes in the configuration. A refused one keeps nothing it did. */
    method Uninstall(mine: Fields -> bool) returns (r: Result<nat, Error>)
      modifies this
      ensures r.Ok? ==> Uninstalled(old(data), mine) == Ok((data, r.value))
      ensures r.Err? ==> Uninstalled(old(data), mine).Err? && data == old(data)
    {
      var found := if "hooks" in data then data["hooks"] else Obj(map[]);
      if !found.Obj? {
        return Err(HooksNotObject);
      }
      var cleaned := CleanEvents(found.fields, mine);
      if cleaned.Err? {
        return Err(cleaned.error);
      }
      var (hooks, removed) := cleaned.value;
      if "hooks" in data {
        data := if removed > 0 && hooks == map[] then data - {"hooks"} else data["hooks" := Obj(hooks)];
      }
      return Ok(removed);
    }
  }

  function Joined(done: seq<Json>, owned: seq<Fields>, m: Merge): Merge {
    Merge(done + m.groups, owned + m.owned, m.inserted, m.error)
  }

  lemma JoinedEnds(done: seq<Json>, owned: seq<Fields>, m: Merge)
    ensures Joined([], [], m) == m
    ensures Joined(done, owned, Merge([], [], m.inserted, None)) == Merge(done, owned, m.inserted, None)
  {
    assert [] + m.groups == m.groups && [] + m.owned == m.owned;
    assert done + [] == done && owned + [] == owned;
  }

  lemma JoinOne(done: seq<Json>, owned: seq<Fields>, g: Json, more: seq<Fields>, m: Merge)
    ensures Joined(done, owned, Merge([g] + m.groups, more + m.owned, m.inserted, m.error)) == Joined(done + [g], owned + more, m)
  {
    assert done + ([g] + m.groups) == (done + [g]) + m.groups;
    assert owned + (more + m.owned) == (owned + more) + m.owned;
  }

  function JoinedRuns(owned: seq<seq<Fields>>, run: (Fields, Result<seq<seq<Fields>>, Error>))
    : (Fields, Result<seq<seq<Fields>>, Error>)
  {
    (run.0, if run.1.Err? then run.1 else Ok(owned + run.1.value))
  }

  lemma InstallEnds(owned: seq<seq<Fields>>, run: (Fields, Result<seq<seq<Fields>>, Error>))
    ensures JoinedRuns([], run) == run && JoinedRuns(owned, (run.0, Ok([]))) == (run.0, Ok(owned))
  {
    if run.1.Ok? {
      assert [] + run.1.value == run.1.value;
    }
    assert owned + [] == owned;
  }

  lemma InstallStep(hooks: Fields, table: seq<Wanted>, ours: Fields -> bool, owned: seq<seq<Fields>>)
    requires table != []
    ensures var (next, r) := OwnStep(hooks, table[0], ours);
            JoinedRuns(owned, InstallAll(hooks, table, ours))
            == if r.Err? then (next, Err(r.error)) else JoinedRuns(owned + [r.value], InstallAll(next, table[1..], ours))
  {
    var (next, r) := OwnStep(hooks, table[0], ours);
    if r.Ok? {
      var rest := InstallAll(next, table[1..], ours);
      assert InstallAll(hooks, table, ours) == JoinedRuns([r.value], rest);
      RunsTwice(owned, [r.value], rest);
    }
  }

  lemma RunsTwice(owned: seq<seq<Fields>>, more: seq<seq<Fields>>, run: (Fields, Result<seq<seq<Fields>>, Error>))
    ensures JoinedRuns(owned, JoinedRuns(more, run)) == JoinedRuns(owned + more, run)
  {
    if run.1.Ok? {
      assert owned + (more + run.1.value) == (owned + more) + run.1.value;
    }
  }

  lemma MergeStep(groups: seq<Json>, w: Wanted, ours: Fields -> bool, inserted: bool)
    requires groups != []
    ensures EntriesOf(groups[0]).None? ==>
              MergeGroups(groups, w, ours, inserted) == Merge(groups, [], inserted, Some(MalformedGroup(w.event)))
    ensures EntriesOf(groups[0]).Some? ==>
              (match MergeItems(EntriesOf(groups[0]).value, w.expected, ours, MatcherIs(groups[0], w.matcher), inserted)
               case None => MergeGroups(groups, w, ours, inserted) == Merge(groups, [], inserted, Some(MalformedEntry))
               case Some(e) =>
                 (var rest := MergeGroups(groups[1..], w, ours, e.inserted);
                  MergeGroups(groups, w, ours, inserted)
                  == Merge([WithEntries(groups[0], e.items)] + rest.groups, e.owned + rest.owned, rest.inserted, rest.error)))
  {
  }

  function JoinedItems(done: seq<Json>, owned: seq<Fields>, e: Option<Entries>): Option<Entries> {
    match e
    case None => None
    case Some(m) => Some(Entries(done + m.items, owned + m.owned, m.inserted))
  }

  lemma ItemEnds(done: seq<Json>, owned: seq<Fields>, e: Option<Entries>, inserted: bool)
    ensures JoinedItems([], [], e) == e
    ensures JoinedItems(done, owned, Some(Entries([], [], inserted))) == Some(Entries(done, owned, inserted))
  {
    if e.Some? {
      assert [] + e.value.items == e.value.items && [] + e.value.owned == e.value.owned;
    }
    assert done + [] == done && owned + [] == owned;
  }

  lemma ItemStep(items: seq<Json>, expected: Fields, ours: Fields -> bool, ok: bool, inserted: bool,
                 done: seq<Json>, owned: seq<Fields>)
    requires items != []
    ensures !items[0].Obj? ==> MergeItems(items, expected, ours, ok, inserted) == None
    ensures items[0].Obj? ==>
              (var mine := ours(items[0].fields);
               JoinedItems(done, owned, MergeItems(items, expected, ours, ok, inserted))
               == JoinedItems(done + (if !mine then [items[0]] else if inserted then [] else [Obj(expected)]),
                              owned + (if mine then [Marked(items[0].fields, ok)] else []),
                              MergeItems(items[1..], expected, ours, ok, inserted || mine)))
  {
    if items[0].Obj? {
      var mine := ours(items[0].fields);
      var more := if !mine then [items[0]] else if inserted then [] else [Obj(expected)];
      var one := if mine then [Marked(items[0].fields, ok)] else [];
      var rest := MergeItems(items[1..], expected, ours, ok, inserted || mine);
      assert MergeItems(items, expected, ours, ok, inserted) == JoinedItems(more, one, rest) by {
        if rest.Some? {
          assert [] + rest.value.owned == rest.value.owned;
        }
      }
      JoinTwice(done, owned, more, one, rest);
    }
  }

  lemma JoinTwice(done: seq<Json>, owned: seq<Fields>, more: seq<Json>, one: seq<Fields>, e: Option<Entries>)
    ensures JoinedItems(done, owned, JoinedItems(more, one, e)) == JoinedItems(done + more, owned + one, e)
  {
    if e.Some? {
      assert done + (more + e.value.items) == (done + more) + e.value.items;
      assert owned + (one + e.value.owned) == (owned + one) + e.value.owned;
    }
  }

  ghost predicate Owning(groups: seq<Json>, w: Wanted, ours: Fields -> bool, i: nat, sofar: Merge)
    requires i <= |groups|
  {
    Joined(sofar.groups, sofar.owned, MergeGroups(groups[i..], w, ours, sofar.inserted)) == MergeGroups(groups, w, ours, false)
  }

  lemma OwningEnds(groups: seq<Json>, w: Wanted, ours: Fields -> bool, sofar: Merge)
    ensures Owning(groups, w, ours, 0, Merge([], [], false, None))
    ensures Owning(groups, w, ours, |groups|, sofar) && sofar.error == None ==> MergeGroups(groups, w, ours, false) == sofar
  {
    assert groups[0..] == groups && groups[|groups|..] == [];
    JoinedEnds(sofar.groups, sofar.owned, MergeGroups(groups, w, ours, false));
    JoinedEnds(sofar.groups, sofar.owned, sofar);
  }

  lemma OwningRaises(groups: seq<Json>, w: Wanted, ours: Fields -> bool, i: nat, sofar: Merge, e: Error)
    requires i < |groups| && Owning(groups, w, ours, i, sofar)
    requires MergeGroups(groups[i..], w, ours, sofar.inserted) == Merge(groups[i..], [], sofar.inserted, Some(e))
    ensures MergeGroups(groups, w, ours, false) == Merge(sofar.groups + groups[i..], sofar.owned, sofar.inserted, Some(e))
  {
    assert sofar.owned + [] == sofar.owned;
  }

  lemma OwningMoves(groups: seq<Json>, w: Wanted, ours: Fields -> bool, i: nat, sofar: Merge, e: Entries)
    requires i < |groups| && Owning(groups, w, ours, i, sofar) && EntriesOf(groups[i]).Some?
    requires MergeItems(EntriesOf(groups[i]).value, w.expected, ours, MatcherIs(groups[i], w.matcher), sofar.inserted) == Some(e)
    ensures Owning(groups, w, ours, i + 1,
                   Merge(sofar.groups + [WithEntries(groups[i], e.items)], sofar.owned + e.owned, e.inserted, None))
  {
    var rest := groups[i..];
    assert rest[0] == groups[i] && rest[1..] == groups[i + 1..];
    MergeStep(rest, w, ours, sofar.inserted);
    JoinOne(sofar.groups, sofar.owned, WithEntries(groups[i], e.items), e.owned, MergeGroups(groups[i + 1..], w, ours, e.inserted));
  }

  /** The loop over one event's groups. */
  method OwnGroups(groups: seq<Json>, w: Wanted, ours: Fields -> bool) returns (m: Merge)
    ensures m == MergeGroups(groups, w, ours, false)
  {
    m := Merge([], [], false, None);
    OwningEnds(groups, w, ours, m);
    for i := 0 to |groups|
      invariant m.error == None && Owning(groups, w, ours, i, m)
    {
      MergeStep(groups[i..], w, ours, m.inserted);
      var items := EntriesOf(groups[i]);
      if items.None? {
        OwningRaises(groups, w, ours, i, m, MalformedGroup(w.event));
        return Merge(m.groups + groups[i..], m.owned, m.inserted, Some(MalformedGroup(w.event)));
      }
      var e := OwnItems(items.value, w.expected, ours, MatcherIs(groups[i], w.matcher), m.inserted);
      if e.None? {
        OwningRaises(groups, w, ours, i, m, MalformedEntry);
        return Merge(m.groups + groups[i..], m.owned, m.inserted, Some(MalformedEntry));
      }
      OwningMoves(groups, w, ours, i, m, e.value);
      m := Merge(m.groups + [WithEntries(groups[i], e.value.items)], m.owned + e.value.owned, e.value.inserted, None);
    }
    OwningEnds(groups, w, ours, m);
  }

  /** The loop over one group's entries. */
  method OwnItems(items: seq<Json>, expected: Fields, ours: Fields -> bool, ok: bool, inserted: bool)
    returns (e: Option<Entries>)
    ensures e == MergeItems(items, expected, ours, ok, inserted)
  {
    var remaining: seq<Json>, owned: seq<Fields>, placed := [], [], inserted;
    ghost var whole := MergeItems(items, expected, ours, ok, inserted);
    assert items[0..] == items;
    ItemEnds(remaining, owned, whole, placed);
    for i := 0 to |items|
      invariant JoinedItems(remaining, owned, MergeItems(items[i..], expected, ours, ok, placed)) == whole
    {
      ItemStep(items[i..], expected, ours, ok, placed, remaining, owned);
      assert remaining + [] == remaining && owned + [] == owned;
      assert items[i..][0] == items[i] && items[i..][1..] == items[i + 1..];
      if !items[i].Obj? {
        return None;
      }
      var hook := items[i].fields;
      if ours(hook) {
        owned := owned + [Marked(hook, ok)];
        if !placed {
          remaining := remaining + [Obj(expected)];
          placed := true;
        }
      } else {
        remaining := remaining + [items[i]];
      }
    }
    assert items[|items|..] == [];
    ItemEnds(remaining, owned, whole, placed);
    return Some(Entries(remaining, owned, placed));
  }

  lemma MineSplits(groups: seq<Json>, mine: Fields -> bool)
    requires groups != [] && WellFormed(groups)
    ensures var items := EntriesOf(groups[0]).value;
            WellFormed(groups[1..]) && |KeepItems(items, mine)| <= |items|
            && MineIn(groups, mine) == |items| - |KeepItems(items, mine)| + MineIn(groups[1..], mine)
  {
    KeepLength(EntriesOf(groups[0]).value, mine);
  }

  lemma KeepSplits(groups: seq<Json>, mine: Fields -> bool)
    requires groups != [] && WellFormed(groups)
    ensures var left := KeepItems(EntriesOf(groups[0]).value, mine);
            WellFormed(groups[1..])
            && KeepGroups(groups, mine)
               == (if GroupStays(groups[0], mine) then [WithEntries(groups[0], left)] else []) + KeepGroups(groups[1..], mine)
  {
  }

  lemma CleanStep(groups: seq<Json>, mine: Fields -> bool, kept: seq<Json>, removed: nat)
    requires WellFormed(groups) && groups != []
    ensures var items := EntriesOf(groups[0]).value;
            var left := KeepItems(items, mine);
            WellFormed(groups[1..]) && |left| <= |items|
            && removed + MineIn(groups, mine) == (removed + (|items| - |left|)) + MineIn(groups[1..], mine)
            && kept + KeepGroups(groups, mine)
               == (if left != [] || |left| == |items| || !Bare(groups[0]) then kept + [WithEntries(groups[0], left)] else kept)
                  + KeepGroups(groups[1..], mine)
  {
    var g, tail := groups[0], groups[1..];
    var items := EntriesOf(g).value;
    KeepLength(items, mine);
    MineSplits(groups, mine);
    KeepSplits(groups, mine);
    var one := WithEntries(g, KeepItems(items, mine));
    assert kept + ([one] + KeepGroups(tail, mine)) == (kept + [one]) + KeepGroups(tail, mine);
    assert [] + KeepGroups(tail, mine) == KeepGroups(tail, mine);
  }

  ghost predicate Cleaning(groups: seq<Json>, mine: Fields -> bool, i: nat, kept: seq<Json>, removed: nat)
    requires i <= |groups|
  {
    WellFormed(groups[..i])
    && (WellFormed(groups) ==>
          WellFormed(groups[i..])
          && KeepGroups(groups, mine) == kept + KeepGroups(groups[i..], mine)
          && MineIn(groups, mine) == removed + MineIn(groups[i..], mine))
  }

  lemma CleaningEnds(groups: seq<Json>, mine: Fields -> bool, kept: seq<Json>, removed: nat)
    ensures Cleaning(groups, mine, 0, [], 0)
    ensures Cleaning(groups, mine, |groups|, kept, removed) ==>
              WellFormed(groups) && KeepGroups(groups, mine) == kept && MineIn(groups, mine) == removed
  {
    assert groups[..|groups|] == groups && groups[0..] == groups && groups[|groups|..] == [];
    assert kept + [] == kept;
    if WellFormed(groups) {
      assert [] + KeepGroups(groups, mine) == KeepGroups(groups, mine);
    }
  }

  lemma WellFormedMore(front: seq<Json>, g: Json)
    requires WellFormed(front) && EntriesOf(g).Some?
    ensures WellFormed(front + [g])
  {
  }

  lemma CleaningMoves(groups: seq<Json>, mine: Fields -> bool, i: nat, kept: seq<Json>, removed: nat)
    requires i < |groups| && Cleaning(groups, mine, i, kept, removed) && EntriesOf(groups[i]).Some?
    ensures var items := EntriesOf(groups[i]).value;
            var left := KeepItems(items, mine);
            |left| <= |items|
            && Cleaning(groups, mine, i + 1,
                        if left != [] || |left| == |items| || !Bare(groups[i]) then kept + [WithEntries(groups[i], left)] else kept,
                        removed + (|items| - |left|))
  {
    KeepLength(EntriesOf(groups[i]).value, mine);
    assert groups[i..][0] == groups[i] && groups[i..][1..] == groups[i + 1..];
    assert groups[..i + 1] == groups[..i] + [groups[i]];
    WellFormedMore(groups[..i], groups[i]);
    if WellFormed(groups) {
      CleanStep(groups[i..], mine, kept, removed);
    }
  }

  /** The loop over one event's groups in `uninstall`: what stays, and how many entries went. */
  method CleanGroups(groups: seq<Json>, mine: Fields -> bool) returns (r: Option<(seq<Json>, nat)>)
    ensures r == if WellFormed(groups) then Some((KeepGroups(groups, mine), MineIn(groups, mine))) else None
  {
    var kept: seq<Json>, removed: nat := [], 0;
    CleaningEnds(groups, mine, kept, removed);
    for i := 0 to |groups|
      invariant Cleaning(groups, mine, i, kept, removed)
    {
      if EntriesOf(groups[i]).None? {
        return None;
      }
      CleaningMoves(groups, mine, i, kept, removed);
      var items := EntriesOf(groups[i]).value;
      var left := KeepItems(items, mine);
      var ownCount := |items| - |left|;
      removed := removed + ownCount;
      if left != [] || ownCount == 0 || !Bare(groups[i]) {
        kept := kept + [WithEntries(groups[i], left)];
      }
    }
    CleaningEnds(groups, mine, kept, removed);
    return Some((kept, removed));
  }

  /** The events already seen, and those still to come. */
  ghost predicate Cleaned(found: Fields, hooks: Fields, todo: set<string>, mine: Fields -> bool) {
    todo <= found.Keys && hooks.Keys <= found.Keys
    && (forall e :: e in todo ==> e in hooks && hooks[e] == found[e])
    && (forall e :: e in found && e !in todo ==> EventCleaned(found[e], e in hooks, if e in hooks then hooks[e] else Null, mine))
  }

  ghost predicate EventCleaned(event: Json, stays: bool, after: Json, mine: Fields -> bool) {
    EventReadable(event)
    && (stays <==> EventStays(event.items, mine))
    && (stays ==> after == Arr(KeepGroups(event.items, mine)))
  }

  lemma AllCleaned(found: Fields, hooks: Fields, mine: Fields -> bool)
    requires Cleaned(found, hooks, {}, mine)
    ensures Readable(found) && hooks == HooksWithout(found, mine)
  {
    assert forall e :: e in found ==> EventCleaned(found[e], e in hooks, if e in hooks then hooks[e] else Null, mine);
  }

  lemma CleanOne(found: Fields, hooks: Fields, todo: set<string>, mine: Fields -> bool, event: string)
    requires Cleaned(found, hooks, todo, mine) && event in todo && EventReadable(found[event])
    ensures var kept := KeepGroups(found[event].items, mine);
            Cleaned(found,
                    if kept != [] then hooks[event := Arr(kept)] else if found[event].items != [] then hooks - {event} else hooks,
                    todo - {event}, mine)
  {
    var groups := found[event].items;
    var kept := KeepGroups(groups, mine);
    var after := if kept != [] then hooks[event := Arr(kept)] else if groups != [] then hooks - {event} else hooks;
    assert EventCleaned(found[event], event in after, if event in after then after[event] else Null, mine);
    forall e | e in found && e !in todo - {event}
      ensures EventCleaned(found[e], e in after, if e in after then after[e] else Null, mine)
    {
      if e != event {
        assert EventCleaned(found[e], e in hooks, if e in hooks then hooks[e] else Null, mine);
      }
    }
  }

  /** The loop over the events in `uninstall`, in whatever order the object lists them. */
  method CleanEvents(found: Fields, mine: Fields -> bool) returns (r: Result<(Fields, nat), Error>)
    ensures r.Ok? <==> Readable(found)
    ensures r.Ok? ==> r.value == (HooksWithout(found, mine), MineAmong(found, found.Keys, mine))
  {
    var hooks, todo, removed: nat := found, found.Keys, 0;
    while todo != {}
      invariant Cleaned(found, hooks, todo, mine)
      invariant Readable(found) ==> removed + MineAmong(found, todo, mine) == MineAmong(found, found.Keys, mine)
      decreases todo
    {
      var event :| event in todo;
      if !hooks[event].Arr? {
        assert !EventReadable(found[event]);
        return Err(EventNotArray(event));
      }
      var groups := hooks[event].items;
      var kept := CleanGroups(groups, mine);
      if kept.None? {
        assert !EventReadable(found[event]);
        return Err(MalformedGroup(event));
      }
      CleanOne(found, hooks, todo, mine, event);
      if Readable(found) {
        MineAmongSplit(found, todo, mine, event);
      }
      removed := removed + kept.value.1;
      if kept.value.0 != [] {
        hooks := hooks[event := Arr(kept.value.0)];
      } else if groups != [] {
        hooks := hooks - {event};
      }
      todo := todo - {event};
    }
    AllCleaned(found, hooks, mine);
    return Ok((hooks, removed));
  }
}
