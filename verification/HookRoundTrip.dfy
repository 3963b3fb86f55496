/** Install and uninstall over a whole shared configuration (tools/install_host_guard.py). */
module HookRoundTrip {
  import opened Outcome
  import opened HookMerge
  import opened HookLaws

  // ---------- the event table ----------

  predicate DistinctEvents(table: seq<Wanted>) {
    forall i, j :: 0 <= i < j < |table| ==> table[i].event != table[j].event
  }

  function Events(table: seq<Wanted>): set<string> {
    set i | 0 <= i < |table| :: table[i].event
  }

  /** The merge of one event looks at that event only. */
  lemma StepIsLocal(a: Fields, b: Fields, w: Wanted, ours: Fields -> bool)
    requires (w.event in a <==> w.event in b) && (w.event in a ==> a[w.event] == b[w.event])
    ensures OwnStep(a, w, ours).1 == OwnStep(b, w, ours).1
    ensures OwnStep(a, w, ours).1.Ok? ==> OwnStep(a, w, ours).0[w.event] == OwnStep(b, w, ours).0[w.event]
  {
  }

  lemma StepKeepsOthers(hooks: Fields, w: Wanted, ours: Fields -> bool)
    ensures var next := OwnStep(hooks, w, ours).0;
            next.Keys <= hooks.Keys + {w.event} && hooks.Keys <= next.Keys
            && (OwnStep(hooks, w, ours).1.Ok? ==> w.event in next)
            && forall e :: e in hooks && e != w.event ==> next[e] == hooks[e]
  {
  }

  lemma InstallStepOk(hooks: Fields, table: seq<Wanted>, ours: Fields -> bool)
    requires table != []
    ensures var (next, r) := OwnStep(hooks, table[0], ours);
            InstallAll(hooks, table, ours).1.Ok? ==>
              r.Ok? && InstallAll(next, table[1..], ours).1.Ok?
              && InstallAll(hooks, table, ours)
                 == (InstallAll(next, table[1..], ours).0, Ok([r.value] + InstallAll(next, table[1..], ours).1.value))
    ensures var (next, r) := OwnStep(hooks, table[0], ours);
            r.Ok? && InstallAll(next, table[1..], ours).1.Ok? ==> InstallAll(hooks, table, ours).1.Ok?
  {
  }

  /** A whole install is the separate merges of its events, side by side. */
  ghost predicate SideBySide(hooks: Fields, table: seq<Wanted>, ours: Fields -> bool, last: Fields, found: seq<seq<Fields>>) {
    last.Keys == hooks.Keys + Events(table) && |found| == |table|
    && (forall e :: e in hooks && e !in Events(table) ==> last[e] == hooks[e])
    && RowsStand(hooks, table, ours, last, found)
  }

  ghost predicate StandsAsMerged(hooks: Fields, w: Wanted, ours: Fields -> bool, last: Fields, found: seq<Fields>) {
    OwnStep(hooks, w, ours).1 == Ok(found) && w.event in last && w.event in OwnStep(hooks, w, ours).0
    && last[w.event] == OwnStep(hooks, w, ours).0[w.event]
  }

  lemma EventsSplit(table: seq<Wanted>)
    requires table != []
    ensures Events(table) == {table[0].event} + Events(table[1..])
    ensures DistinctEvents(table) ==> DistinctEvents(table[1..]) && table[0].event !in Events(table[1..])
  {
    forall i | 0 <= i < |table| ensures table[i].event in {table[0].event} + Events(table[1..]) {
      if i > 0 {
        assert table[1..][i - 1] == table[i];
      }
    }
    forall i | 0 <= i < |table[1..]| ensures table[1..][i].event in Events(table) {
      assert table[1..][i] == table[i + 1];
    }
  }

  lemma {:induction false} InstallIsSideBySide(hooks: Fields, table: seq<Wanted>, ours: Fields -> bool)
    requires DistinctEvents(table) && InstallAll(hooks, table, ours).1.Ok?
    ensures SideBySide(hooks, table, ours, InstallAll(hooks, table, ours).0, InstallAll(hooks, table, ours).1.value)
    decreases |table|
  {
    if table != [] {
      EventsSplit(table);
      InstallStepOk(hooks, table, ours);
      var w := table[0];
      var next := OwnStep(hooks, w, ours).0;
      StepKeepsOthers(hooks, w, ours);
      InstallIsSideBySide(next, table[1..], ours);
      var (last, found) := (InstallAll(next, table[1..], ours).0, InstallAll(next, table[1..], ours).1.value);
      SideBySideStep(hooks, table, ours, next, last, found);
    }
  }

  ghost predicate RowsStand(hooks: Fields, table: seq<Wanted>, ours: Fields -> bool, last: Fields, found: seq<seq<Fields>>)
    requires |found| == |table|
  {
    forall i :: 0 <= i < |table| ==> StandsAsMerged(hooks, table[i], ours, last, found[i])
  }

  lemma SideBySideStep(hooks: Fields, table: seq<Wanted>, ours: Fields -> bool, next: Fields, last: Fields, found: seq<seq<Fields>>)
    requires table != [] && DistinctEvents(table) && OwnStep(hooks, table[0], ours).1.Ok?
    requires next == OwnStep(hooks, table[0], ours).0 && SideBySide(next, table[1..], ours, last, found)
    ensures SideBySide(hooks, table, ours, last, [OwnStep(hooks, table[0], ours).1.value] + found)
  {
    EventsSplit(table);
    var w := table[0];
    StepKeepsOthers(hooks, w, ours);
    assert last.Keys == hooks.Keys + Events(table);
    RowsStep(hooks, table, ours, next, last, found);
  }

  lemma RowsStep(hooks: Fields, table: seq<Wanted>, ours: Fields -> bool, next: Fields, last: Fields, found: seq<seq<Fields>>)
    requires table != [] && DistinctEvents(table) && OwnStep(hooks, table[0], ours).1.Ok?
    requires next == OwnStep(hooks, table[0], ours).0 && SideBySide(next, table[1..], ours, last, found)
    ensures RowsStand(hooks, table, ours, last, [OwnStep(hooks, table[0], ours).1.value] + found)
  {
    EventsSplit(table);
    StepKeepsOthers(hooks, table[0], ours);
    FirstStands(hooks, table[0], ours, next, last);
    forall i | 1 <= i < |table| ensures StandsAsMerged(hooks, table[i], ours, last, found[i - 1]) {
      LaterStands(hooks, table, ours, next, last, found, i);
    }
    AllStand(hooks, table, ours, last, OwnStep(hooks, table[0], ours).1.value, found);
  }

  lemma AllStand(hooks: Fields, table: seq<Wanted>, ours: Fields -> bool, last: Fields, first: seq<Fields>, found: seq<seq<Fields>>)
    requires |table| == |found| + 1 && StandsAsMerged(hooks, table[0], ours, last, first)
    requires forall i :: 1 <= i < |table| ==> StandsAsMerged(hooks, table[i], ours, last, found[i - 1])
    ensures RowsStand(hooks, table, ours, last, [first] + found)
  {
    forall i | 0 <= i < |table| ensures StandsAsMerged(hooks, table[i], ours, last, ([first] + found)[i]) {
      assert i > 0 ==> ([first] + found)[i] == found[i - 1];
    }
  }

  lemma LaterStands(hooks: Fields, table: seq<Wanted>, ours: Fields -> bool, next: Fields, last: Fields, found: seq<seq<Fields>>, i: nat)
    requires 1 <= i < |table| && DistinctEvents(table) && |found| == |table| - 1
    requires next == OwnStep(hooks, table[0], ours).0 && RowsStand(next, table[1..], ours, last, found)
    ensures StandsAsMerged(hooks, table[i], ours, last, found[i - 1])
  {
    StepKeepsOthers(hooks, table[0], ours);
    assert table[1..][i - 1] == table[i] && table[0].event != table[i].event;
    StandsStill(hooks, next, table[i], ours, last, found[i - 1]);
  }

  lemma StandsStill(hooks: Fields, next: Fields, w: Wanted, ours: Fields -> bool, last: Fields, found: seq<Fields>)
    requires StandsAsMerged(next, w, ours, last, found)
    requires (w.event in hooks <==> w.event in next) && (w.event in hooks ==> hooks[w.event] == next[w.event])
    ensures StandsAsMerged(hooks, w, ours, last, found)
  {
    StepIsLocal(hooks, next, w, ours);
    StepKeepsOthers(hooks, w, ours);
  }

  lemma FirstStands(hooks: Fields, w: Wanted, ours: Fields -> bool, next: Fields, last: Fields)
    requires OwnStep(hooks, w, ours).1.Ok? && next == OwnStep(hooks, w, ours).0
    requires w.event in next ==> w.event in last && last[w.event] == next[w.event]
    ensures StandsAsMerged(hooks, w, ours, last, OwnStep(hooks, w, ours).1.value)
  {
    StepKeepsOthers(hooks, w, ours);
  }

  // ---------- installing twice ----------

  lemma {:induction false} SettledInstall(hooks: Fields, table: seq<Wanted>, ours: Fields -> bool, found: seq<seq<Fields>>)
    requires |found| == |table| && forall i :: 0 <= i < |table| ==> OwnStep(hooks, table[i], ours) == (hooks, Ok(found[i]))
    ensures InstallAll(hooks, table, ours) == (hooks, Ok(found))
  {
    if table != [] {
      forall i | 0 <= i < |table[1..]| ensures OwnStep(hooks, table[1..][i], ours) == (hooks, Ok(found[1..][i])) {
        assert table[1..][i] == table[i + 1] && found[1..][i] == found[i + 1];
      }
      SettledInstall(hooks, table[1..], ours, found[1..]);
      assert OwnStep(hooks, table[0], ours) == (hooks, Ok(found[0]));
      assert [found[0]] + found[1..] == found;
    }
  }

  /** Is the wanted entry of this row found, after an install, under the matcher it needs? */
  predicate Converges(hooks: Fields, w: Wanted, ours: Fields -> bool) {
    WellFormed(GroupsFor(hooks, w.event)) && MatcherHolds(GroupsFor(hooks, w.event), w, ours)
  }

  function FoundAgain(hooks: Fields, table: seq<Wanted>, ours: Fields -> bool): seq<seq<Fields>> {
    seq(|table|, i requires 0 <= i < |table| => [Marked(table[i].expected, Converges(hooks, table[i], ours))])
  }

  /** A second install changes nothing, and reports each wanted entry once, under its matcher
      exactly when that row converges. */
  lemma InstallTwice(hooks: Fields, table: seq<Wanted>, ours: Fields -> bool)
    requires DistinctEvents(table) && InstallAll(hooks, table, ours).1.Ok?
    requires forall i :: 0 <= i < |table| ==> ours(table[i].expected)
    ensures var last := InstallAll(hooks, table, ours).0;
            InstallAll(last, table, ours) == (last, Ok(FoundAgain(hooks, table, ours)))
  {
    InstallIsSideBySide(hooks, table, ours);
    var (last, found) := (InstallAll(hooks, table, ours).0, InstallAll(hooks, table, ours).1.value);
    var again := FoundAgain(hooks, table, ours);
    forall i | 0 <= i < |table| ensures OwnStep(last, table[i], ours) == (last, Ok(again[i])) {
      assert StandsAsMerged(hooks, table[i], ours, last, found[i]);
      SettledRow(hooks, table[i], ours, last);
    }
    SettledInstall(last, table, ours, again);
  }

  lemma SettledRow(hooks: Fields, w: Wanted, ours: Fields -> bool, last: Fields)
    requires ours(w.expected) && OwnStep(hooks, w, ours).1.Ok? && w.event in last && w.event in OwnStep(hooks, w, ours).0
    requires last[w.event] == OwnStep(hooks, w, ours).0[w.event]
    ensures OwnStep(last, w, ours) == (last, Ok([Marked(w.expected, Converges(hooks, w, ours))]))
  {
    var next := OwnStep(hooks, w, ours).0;
    SecondInstallChangesNothing(hooks, w, ours);
    StepIsLocal(last, next, w, ours);
    OneOwnedEntry(hooks, w, ours);
    assert OwnStep(last, w, ours).0 == last[w.event := OwnStep(last, w, ours).0[w.event]];
    assert last[w.event := last[w.event]] == last;
  }

  // ---------- uninstall after install ----------

  lemma {:induction false} ItemsNotMine(items: seq<Json>, mine: Fields -> bool)
    requires |KeepItems(items, mine)| == |items|
    ensures KeepItems(items, mine) == items
  {
    KeepLength(items, mine);
  }

  /** Groups with nothing of ours in them all stay as they are. */
  lemma {:induction false} KeepWithoutMine(groups: seq<Json>, mine: Fields -> bool)
    requires WellFormed(groups) && MineIn(groups, mine) == 0
    ensures KeepGroups(groups, mine) == groups
  {
    if groups != [] {
      MineSplits(groups, mine);
      ItemsNotMine(EntriesOf(groups[0]).value, mine);
      SameEntries(groups[0]);
      KeepWithoutMine(groups[1..], mine);
    }
  }

  lemma {:induction false} KeepAppend(groups: seq<Json>, g: Json, mine: Fields -> bool)
    requires WellFormed(groups) && EntriesOf(g).Some?
    ensures WellFormed(groups + [g]) && WellFormed([g])
    ensures KeepGroups(groups + [g], mine) == KeepGroups(groups, mine) + KeepGroups([g], mine)
    ensures MineIn(groups + [g], mine) == MineIn(groups, mine) + MineIn([g], mine)
  {
    if groups == [] {
      assert groups + [g] == [g];
    } else {
      assert (groups + [g])[0] == groups[0] && (groups + [g])[1..] == groups[1..] + [g];
      KeepAppend(groups[1..], g, mine);
      MineSplits(groups, mine);
      MineSplits(groups + [g], mine);
    }
  }

  /** Removing the one group a merge appended gives the groups back. */
  lemma KeepTakesBack(groups: seq<Json>, w: Wanted, mine: Fields -> bool)
    requires WellFormed(groups) && MineIn(groups, mine) == 0 && mine(w.expected)
    ensures WellFormed(groups + [NewGroup(w)])
    ensures KeepGroups(groups + [NewGroup(w)], mine) == groups && MineIn(groups + [NewGroup(w)], mine) == 1
  {
    var g := NewGroup(w);
    NewGroupMeaning(w, mine);
    KeepAppend(groups, g, mine);
    KeepWithoutMine(groups, mine);
    assert EntriesOf(g).value[1..] == [] && [g][1..] == [];
    assert |EntriesOf(g).value| == 1 && |KeepItems(EntriesOf(g).value, mine)| == 0;
    assert !GroupStays(g, mine);
    MineSplits([g], mine);
    assert KeepGroups([g], mine) == [] && MineIn([g], mine) == 1;
    assert groups + [] == groups;
  }

  function HooksOf(data: Fields): Fields {
    if HasHooks(data) then data["hooks"].fields else map[]
  }

  /** A configuration in which this installer has no entry, for the merge or for the removal. */
  predicate Unowned(data: Fields, table: seq<Wanted>, ours: Fields -> bool, mine: Fields -> bool) {
    ("hooks" in data ==> data["hooks"].Obj?)
    && Readable(HooksOf(data))
    && (forall e :: e in HooksOf(data) ==> MineIn(HooksOf(data)[e].items, mine) == 0)
    && forall i :: 0 <= i < |table| ==> NoOwnedEntry(HooksOf(data), table[i].event, ours)
  }

  predicate NoOwnedEntry(hooks: Fields, event: string, ours: Fields -> bool) {
    WellFormed(GroupsFor(hooks, event)) && OwnedEntries(GroupsFor(hooks, event), ours) == []
  }

  predicate BothOwn(table: seq<Wanted>, ours: Fields -> bool, mine: Fields -> bool) {
    forall i :: 0 <= i < |table| ==> ours(table[i].expected) && mine(table[i].expected)
  }

  function RestoredHooks(hooks: Fields, table: seq<Wanted>): Fields {
    map e | e in hooks && !(e in Events(table) && hooks[e] == Arr([])) :: hooks[e]
  }

  /** What an install followed by an uninstall leaves: a table event whose list was empty goes,
      and so does a hooks object with nothing left in it. */
  function Restored(data: Fields, table: seq<Wanted>): Fields {
    var rest := RestoredHooks(HooksOf(data), table);
    if rest == map[] then data - {"hooks"} else data["hooks" := Obj(rest)]
  }

  /** One event of an installed configuration, seen by the removal. */
  lemma TableEvent(hooks: Fields, w: Wanted, ours: Fields -> bool, mine: Fields -> bool, last: Fields, found: seq<Fields>)
    requires StandsAsMerged(hooks, w, ours, last, found) && ours(w.expected) && mine(w.expected)
    requires Readable(hooks) && (w.event in hooks ==> MineIn(hooks[w.event].items, mine) == 0)
    requires NoOwnedEntry(hooks, w.event, ours)
    ensures EventReadable(last[w.event]) && MineIn(last[w.event].items, mine) == 1
    ensures last[w.event].items != []
    ensures KeepGroups(last[w.event].items, mine) == GroupsFor(hooks, w.event)
  {
    OneOwnedEntry(hooks, w, ours);
    KeepTakesBack(GroupsFor(hooks, w.event), w, mine);
  }

  lemma {:induction false} CountTable(hooks: Fields, events: set<string>, mine: Fields -> bool, table: set<string>)
    requires Readable(hooks) && events <= hooks.Keys
    requires forall e :: e in events ==> MineIn(hooks[e].items, mine) == if e in table then 1 else 0
    ensures MineAmong(hooks, events, mine) == |events * table|
  {
    if events != {} {
      var e :| e in events;
      MineAmongSplit(hooks, events, mine, e);
      CountTable(hooks, events - {e}, mine, table);
      if e in table {
        assert events * table == (events - {e}) * table + {e};
      } else {
        assert events * table == (events - {e}) * table;
      }
    }
  }

  /** An installed configuration, seen by the removal. */
  predicate Installed(hooks: Fields, last: Fields, events: set<string>, mine: Fields -> bool) {
    last.Keys == hooks.Keys + events && forall e :: e in last ==> EventInstalled(hooks, last[e], events, mine, e)
  }

  predicate EventInstalled(hooks: Fields, event: Json, events: set<string>, mine: Fields -> bool, e: string) {
    EventReadable(event)
    && MineIn(event.items, mine) == (if e in events then 1 else 0)
    && KeepGroups(event.items, mine) == GroupsFor(hooks, e)
    && if e in events then event.items != [] else event == Arr(GroupsFor(hooks, e))
  }

  lemma InstalledReads(data: Fields, table: seq<Wanted>, ours: Fields -> bool, mine: Fields -> bool)
    requires DistinctEvents(table) && BothOwn(table, ours, mine) && Unowned(data, table, ours, mine)
    requires InstallAll(HooksOf(data), table, ours).1.Ok?
    ensures Installed(HooksOf(data), InstallAll(HooksOf(data), table, ours).0, Events(table), mine)
  {
    var hooks := HooksOf(data);
    InstallIsSideBySide(hooks, table, ours);
    var (last, found) := (InstallAll(hooks, table, ours).0, InstallAll(hooks, table, ours).1.value);
    forall e | e in last ensures EventInstalled(hooks, last[e], Events(table), mine, e) {
      if e in Events(table) {
        var i :| 0 <= i < |table| && table[i].event == e;
        assert StandsAsMerged(hooks, table[i], ours, last, found[i]);
        assert NoOwnedEntry(hooks, table[i].event, ours);
        TableEvent(hooks, table[i], ours, mine, last, found[i]);
      } else {
        assert last[e] == hooks[e] && EventReadable(hooks[e]);
        KeepWithoutMine(hooks[e].items, mine);
      }
    }
  }

  ghost predicate EventRests(last: Fields, rest: Fields, mine: Fields -> bool, e: string) {
    e in last && EventReadable(last[e])
    && (EventStays(last[e].items, mine) <==> e in rest)
    && (e in rest ==> rest[e] == Arr(KeepGroups(last[e].items, mine)))
  }

  lemma AllRest(last: Fields, rest: Fields, mine: Fields -> bool)
    requires Readable(last) && rest.Keys <= last.Keys && forall e :: e in last ==> EventRests(last, rest, mine, e)
    ensures HooksWithout(last, mine) == rest
  {
    var after := HooksWithout(last, mine);
    forall e ensures e in after <==> e in rest {
      assert e in last ==> EventRests(last, rest, mine, e);
    }
    forall e | e in rest ensures after[e] == rest[e] {
      assert EventRests(last, rest, mine, e);
    }
  }

  lemma InstalledCleans(hooks: Fields, last: Fields, table: seq<Wanted>, mine: Fields -> bool)
    requires Readable(hooks) && Installed(hooks, last, Events(table), mine)
    ensures Readable(last) && HooksWithout(last, mine) == RestoredHooks(hooks, table)
  {
    var rest := RestoredHooks(hooks, table);
    assert Readable(last) by {
      forall e | e in last ensures EventReadable(last[e]) {
        assert EventInstalled(hooks, last[e], Events(table), mine, e);
      }
    }
    forall e | e in last ensures EventRests(last, rest, mine, e) {
      EventComesBack(hooks, last, table, mine, e);
    }
    AllRest(last, rest, mine);
  }

  lemma EventComesBack(hooks: Fields, last: Fields, table: seq<Wanted>, mine: Fields -> bool, e: string)
    requires Readable(hooks) && e in last && (e in hooks || e in Events(table))
    requires EventInstalled(hooks, last[e], Events(table), mine, e)
    ensures EventRests(last, RestoredHooks(hooks, table), mine, e)
  {
    if e in hooks {
      assert EventReadable(hooks[e]) && hooks[e] == Arr(GroupsFor(hooks, e));
    }
  }

  lemma InstalledCounts(hooks: Fields, last: Fields, events: set<string>, mine: Fields -> bool)
    requires Readable(last) && Installed(hooks, last, events, mine)
    ensures MineAmong(last, last.Keys, mine) == |events|
  {
    forall e | e in last.Keys ensures MineIn(last[e].items, mine) == if e in events then 1 else 0 {
      assert EventInstalled(hooks, last[e], events, mine, e);
    }
    CountTable(last, last.Keys, mine, events);
    assert last.Keys * events == events;
  }

  lemma InstalledHooks(data: Fields, table: seq<Wanted>, ours: Fields -> bool, mine: Fields -> bool)
    requires DistinctEvents(table) && BothOwn(table, ours, mine) && Unowned(data, table, ours, mine)
    requires InstallAll(HooksOf(data), table, ours).1.Ok?
    ensures var last := InstallAll(HooksOf(data), table, ours).0;
            Readable(last) && HooksWithout(last, mine) == RestoredHooks(HooksOf(data), table)
            && MineAmong(last, last.Keys, mine) == |Events(table)|
  {
    var last := InstallAll(HooksOf(data), table, ours).0;
    InstalledReads(data, table, ours, mine);
    InstalledCleans(HooksOf(data), last, table, mine);
    InstalledCounts(HooksOf(data), last, Events(table), mine);
  }

  /** Uninstall undoes install, up to containers that were empty to begin with. */
  lemma UninstallUndoesInstall(data: Fields, table: seq<Wanted>, ours: Fields -> bool, mine: Fields -> bool)
    requires table != [] && DistinctEvents(table) && BothOwn(table, ours, mine) && Unowned(data, table, ours, mine)
    requires InstallAll(HooksOf(data), table, ours).1.Ok?
    ensures Uninstalled(data["hooks" := Obj(InstallAll(HooksOf(data), table, ours).0)], mine)
         == Ok((Restored(data, table), |Events(table)|))
  {
    InstalledHooks(data, table, ours, mine);
    assert table[0].event in Events(table);
    TakenBack(data, InstallAll(HooksOf(data), table, ours).0, table, mine);
  }

  lemma TakenBack(data: Fields, last: Fields, table: seq<Wanted>, mine: Fields -> bool)
    requires Readable(last) && HooksWithout(last, mine) == RestoredHooks(HooksOf(data), table)
    requires MineAmong(last, last.Keys, mine) == |Events(table)| && Events(table) != {}
    ensures Uninstalled(data["hooks" := Obj(last)], mine) == Ok((Restored(data, table), |Events(table)|))
  {
    var installed := data["hooks" := Obj(last)];
    var rest := RestoredHooks(HooksOf(data), table);
    UninstalledIs(installed, mine, last, rest, |Events(table)|);
    assert installed["hooks" := Obj(rest)] == data["hooks" := Obj(rest)];
    assert installed - {"hooks"} == data - {"hooks"};
  }

  lemma UninstalledIs(data: Fields, mine: Fields -> bool, hooks: Fields, rest: Fields, n: nat)
    requires "hooks" in data && data["hooks"] == Obj(hooks) && Readable(hooks)
    requires HooksWithout(hooks, mine) == rest && MineAmong(hooks, hooks.Keys, mine) == n && n > 0
    ensures Uninstalled(data, mine)
         == Ok((if rest == map[] then data - {"hooks"} else data["hooks" := Obj(rest)], n))
  {
  }

  /** When the configuration comes back exactly. */
  lemma RestoredExactlyIff(data: Fields, table: seq<Wanted>)
    requires "hooks" in data ==> data["hooks"].Obj?
    ensures Restored(data, table) == data <==>
              ("hooks" in data ==> data["hooks"].fields != map[])
              && forall e :: e in HooksOf(data) && e in Events(table) ==> HooksOf(data)[e] != Arr([])
  {
    var hooks := HooksOf(data);
    var rest := RestoredHooks(hooks, table);
    if forall e :: e in hooks && e in Events(table) ==> hooks[e] != Arr([]) {
      assert rest == hooks;
      if hooks == map[] {
        assert "hooks" !in data ==> data - {"hooks"} == data;
      } else {
        assert data["hooks" := data["hooks"]] == data;
        assert data["hooks"] == Obj(hooks);
      }
    } else {
      var e :| e in hooks && e in Events(table) && hooks[e] == Arr([]);
      assert e in hooks && e !in rest;
      assert rest != hooks && "hooks" in data && data["hooks"] == Obj(hooks);
    }
  }

  // ---------- what any removal leaves ----------

  /** The entries of an event that are not ours, over all its groups. */
  function OthersEntries(groups: seq<Json>, mine: Fields -> bool): seq<Json>
    requires WellFormed(groups)
  {
    if groups == [] then [] else KeepItems(EntriesOf(groups[0]).value, mine) + OthersEntries(groups[1..], mine)
  }

  lemma {:induction false} KeepAgain(items: seq<Json>, mine: Fields -> bool)
    ensures KeepItems(KeepItems(items, mine), mine) == KeepItems(items, mine)
  {
    if items != [] {
      KeepAgain(items[1..], mine);
      var kept := KeepItems(items[1..], mine);
      if IsMine(items[0], mine) {
        assert [] + kept == kept;
      } else {
        assert ([items[0]] + kept)[1..] == kept;
      }
    }
  }

  /** A removal leaves no entry of ours, and every other entry in its order. */
  lemma {:induction false} RemovalLeavesOthers(groups: seq<Json>, mine: Fields -> bool)
    requires WellFormed(groups)
    ensures WellFormed(KeepGroups(groups, mine)) && MineIn(KeepGroups(groups, mine), mine) == 0
    ensures OthersEntries(KeepGroups(groups, mine), mine) == OthersEntries(groups, mine)
  {
    if groups != [] {
      var g, tail := groups[0], groups[1..];
      RemovalLeavesOthers(tail, mine);
      KeepSplits(groups, mine);
      KeepAgain(EntriesOf(g).value, mine);
      if GroupStays(g, mine) {
        OthersBefore(WithEntries(g, KeepItems(EntriesOf(g).value, mine)), KeepGroups(tail, mine), mine);
      } else {
        assert [] + KeepGroups(tail, mine) == KeepGroups(tail, mine);
        assert [] + OthersEntries(tail, mine) == OthersEntries(tail, mine);
      }
    }
  }

  lemma OthersBefore(g: Json, tail: seq<Json>, mine: Fields -> bool)
    requires EntriesOf(g).Some? && WellFormed(tail) && MineIn(tail, mine) == 0
    requires KeepItems(EntriesOf(g).value, mine) == EntriesOf(g).value
    ensures WellFormed([g] + tail) && MineIn([g] + tail, mine) == 0
    ensures OthersEntries([g] + tail, mine) == EntriesOf(g).value + OthersEntries(tail, mine)
  {
    assert ([g] + tail)[1..] == tail;
    MineSplits([g] + tail, mine);
  }

  // ---------- entries the merge replaces ----------

  /** A group that holds nothing but owned entries. */
  predicate Husk(group: Json, ours: Fields -> bool)
    requires EntriesOf(group).Some?
  {
    EntriesOf(group).value != [] && KeepItems(EntriesOf(group).value, ours) == [] && Bare(group)
  }

  /** A husk after the first owned entry. */
  predicate HuskAfterFirst(groups: seq<Json>, ours: Fields -> bool, inserted: bool)
    requires WellFormed(groups)
  {
    groups != []
    && ((inserted && Husk(groups[0], ours))
        || HuskAfterFirst(groups[1..], ours, inserted || OwnedItems(EntriesOf(groups[0]).value, ours) != []))
  }

  lemma {:induction false} OwnedOrKept(items: seq<Json>, ours: Fields -> bool)
    requires AllObjects(items)
    ensures |items| == |OwnedItems(items, ours)| + |KeepItems(items, ours)|
    ensures OwnedItems(items, ours) == [] ==> KeepItems(items, ours) == items
  {
    if items != [] {
      OwnedOrKept(items[1..], ours);
    }
  }

  /** One merged group, seen by a removal with the same notion of ours. */
  lemma MergedGroupStays(g: Json, items: seq<Json>, expected: Fields, ours: Fields -> bool, ok: bool, inserted: bool)
    requires EntriesOf(g).Some? && AllObjects(EntriesOf(g).value) && ours(expected)
    requires MergeItems(EntriesOf(g).value, expected, ours, ok, inserted).Some?
    requires items == MergeItems(EntriesOf(g).value, expected, ours, ok, inserted).value.items
    ensures KeepItems(items, ours) == KeepItems(EntriesOf(g).value, ours)
    ensures GroupStays(WithEntries(g, items), ours) <==> GroupStays(g, ours) || (inserted && Husk(g, ours))
    ensures inserted && Husk(g, ours) ==> !GroupStays(g, ours)
    ensures WithEntries(WithEntries(g, items), KeepItems(items, ours)) == WithEntries(g, KeepItems(items, ours))
  {
    ItemsMeaning(EntriesOf(g).value, expected, ours, ok, inserted);
    OwnedOrKept(EntriesOf(g).value, ours);
    OwnedOrKept(items, ours);
    assert EntriesOf(WithEntries(g, items)) == Some(items);
    assert Bare(WithEntries(g, items)) == Bare(g) by {
      assert WithEntries(g, items).fields.Keys == g.fields.Keys;
    }
  }

  /** A removal forgets an earlier merge exactly when no later group held only owned entries: such
      a group is emptied by the merge and then outlives the removal. */
  lemma {:induction false} RemovalForgetsMergeIff(groups: seq<Json>, w: Wanted, ours: Fields -> bool, inserted: bool)
    requires Mergeable(groups) && ours(w.expected)
    ensures var after := MergeGroups(groups, w, ours, inserted).groups;
            WellFormed(after)
            && |KeepGroups(after, ours)| >= |KeepGroups(groups, ours)|
            && (KeepGroups(after, ours) == KeepGroups(groups, ours) <==> !HuskAfterFirst(groups, ours, inserted))
            && (HuskAfterFirst(groups, ours, inserted) ==> |KeepGroups(after, ours)| > |KeepGroups(groups, ours)|)
  {
    if groups != [] {
      var items := EntriesOf(groups[0]).value;
      var ok := MatcherIs(groups[0], w.matcher);
      ItemsMeaning(items, w.expected, ours, ok, inserted);
      var e := MergeItems(items, w.expected, ours, ok, inserted).value;
      MergedGroupStays(groups[0], e.items, w.expected, ours, ok, inserted);
      MergeableSplits(groups);
      RemovalForgetsMergeIff(groups[1..], w, ours, e.inserted);
      MergeStep(groups, w, ours, inserted);
      KeepTwo(groups[0], groups[1..], WithEntries(groups[0], e.items), MergeGroups(groups[1..], w, ours, e.inserted).groups, ours);
    }
  }

  lemma KeepTwo(g: Json, gs: seq<Json>, h: Json, hs: seq<Json>, ours: Fields -> bool)
    requires EntriesOf(g).Some? && EntriesOf(h).Some? && WellFormed(gs) && WellFormed(hs)
    ensures WellFormed([g] + gs) && WellFormed([h] + hs)
    ensures KeepGroups([g] + gs, ours)
         == (if GroupStays(g, ours) then [WithEntries(g, KeepItems(EntriesOf(g).value, ours))] else []) + KeepGroups(gs, ours)
    ensures KeepGroups([h] + hs, ours)
         == (if GroupStays(h, ours) then [WithEntries(h, KeepItems(EntriesOf(h).value, ours))] else []) + KeepGroups(hs, ours)
  {
    assert ([g] + gs)[1..] == gs && ([h] + hs)[1..] == hs;
  }
}
