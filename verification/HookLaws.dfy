/** What the merge of a shared hook configuration keeps, and what uninstall gives back
    (tools/install_host_guard.py). */
module HookLaws {
  import opened Outcome
  import opened HookMerge

  /** The owned entries of a group, in order. */
  function OwnedItems(items: seq<Json>, ours: Fields -> bool): seq<Fields> {
    if items == [] then []
    else (if IsMine(items[0], ours) then [items[0].fields] else []) + OwnedItems(items[1..], ours)
  }

  function OwnedEntries(groups: seq<Json>, ours: Fields -> bool): seq<Fields>
    requires WellFormed(groups)
  {
    if groups == [] then []
    else OwnedItems(EntriesOf(groups[0]).value, ours) + OwnedEntries(groups[1..], ours)
  }

  function MarkAll(owned: seq<Fields>, ok: bool): seq<Fields> {
    if owned == [] then [] else [Marked(owned[0], ok)] + MarkAll(owned[1..], ok)
  }

  /** Every owned entry, marked with whether its own group carries the matcher. */
  function MarkedEntries(groups: seq<Json>, matcher: Option<string>, ours: Fields -> bool): seq<Fields>
    requires WellFormed(groups)
  {
    if groups == [] then []
    else
      MarkAll(OwnedItems(EntriesOf(groups[0]).value, ours), MatcherIs(groups[0], matcher))
      + MarkedEntries(groups[1..], matcher, ours)
  }

  predicate AllObjects(items: seq<Json>) {
    forall i :: 0 <= i < |items| ==> items[i].Obj?
  }

  /** What the merge accepts: groups that hold a list of objects. */
  predicate Mergeable(groups: seq<Json>) {
    WellFormed(groups) && forall i :: 0 <= i < |groups| ==> AllObjects(EntriesOf(groups[i]).value)
  }

  /** The same group but for its entries, and the same foreign entries in the same order. */
  predicate SameForOthers(before: Json, after: Json, ours: Fields -> bool) {
    EntriesOf(before).Some? && EntriesOf(after).Some?
    && after == WithEntries(before, EntriesOf(after).value)
    && KeepItems(EntriesOf(after).value, ours) == KeepItems(EntriesOf(before).value, ours)
  }

  // ---------- one group ----------

  /** What a group's merged entries have to be. */
  predicate ItemsMerged(items: seq<Json>, e: Entries, expected: Fields, ours: Fields -> bool, ok: bool, inserted: bool) {
    AllObjects(e.items)
    && KeepItems(e.items, ours) == KeepItems(items, ours)
    && OwnedItems(e.items, ours) == (if inserted || OwnedItems(items, ours) == [] then [] else [expected])
    && e.owned == MarkAll(OwnedItems(items, ours), ok)
    && e.inserted == (inserted || OwnedItems(items, ours) != [])
  }

  lemma {:induction false} ItemsMeaning(items: seq<Json>, expected: Fields, ours: Fields -> bool, ok: bool, inserted: bool)
    requires ours(expected)
    ensures MergeItems(items, expected, ours, ok, inserted).Some? <==> AllObjects(items)
    ensures AllObjects(items) ==>
              ItemsMerged(items, MergeItems(items, expected, ours, ok, inserted).value, expected, ours, ok, inserted)
  {
    if items != [] && items[0].Obj? {
      var mine := ours(items[0].fields);
      ItemsMeaning(items[1..], expected, ours, ok, inserted || mine);
      if AllObjects(items[1..]) {
        var rest := MergeItems(items[1..], expected, ours, ok, inserted || mine).value;
        if mine {
          OwnedBefore(items, rest, expected, ours, ok, inserted);
        } else {
          ForeignBefore(items, rest, expected, ours, ok, inserted);
        }
      }
    }
  }

  lemma ForeignBefore(items: seq<Json>, rest: Entries, expected: Fields, ours: Fields -> bool, ok: bool, inserted: bool)
    requires items != [] && items[0].Obj? && !ours(items[0].fields)
    requires ItemsMerged(items[1..], rest, expected, ours, ok, inserted)
    ensures ItemsMerged(items, Entries([items[0]] + rest.items, rest.owned, rest.inserted), expected, ours, ok, inserted)
  {
    PutBefore([items[0]], rest.items, ours);
    PutBefore([items[0]], items[1..], ours);
    assert items == [items[0]] + items[1..] && [items[0]][1..] == [];
    assert OwnedItems(items, ours) == OwnedItems(items[1..], ours);
    assert OwnedItems([items[0]] + rest.items, ours) == OwnedItems(rest.items, ours);
  }

  lemma OwnedBefore(items: seq<Json>, rest: Entries, expected: Fields, ours: Fields -> bool, ok: bool, inserted: bool)
    requires items != [] && items[0].Obj? && ours(items[0].fields) && ours(expected)
    requires ItemsMerged(items[1..], rest, expected, ours, ok, true)
    ensures ItemsMerged(items, Entries((if inserted then [] else [Obj(expected)]) + rest.items, [Marked(items[0].fields, ok)] + rest.owned,
                                       rest.inserted), expected, ours, ok, inserted)
  {
    var head := if inserted then [] else [Obj(expected)];
    PutBefore(head, rest.items, ours);
    PutBefore([items[0]], items[1..], ours);
    assert items == [items[0]] + items[1..] && [items[0]][1..] == [] && head[|head|..] == [];
    var own := OwnedItems(items[1..], ours);
    assert OwnedItems(items, ours) == [items[0].fields] + own;
    assert ([items[0].fields] + own)[1..] == own;
    assert OwnedItems(head, ours) == if inserted then [] else [expected];
    assert KeepItems(head, ours) == [];
    assert [] + KeepItems(items[1..], ours) == KeepItems(items[1..], ours);
  }

  lemma PutBefore(head: seq<Json>, items: seq<Json>, ours: Fields -> bool)
    requires |head| <= 1
    ensures KeepItems(head + items, ours) == KeepItems(head, ours) + KeepItems(items, ours)
    ensures OwnedItems(head + items, ours) == OwnedItems(head, ours) + OwnedItems(items, ours)
  {
    if head == [] {
      assert head + items == items;
    } else {
      assert (head + items)[1..] == items && head[1..] == [];
    }
  }

  /** Entries with no owned one among them, or only the wanted one, are left as they are. */
  lemma {:induction false} ItemsStay(items: seq<Json>, expected: Fields, ours: Fields -> bool, ok: bool, inserted: bool)
    requires AllObjects(items)
    requires OwnedItems(items, ours) == [] || (!inserted && OwnedItems(items, ours) == [expected])
    ensures MergeItems(items, expected, ours, ok, inserted)
         == Some(Entries(items, MarkAll(OwnedItems(items, ours), ok), inserted || OwnedItems(items, ours) != []))
  {
    if items != [] {
      var own := OwnedItems(items[1..], ours);
      if ours(items[0].fields) {
        assert OwnedItems(items, ours) == [items[0].fields] + own;
        assert OwnedItems(items, ours)[0] == items[0].fields;
        assert own == OwnedItems(items, ours)[1..];
        assert items == [Obj(expected)] + items[1..];
      } else {
        assert OwnedItems(items, ours) == own;
        assert items == [items[0]] + items[1..];
      }
      ItemsStay(items[1..], expected, ours, ok, inserted || ours(items[0].fields));
    }
  }

  lemma SameEntries(group: Json)
    requires EntriesOf(group).Some?
    ensures WithEntries(group, EntriesOf(group).value) == group
  {
    assert group.fields["hooks" := Arr(EntriesOf(group).value)] == group.fields;
  }

  // ---------- the merge of an event ----------

  /** The merge raises exactly for a malformed group or entry; otherwise it returns every owned
      entry, keeps every foreign one and every group, and leaves one owned entry at most. */
  lemma {:induction false} GroupsMeaning(groups: seq<Json>, w: Wanted, ours: Fields -> bool, inserted: bool)
    requires ours(w.expected)
    ensures MergeGroups(groups, w, ours, inserted).error == None <==> Mergeable(groups)
    ensures Mergeable(groups) ==>
              var m := MergeGroups(groups, w, ours, inserted);
              MergesTo(groups, m.groups, w, ours, inserted)
              && m.owned == MarkedEntries(groups, w.matcher, ours)
              && m.inserted == (inserted || OwnedEntries(groups, ours) != [])
  {
    if groups != [] && EntriesOf(groups[0]).Some? {
      var items := EntriesOf(groups[0]).value;
      var ok := MatcherIs(groups[0], w.matcher);
      ItemsMeaning(items, w.expected, ours, ok, inserted);
      if AllObjects(items) {
        var e := MergeItems(items, w.expected, ours, ok, inserted).value;
        GroupsMeaning(groups[1..], w, ours, e.inserted);
        MergeableSplits(groups);
        MergeStep(groups, w, ours, inserted);
        if Mergeable(groups[1..]) {
          GroupBefore(groups, w, ours, inserted, e.items, MergeGroups(groups[1..], w, ours, e.inserted).groups);
        }
      }
    }
  }

  lemma MergeableSplits(groups: seq<Json>)
    requires groups != []
    ensures Mergeable(groups) <==> EntriesOf(groups[0]).Some? && AllObjects(EntriesOf(groups[0]).value) && Mergeable(groups[1..])
  {
    assert groups == [groups[0]] + groups[1..];
  }

  /** What a merged list of groups has to be. */
  predicate MergesTo(groups: seq<Json>, after: seq<Json>, w: Wanted, ours: Fields -> bool, inserted: bool)
    requires Mergeable(groups)
  {
    Mergeable(after) && |after| == |groups|
    && (forall i :: 0 <= i < |groups| ==> SameForOthers(groups[i], after[i], ours))
    && OwnedEntries(after, ours) == (if inserted || OwnedEntries(groups, ours) == [] then [] else [w.expected])
  }

  lemma GroupBefore(groups: seq<Json>, w: Wanted, ours: Fields -> bool, inserted: bool, items: seq<Json>, rest: seq<Json>)
    requires groups != [] && Mergeable(groups) && Mergeable(groups[1..])
    requires AllObjects(items) && KeepItems(items, ours) == KeepItems(EntriesOf(groups[0]).value, ours)
    requires var own := OwnedItems(EntriesOf(groups[0]).value, ours);
             OwnedItems(items, ours) == (if inserted || own == [] then [] else [w.expected])
             && MergesTo(groups[1..], rest, w, ours, inserted || own != [])
    ensures MergesTo(groups, [WithEntries(groups[0], items)] + rest, w, ours, inserted)
  {
    var first := WithEntries(groups[0], items);
    var all := [first] + rest;
    assert EntriesOf(first) == Some(items);
    assert all[0] == first && all[1..] == rest;
    MergeableSplits(all);
    forall i | 0 <= i < |groups| ensures SameForOthers(groups[i], all[i], ours) {
      if i > 0 {
        assert groups[i] == groups[1..][i - 1] && all[i] == rest[i - 1];
      }
    }
    assert OwnedEntries(all, ours) == OwnedItems(items, ours) + OwnedEntries(rest, ours);
  }

  /** The first owned entry is replaced where it stood: nothing before it moves. */
  lemma {:induction false} FirstStandsInPlace(items: seq<Json>, expected: Fields, ours: Fields -> bool, ok: bool, i: nat)
    requires AllObjects(items) && i < |items| && ours(expected)
    requires ours(items[i].fields) && forall j :: 0 <= j < i ==> !ours(items[j].fields)
    ensures var e := MergeItems(items, expected, ours, ok, false);
            e.Some? && |e.value.items| > i && e.value.items[..i + 1] == items[..i] + [Obj(expected)]
  {
    ItemsMeaning(items, expected, ours, ok, false);
    if i > 0 {
      FirstStandsInPlace(items[1..], expected, ours, ok, i - 1);
      var rest := MergeItems(items[1..], expected, ours, ok, false).value.items;
      assert MergeItems(items, expected, ours, ok, false).value.items == [items[0]] + rest;
      assert ([items[0]] + rest)[..i + 1] == [items[0]] + rest[..i];
      assert [items[0]] + (items[1..][..i - 1] + [Obj(expected)]) == items[..i] + [Obj(expected)];
    }
  }

  lemma UnownedGroup(g: Json, rest: seq<Json>, w: Wanted, ours: Fields -> bool)
    requires EntriesOf(g).Some? && AllObjects(EntriesOf(g).value) && OwnedItems(EntriesOf(g).value, ours) == []
    ensures MergeGroups([g] + rest, w, ours, false).groups == [g] + MergeGroups(rest, w, ours, false).groups
  {
    ItemsStay(EntriesOf(g).value, w.expected, ours, MatcherIs(g, w.matcher), false);
    SameEntries(g);
    assert ([g] + rest)[1..] == rest;
    MergeStep([g] + rest, w, ours, false);
  }

  lemma UnownedSplits(front: seq<Json>, w: Wanted, ours: Fields -> bool)
    requires front != [] && Mergeable(front) && OwnedEntries(front, ours) == []
    ensures EntriesOf(front[0]).Some? && AllObjects(EntriesOf(front[0]).value) && OwnedItems(EntriesOf(front[0]).value, ours) == []
    ensures Mergeable(front[1..]) && OwnedEntries(front[1..], ours) == []
  {
    MergeableSplits(front);
    OneOfTwo(OwnedItems(EntriesOf(front[0]).value, ours), OwnedEntries(front[1..], ours), w.expected);
  }

  lemma {:induction false} UnownedPrefix(front: seq<Json>, rest: seq<Json>, w: Wanted, ours: Fields -> bool)
    requires Mergeable(front) && OwnedEntries(front, ours) == []
    ensures MergeGroups(front + rest, w, ours, false).groups == front + MergeGroups(rest, w, ours, false).groups
  {
    if front == [] {
      assert front + rest == rest;
    } else {
      var g, tail := front[0], front[1..];
      UnownedSplits(front, w, ours);
      UnownedGroup(g, tail + rest, w, ours);
      UnownedPrefix(tail, rest, w, ours);
      Regroup(g, tail, rest, front);
      Regroup(g, tail, MergeGroups(rest, w, ours, false).groups, front);
    }
  }

  lemma Regroup(g: Json, tail: seq<Json>, rest: seq<Json>, front: seq<Json>)
    requires front == [g] + tail
    ensures front + rest == [g] + (tail + rest)
  {
  }

  /** Groups before the first owned entry are not touched, and its own group gets it in place. */
  lemma FirstGroupInPlace(groups: seq<Json>, w: Wanted, ours: Fields -> bool, g: nat, i: nat)
    requires Mergeable(groups) && g < |groups| && ours(w.expected)
    requires OwnedEntries(groups[..g], ours) == []
    requires i < |EntriesOf(groups[g]).value| && ours(EntriesOf(groups[g]).value[i].fields)
    requires forall j :: 0 <= j < i ==> !ours(EntriesOf(groups[g]).value[j].fields)
    ensures var after := MergeGroups(groups, w, ours, false).groups;
            |after| > g && after[..g] == groups[..g] && EntriesOf(after[g]).Some?
            && |EntriesOf(after[g]).value| > i
            && EntriesOf(after[g]).value[..i + 1] == EntriesOf(groups[g]).value[..i] + [Obj(w.expected)]
  {
    var rest := groups[g..];
    UnownedPrefix(groups[..g], rest, w, ours);
    assert groups == groups[..g] + rest;
    assert rest[0] == groups[g];
    FirstStandsInPlace(EntriesOf(rest[0]).value, w.expected, ours, MatcherIs(rest[0], w.matcher), i);
    MergeStep(rest, w, ours, false);
  }

  // ---------- a second install ----------

  /** Does the group the wanted entry ends up in carry the matcher? */
  predicate MatcherHolds(groups: seq<Json>, w: Wanted, ours: Fields -> bool)
    requires WellFormed(groups)
  {
    if groups == [] then w.matcher != Some("")
    else if OwnedItems(EntriesOf(groups[0]).value, ours) != [] then MatcherIs(groups[0], w.matcher)
    else MatcherHolds(groups[1..], w, ours)
  }

  /** Groups whose only owned entry is the wanted one are a fixed point of the merge. */
  lemma {:induction false} GroupsStay(groups: seq<Json>, w: Wanted, ours: Fields -> bool, inserted: bool)
    requires Mergeable(groups) && ours(w.expected)
    requires OwnedEntries(groups, ours) == [] || (!inserted && OwnedEntries(groups, ours) == [w.expected])
    ensures MergeGroups(groups, w, ours, inserted)
         == Merge(groups, MarkedEntries(groups, w.matcher, ours), inserted || OwnedEntries(groups, ours) != [], None)
    ensures OwnedEntries(groups, ours) != [] ==>
              MarkedEntries(groups, w.matcher, ours) == [Marked(w.expected, MatcherHolds(groups, w, ours))]
    ensures OwnedEntries(groups, ours) == [] ==> MarkedEntries(groups, w.matcher, ours) == []
  {
    if groups != [] {
      var items := EntriesOf(groups[0]).value;
      var ok := MatcherIs(groups[0], w.matcher);
      var own, rest := OwnedItems(items, ours), OwnedEntries(groups[1..], ours);
      OneOfTwo(own, rest, w.expected);
      ItemsStay(items, w.expected, ours, ok, inserted);
      SameEntries(groups[0]);
      MergeableSplits(groups);
      GroupsStay(groups[1..], w, ours, inserted || own != []);
      MergeStep(groups, w, ours, inserted);
      if own != [] {
        assert MarkAll(own, ok) == [Marked(w.expected, ok)];
      }
    }
  }

  lemma OneOfTwo(a: seq<Fields>, b: seq<Fields>, x: Fields)
    ensures a + b == [] ==> a == [] && b == []
    ensures a + b == [x] ==> (a == [x] && b == []) || (a == [] && b == [x])
  {
    if a + b == [x] {
      if a == [] {
        assert a + b == b;
      } else {
        assert (a + b)[0] == a[0] && |a| + |b| == 1;
      }
    }
  }

  lemma {:induction false} AppendOwned(groups: seq<Json>, g: Json, w: Wanted, ours: Fields -> bool)
    requires WellFormed(groups) && EntriesOf(g).Some?
    ensures WellFormed(groups + [g])
    ensures OwnedEntries(groups + [g], ours) == OwnedEntries(groups, ours) + OwnedItems(EntriesOf(g).value, ours)
    ensures OwnedEntries(groups, ours) == [] && OwnedItems(EntriesOf(g).value, ours) != [] ==>
              MatcherHolds(groups + [g], w, ours) == MatcherIs(g, w.matcher)
  {
    if groups == [] {
      assert groups + [g] == [g] && [g][1..] == [];
    } else {
      assert (groups + [g])[0] == groups[0] && (groups + [g])[1..] == groups[1..] + [g];
      AppendOwned(groups[1..], g, w, ours);
      OneOfTwo(OwnedItems(EntriesOf(groups[0]).value, ours), OwnedEntries(groups[1..], ours), w.expected);
    }
  }

  lemma NewGroupMeaning(w: Wanted, ours: Fields -> bool)
    requires ours(w.expected)
    ensures var g := NewGroup(w);
            EntriesOf(g) == Some([Obj(w.expected)]) && Bare(g)
            && OwnedItems(EntriesOf(g).value, ours) == [w.expected]
            && (MatcherIs(g, w.matcher) <==> w.matcher != Some(""))
  {
    assert [Obj(w.expected)][1..] == [];
  }

  /** The first owned entry's group decides, before the merge and after it. */
  lemma {:induction false} MatcherHoldsSame(before: seq<Json>, after: seq<Json>, w: Wanted, ours: Fields -> bool)
    requires Mergeable(before) && ours(w.expected) && OwnedEntries(before, ours) != []
    requires after == MergeGroups(before, w, ours, false).groups && Mergeable(after)
    ensures MatcherHolds(after, w, ours) == MatcherHolds(before, w, ours)
  {
    var items := EntriesOf(before[0]).value;
    var ok := MatcherIs(before[0], w.matcher);
    MergeStep(before, w, ours, false);
    ItemsMeaning(items, w.expected, ours, ok, false);
    if OwnedItems(items, ours) == [] {
      ItemsStay(items, w.expected, ours, ok, false);
      MergeableSplits(before);
      MergeableSplits(after);
      SameEntries(before[0]);
      assert after[0] == before[0];
      MatcherHoldsSame(before[1..], after[1..], w, ours);
    }
  }

  /** The groups an event has, an absent one having none. */
  function GroupsFor(hooks: Fields, event: string): seq<Json> {
    if event in hooks && hooks[event].Arr? then hooks[event].items else []
  }

  /** What a successful merge of an event leaves there. */
  lemma MergedEvent(hooks: Fields, w: Wanted, ours: Fields -> bool)
    requires OwnStep(hooks, w, ours).1.Ok?
    ensures var m := MergeGroups(GroupsFor(hooks, w.event), w, ours, false);
            m.error == None
            && OwnStep(hooks, w, ours)
               == (hooks[w.event := Arr(if m.inserted then m.groups else m.groups + [NewGroup(w)])], Ok(m.owned))
  {
    var m := MergeGroups(GroupsFor(hooks, w.event), w, ours, false);
    assert m.groups + [] == m.groups;
  }

  /** After a successful merge of an event: exactly one owned entry, the wanted one; the groups
      that were there before it unchanged for everyone else; at most one group added, at the end. */
  lemma OneOwnedEntry(hooks: Fields, w: Wanted, ours: Fields -> bool)
    requires ours(w.expected) && OwnStep(hooks, w, ours).1.Ok?
    ensures var before := GroupsFor(hooks, w.event);
            var (next, r) := OwnStep(hooks, w, ours);
            var after := GroupsFor(next, w.event);
            Mergeable(before) && Mergeable(after) && next == hooks[w.event := Arr(after)]
            && OwnedEntries(after, ours) == [w.expected]
            && r.value == MarkedEntries(before, w.matcher, ours)
            && (if OwnedEntries(before, ours) == [] then after == before + [NewGroup(w)]
                else |after| == |before| && forall i :: 0 <= i < |before| ==> SameForOthers(before[i], after[i], ours))
  {
    var before := GroupsFor(hooks, w.event);
    MergedEvent(hooks, w, ours);
    GroupsMeaning(before, w, ours, false);
    if OwnedEntries(before, ours) == [] {
      AppendedGroup(before, w, ours);
    }
  }

  /** Without an owned entry the merge only appends its group. */
  lemma AppendedGroup(groups: seq<Json>, w: Wanted, ours: Fields -> bool)
    requires Mergeable(groups) && ours(w.expected) && OwnedEntries(groups, ours) == []
    ensures MergeGroups(groups, w, ours, false) == Merge(groups, [], false, None)
    ensures Mergeable(groups + [NewGroup(w)]) && OwnedEntries(groups + [NewGroup(w)], ours) == [w.expected]
  {
    GroupsStay(groups, w, ours, false);
    NewGroupMeaning(w, ours);
    AppendOwned(groups, NewGroup(w), w, ours);
  }

  /** Who is refused, exactly. */
  lemma MergeRefusedIff(hooks: Fields, w: Wanted, ours: Fields -> bool)
    requires ours(w.expected)
    ensures OwnStep(hooks, w, ours).1.Ok? <==>
              (w.event in hooks ==> hooks[w.event].Arr?) && Mergeable(GroupsFor(hooks, w.event))
  {
    GroupsMeaning(GroupsFor(hooks, w.event), w, ours, false);
  }

  /** A second merge changes nothing, and finds the wanted entry under the right matcher exactly
      when the group that first held an owned entry had it (a new group always does). */
  lemma SecondInstallChangesNothing(hooks: Fields, w: Wanted, ours: Fields -> bool)
    requires ours(w.expected) && OwnStep(hooks, w, ours).1.Ok?
    ensures var next := OwnStep(hooks, w, ours).0;
            WellFormed(GroupsFor(hooks, w.event))
            && OwnStep(next, w, ours)
               == (next, Ok([Marked(w.expected, MatcherHolds(GroupsFor(hooks, w.event), w, ours))]))
  {
    OneOwnedEntry(hooks, w, ours);
    var before := GroupsFor(hooks, w.event);
    var next := OwnStep(hooks, w, ours).0;
    var after := GroupsFor(next, w.event);
    GroupsStay(after, w, ours, false);
    assert after + [] == after;
    assert next[w.event := Arr(after)] == next;
    GroupsMeaning(before, w, ours, false);
    if OwnedEntries(before, ours) == [] {
      NewGroupMeaning(w, ours);
      AppendOwned(before, NewGroup(w), w, ours);
      NoneOwned(before, w, ours);
    } else {
      assert MergeGroups(before, w, ours, false).groups + [] == MergeGroups(before, w, ours, false).groups;
      MatcherHoldsSame(before, after, w, ours);
    }
  }

  lemma {:induction false} NoneOwned(groups: seq<Json>, w: Wanted, ours: Fields -> bool)
    requires WellFormed(groups) && OwnedEntries(groups, ours) == []
    ensures MatcherHolds(groups, w, ours) <==> w.matcher != Some("")
  {
    if groups != [] {
      OneOfTwo(OwnedItems(EntriesOf(groups[0]).value, ours), OwnedEntries(groups[1..], ours), w.expected);
      NoneOwned(groups[1..], w, ours);
    }
  }
}
