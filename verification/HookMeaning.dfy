/** The merge and the removal of hook entries in their own terms: groups, markers, who is refused
    over what, and what goes (tools/install_host_guard.py). */
module HookMeaning {
  import opened Outcome
  import opened HookMerge
  import opened HookLaws

  // ---------- groups ----------

  /** A group is an object with a list under `hooks`. */
  lemma EntriesIff(group: Json, items: seq<Json>)
    ensures EntriesOf(group) == Some(items) <==>
              exists fields: Fields :: group == Obj(fields) && "hooks" in fields && fields["hooks"] == Arr(items)
  {
    if group.Obj? {
      assert group == Obj(group.fields);
    }
  }

  /** `fields` are a group's with its entries replaced. */
  predicate SameButEntries(before: Fields, after: Fields, items: seq<Json>) {
    && after.Keys == before.Keys + {"hooks"} && after["hooks"] == Arr(items)
    && forall k :: k in before && k != "hooks" ==> after[k] == before[k]
  }

  lemma WithEntriesMeaning(group: Json, items: seq<Json>)
    requires group.Obj?
    ensures var after := WithEntries(group, items); after.Obj? && SameButEntries(group.fields, after.fields, items)
  {
  }

  /** An owned entry is returned as it is, but for the mark. */
  lemma MarkedMeaning(hook: Fields, ok: bool, key: string)
    ensures key in Marked(hook, ok) <==> key in hook || key == "_matcher_ok"
    ensures key in Marked(hook, ok) ==> Marked(hook, ok)[key] == if key == "_matcher_ok" then Bool(ok) else hook[key]
  {
  }

  /** A group carries the matcher if it says so, or if none is wanted and it has none or a null one. */
  lemma MatcherIff(fields: Fields, matcher: Option<string>)
    ensures MatcherIs(Obj(fields), matcher) <==>
              match matcher
              case Some(m) => "matcher" in fields && fields["matcher"] == Text(m)
              case None => "matcher" !in fields || fields["matcher"] == Null
  {
  }

  /** A new group holds the wanted entry, and a matcher if one is wanted that is not empty. */
  lemma NewGroupIs(w: Wanted)
    ensures NewGroup(w).Obj? && "hooks" in NewGroup(w).fields && NewGroup(w).fields["hooks"] == Arr([Obj(w.expected)])
    ensures w.matcher.Some? && w.matcher.value != "" ==>
              NewGroup(w).fields.Keys == {"hooks", "matcher"} && NewGroup(w).fields["matcher"] == Text(w.matcher.value)
    ensures w.matcher.None? || w.matcher.value == "" ==> NewGroup(w).fields.Keys == {"hooks"}
  {
  }

  // ---------- a merge that is refused ----------

  /** Over which group a merge is refused, and that it and those behind it are left as they were. */
  lemma {:induction false} MergeStopsAt(front: seq<Json>, g: Json, rest: seq<Json>, w: Wanted, ours: Fields -> bool, inserted: bool)
    requires Mergeable(front) && ours(w.expected) && !Mergeable([g])
    ensures var m := MergeGroups(front + ([g] + rest), w, ours, inserted);
            && m.error == Some(if EntriesOf(g).None? then MalformedGroup(w.event) else MalformedEntry)
            && m.groups == MergeGroups(front, w, ours, inserted).groups + ([g] + rest)
  {
    if front == [] {
      StopsHere(g, rest, w, ours, inserted);
      assert front + ([g] + rest) == [g] + rest && [] + ([g] + rest) == [g] + rest;
    } else {
      var items := EntriesOf(front[0]).value;
      ItemsMeaning(items, w.expected, ours, MatcherIs(front[0], w.matcher), inserted);
      var e := MergeItems(items, w.expected, ours, MatcherIs(front[0], w.matcher), inserted).value;
      MergeableSplits(front);
      MergeStopsAt(front[1..], g, rest, w, ours, e.inserted);
      FirstMerges(front[0], front[1..], w, ours, inserted);
      FirstMerges(front[0], front[1..] + ([g] + rest), w, ours, inserted);
      Prefix(front[0], front[1..], [g] + rest, front);
      Prefix(WithEntries(front[0], e.items), MergeGroups(front[1..], w, ours, e.inserted).groups, [g] + rest,
             MergeGroups(front, w, ours, inserted).groups);
    }
  }

  lemma Prefix(g: Json, tail: seq<Json>, more: seq<Json>, front: seq<Json>)
    requires front == [g] + tail
    ensures front + more == [g] + (tail + more)
  {
  }

  lemma StopsHere(g: Json, rest: seq<Json>, w: Wanted, ours: Fields -> bool, inserted: bool)
    requires ours(w.expected) && !Mergeable([g])
    ensures MergeGroups([g] + rest, w, ours, inserted)
         == Merge([g] + rest, [], inserted, Some(if EntriesOf(g).None? then MalformedGroup(w.event) else MalformedEntry))
  {
    assert [g][0] == g;
    if EntriesOf(g).Some? {
      ItemsMeaning(EntriesOf(g).value, w.expected, ours, MatcherIs(g, w.matcher), inserted);
      assert !AllObjects(EntriesOf(g).value);
    }
  }

  lemma FirstMerges(g: Json, tail: seq<Json>, w: Wanted, ours: Fields -> bool, inserted: bool)
    requires EntriesOf(g).Some?
    requires MergeItems(EntriesOf(g).value, w.expected, ours, MatcherIs(g, w.matcher), inserted).Some?
    ensures var e := MergeItems(EntriesOf(g).value, w.expected, ours, MatcherIs(g, w.matcher), inserted).value;
            var m, after := MergeGroups([g] + tail, w, ours, inserted), MergeGroups(tail, w, ours, e.inserted);
            m.groups == [WithEntries(g, e.items)] + after.groups && m.error == after.error
  {
    assert ([g] + tail)[1..] == tail;
  }

  /** An event that is not a list is refused, and nothing is changed. */
  lemma NotAnArrayIff(hooks: Fields, w: Wanted, ours: Fields -> bool)
    requires ours(w.expected)
    ensures OwnStep(hooks, w, ours).1 == Err(EventNotArray(w.event)) <==> w.event in hooks && !hooks[w.event].Arr?
    ensures w.event in hooks && !hooks[w.event].Arr? ==> OwnStep(hooks, w, ours).0 == hooks
  {
    if w.event !in hooks || hooks[w.event].Arr? {
      NoOtherError(GroupsFor(hooks, w.event), w, ours, false);
    }
  }

  lemma {:induction false} NoOtherError(groups: seq<Json>, w: Wanted, ours: Fields -> bool, inserted: bool)
    ensures MergeGroups(groups, w, ours, inserted).error in {None, Some(MalformedGroup(w.event)), Some(MalformedEntry)}
  {
    if groups != [] && EntriesOf(groups[0]).Some? {
      var e := MergeItems(EntriesOf(groups[0]).value, w.expected, ours, MatcherIs(groups[0], w.matcher), inserted);
      if e.Some? {
        NoOtherError(groups[1..], w, ours, e.value.inserted);
      }
    }
  }

  // ---------- what a removal takes ----------

  /** Entry by entry: the objects that are ours go. */
  lemma {:induction false} KeepItemsMeaning(items: seq<Json>, last: Json, mine: Fields -> bool)
    ensures KeepItems([], mine) == []
    ensures KeepItems(items + [last], mine)
         == KeepItems(items, mine) + if last.Obj? && mine(last.fields) then [] else [last]
  {
    if items == [] {
      assert [] + [last] == [last] && [last][1..] == [];
    } else {
      assert (items + [last])[0] == items[0] && (items + [last])[1..] == items[1..] + [last];
      KeepItemsMeaning(items[1..], last, mine);
    }
  }

  /** Every entry is ours, and there is one. */
  predicate AllOurs(items: seq<Json>, mine: Fields -> bool) {
    items != [] && forall x :: x in items ==> x.Obj? && mine(x.fields)
  }

  lemma {:induction false} NoneKeptIff(items: seq<Json>, mine: Fields -> bool)
    ensures KeepItems(items, mine) == [] <==> forall x :: x in items ==> x.Obj? && mine(x.fields)
  {
    if items != [] {
      NoneKeptIff(items[1..], mine);
      assert items == [items[0]] + items[1..];
    }
  }

  /** A group goes exactly if it has entries, all of them ours, and says nothing but its matcher. */
  lemma GroupGoesIff(g: Json, mine: Fields -> bool)
    requires EntriesOf(g).Some?
    ensures !GroupStays(g, mine) <==>
              AllOurs(EntriesOf(g).value, mine) && forall k :: k in g.fields ==> k == "matcher" || k == "hooks"
  {
    NoneKeptIff(EntriesOf(g).value, mine);
  }

  /** Group by group. */
  lemma {:induction false} KeepGroupsMeaning(groups: seq<Json>, g: Json, mine: Fields -> bool)
    requires WellFormed(groups) && EntriesOf(g).Some?
    ensures WellFormed(groups + [g]) && KeepGroups([], mine) == []
    ensures var items := EntriesOf(g).value;
            var left := if AllOurs(items, mine) && (forall k :: k in g.fields ==> k == "matcher" || k == "hooks")
                        then [] else [WithEntries(g, KeepItems(items, mine))];
            KeepGroups(groups + [g], mine) == KeepGroups(groups, mine) + left
            && MineIn(groups + [g], mine) == MineIn(groups, mine) + |items| - |KeepItems(items, mine)|
  {
    GroupGoesIff(g, mine);
    if groups == [] {
      assert [] + [g] == [g] && [g][1..] == [];
    } else {
      assert (groups + [g])[0] == groups[0] && (groups + [g])[1..] == groups[1..] + [g];
      KeepGroupsMeaning(groups[1..], g, mine);
      KeepSplits(groups + [g], mine);
      KeepSplits(groups, mine);
    }
  }

  /** The whole removal: who is refused, what becomes of every key and of every event. */
  lemma UninstallMeaning(data: Fields, mine: Fields -> bool, key: string, event: string)
    ensures Uninstalled(data, mine) == Err(HooksNotObject) <==> "hooks" in data && !data["hooks"].Obj?
    ensures Uninstalled(data, mine).Err? && Uninstalled(data, mine) != Err(HooksNotObject) <==>
              HasHooks(data) && exists e :: e in data["hooks"].fields && !EventReadable(data["hooks"].fields[e])
    ensures Uninstalled(data, mine).Ok? ==>
              var (after, removed) := Uninstalled(data, mine).value;
              && (key != "hooks" ==> (key in after <==> key in data) && (key in after ==> after[key] == data[key]))
              && ("hooks" in after ==> HasHooks(after) && HasHooks(data) && Readable(data["hooks"].fields))
              && ("hooks" in data ==> HasHooks(data) && Readable(data["hooks"].fields))
              && ("hooks" in data && "hooks" !in after <==>
                    "hooks" in data && removed > 0
                    && forall e :: e in data["hooks"].fields ==>
                         data["hooks"].fields[e].items != [] && KeepGroups(data["hooks"].fields[e].items, mine) == [])
              && ("hooks" in after ==>
                    var before, left := data["hooks"].fields, after["hooks"].fields;
                    (event in left <==> event in before && (before[event].items == [] || KeepGroups(before[event].items, mine) != []))
                    && (event in left ==> left[event] == Arr(KeepGroups(before[event].items, mine))))
  {
    if HasHooks(data) && Readable(data["hooks"].fields) {
      EmptyIff(data["hooks"].fields, mine);
    }
  }

  lemma EmptyIff(hooks: Fields, mine: Fields -> bool)
    requires Readable(hooks)
    ensures HooksWithout(hooks, mine) == map[] <==>
              forall e :: e in hooks ==> hooks[e].items != [] && KeepGroups(hooks[e].items, mine) == []
  {
    var after := HooksWithout(hooks, mine);
    if after == map[] {
      forall e | e in hooks ensures hooks[e].items != [] && KeepGroups(hooks[e].items, mine) == [] {
        assert e !in after;
      }
    } else {
      var e :| e in after;
    }
  }
}
