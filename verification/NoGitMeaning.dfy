/** What the walk without Git records, by the names that lead to it (tools/freshness.py,
    tools/freshness_golden_v1.py). */
module NoGitMeaning {
  import opened Outcome
  import opened ByteStrings
  import opened Framing
  import opened GitDelta
  import opened NoGitWalk
  import opened NoGitOrder

  // ---------- one entry ----------

  /** Left out: `.saipen` at the root and the excluded names, as directories, and the excluded files of
      the root, whatever they are. */
  predicate Excluded(ex: Exclusions, prefix: bytes, e: Entry) {
    || ((e.node.Folder? || e.node.Closed?) && (e.name in ex.folders || (prefix == [] && e.name == Ascii(".saipen"))))
    || (prefix == [] && e.name in ex.rootFiles)
  }

  /** A link is recorded with its target and a regular file with its content, each under its letter and mode, and
      nothing else is. */
  predicate RecordedAs(node: Tree, path: bytes, r: Record) {
    match node
    case Symlink(target) => r == Record(Ascii("L"), path, 40960, target)
    case Regular(executable, content) => r == Record(Ascii("F"), path, if executable then 33261 else 33188, content)
    case _ => false
  }

  lemma KindLetters()
    ensures Ascii("L") == [76] && Ascii("F") == [70]
    ensures Ascii(".saipen") == SAIPEN
  {
  }

  /** What is done with an entry: one that cannot be looked at fails the walk even if its name is
      excluded. */
  lemma TreatIff(ex: Exclusions, prefix: bytes, e: Entry, r: Record)
    ensures Treat(ex, prefix, e).Skip? <==> !e.node.Gone? && Excluded(ex, prefix, e)
    ensures Treat(ex, prefix, e).Descend? <==> e.node.Folder? && !Excluded(ex, prefix, e)
    ensures Treat(ex, prefix, e) == Emit(r) <==>
              !Excluded(ex, prefix, e) && RecordedAs(e.node, if prefix == [] then e.name else Join([prefix, e.name], 47), r)
    ensures Treat(ex, prefix, e).Fail? <==>
              e.node.Gone? || (!Excluded(ex, prefix, e) && (e.node.Socket? || e.node.Unreadable? || e.node.Closed?))
  {
    KindLetters();
    assert [prefix, e.name][1..] == [e.name];
  }

  // ---------- the whole walk ----------

  /** `chain` leads from the directory `t`, through directories that are entered, to an entry that is
      treated so. */
  ghost predicate Leads(ex: Exclusions, prefix: bytes, t: Tree, chain: seq<Entry>, what: Treatment)
    decreases |chain|
  {
    t.Folder? && chain != [] && chain[0] in t.entries
    && if |chain| == 1 then Treat(ex, prefix, chain[0]) == what
       else Treat(ex, prefix, chain[0]).Descend?
            && Leads(ex, PathUnder(prefix, chain[0].name), chain[0].node, chain[1..], what)
  }

  ghost predicate Leading(ex: Exclusions, prefix: bytes, t: Tree, what: Treatment) {
    exists chain :: Leads(ex, prefix, t, chain, what)
  }

  /** Through this entry. */
  ghost predicate LeadsBy(ex: Exclusions, prefix: bytes, e: Entry, what: Treatment) {
    Treat(ex, prefix, e) == what
    || (Treat(ex, prefix, e).Descend? && Leading(ex, PathUnder(prefix, e.name), e.node, what))
  }

  lemma LeadingIff(ex: Exclusions, prefix: bytes, t: Tree, what: Treatment)
    requires t.Folder?
    ensures Leading(ex, prefix, t, what) <==> exists e :: e in t.entries && LeadsBy(ex, prefix, e, what)
  {
    if chain: seq<Entry> :| Leads(ex, prefix, t, chain, what) {
      if |chain| > 1 {
        assert Leads(ex, PathUnder(prefix, chain[0].name), chain[0].node, chain[1..], what);
      }
      assert LeadsBy(ex, prefix, chain[0], what);
    }
    if e :| e in t.entries && LeadsBy(ex, prefix, e, what) {
      if Treat(ex, prefix, e) == what {
        assert Leads(ex, prefix, t, [e], what);
      } else {
        var chain :| Leads(ex, PathUnder(prefix, e.name), e.node, chain, what);
        assert ([e] + chain)[1..] == chain;
        assert Leads(ex, prefix, t, [e] + chain, what);
      }
    }
  }

  /** `found` holds exactly the records led to, unless something led to fails. */
  ghost predicate Finds(ex: Exclusions, prefix: bytes, t: Tree, found: Option<seq<Record>>) {
    && (found == None <==> Leading(ex, prefix, t, Fail))
    && (found.Some? ==> forall r :: r in found.value <==> Leading(ex, prefix, t, Emit(r)))
  }

  ghost predicate FindsAmong(ex: Exclusions, prefix: bytes, es: seq<Entry>, found: Option<seq<Record>>) {
    && (found == None <==> exists e :: e in es && LeadsBy(ex, prefix, e, Fail))
    && (found.Some? ==> forall r :: r in found.value <==> exists e :: e in es && LeadsBy(ex, prefix, e, Emit(r)))
  }

  ghost predicate FindsAt(ex: Exclusions, prefix: bytes, e: Entry, found: Option<seq<Record>>) {
    && (found == None <==> LeadsBy(ex, prefix, e, Fail))
    && (found.Some? ==> forall r :: r in found.value <==> LeadsBy(ex, prefix, e, Emit(r)))
  }

  lemma FindsBoth(ex: Exclusions, prefix: bytes, e: Entry, es: seq<Entry>, a: Option<seq<Record>>, b: Option<seq<Record>>)
    requires FindsAt(ex, prefix, e, a) && FindsAmong(ex, prefix, es, b)
    ensures FindsAmong(ex, prefix, [e] + es, Then(a, b))
  {
    assert forall x :: x in [e] + es <==> x == e || x in es;
  }

  function VisitOne(ex: Exclusions, prefix: bytes, e: Entry): Option<seq<Record>> {
    match Treat(ex, prefix, e)
    case Skip => Some([])
    case Fail => None
    case Emit(r) => Some([r])
    case Descend => Visit(ex, PathUnder(prefix, e.name), e.node)
  }

  lemma {:induction false} VisitFinds(ex: Exclusions, prefix: bytes, t: Tree)
    requires t.Folder?
    ensures Finds(ex, prefix, t, Visit(ex, prefix, t))
    decreases t, 1, 0
  {
    ListedInside(t);
    EntriesFind(ex, prefix, t, Listed(t));
    forall e ensures e in t.entries <==> e in Listed(t) {
      SortKeepsMembers(t.entries, NameOf);
    }
    LeadingIff(ex, prefix, t, Fail);
    forall r ensures Leading(ex, prefix, t, Emit(r)) <==> exists e :: e in Listed(t) && LeadsBy(ex, prefix, e, Emit(r)) {
      LeadingIff(ex, prefix, t, Emit(r));
    }
  }

  lemma {:induction false} EntriesFind(ex: Exclusions, prefix: bytes, t: Tree, es: seq<Entry>)
    requires Inside(es, t)
    ensures FindsAmong(ex, prefix, es, VisitEntries(ex, prefix, t, es))
    decreases t, 0, |es|
  {
    if es != [] {
      assert es[0] in es;
      if Treat(ex, prefix, es[0]).Descend? {
        VisitFinds(ex, PathUnder(prefix, es[0].name), es[0].node);
      }
      assert FindsAt(ex, prefix, es[0], VisitOne(ex, prefix, es[0]));
      EntriesFind(ex, prefix, t, es[1..]);
      FindsBoth(ex, prefix, es[0], es[1..], VisitOne(ex, prefix, es[0]), VisitEntries(ex, prefix, t, es[1..]));
      assert es == [es[0]] + es[1..];
    }
  }

  /** Both walks, the stack's and the recursion's, record exactly what a chain of entered directories
      leads to, and fail exactly if one leads to something that fails. */
  lemma WalksFind(ex: Exclusions, prefix: bytes, t: Tree)
    requires t.Folder?
    ensures Finds(ex, prefix, t, Visit(ex, prefix, t)) && Finds(ex, prefix, t, Walked(ex, prefix, t))
  {
    VisitFinds(ex, prefix, t);
    SameWalk(ex, prefix, t);
    var v, w := Visit(ex, prefix, t), Walked(ex, prefix, t);
    if v.Some? && w.Some? {
      forall r ensures r in v.value <==> r in w.value {
        assert r in multiset(v.value) <==> r in multiset(w.value);
      }
    }
  }

  function ChainNames(chain: seq<Entry>): seq<bytes> {
    seq(|chain|, i requires 0 <= i < |chain| => chain[i].name)
  }

  /** A record's path is the names that lead to it, with slashes between. */
  lemma {:induction false} PathOfChain(ex: Exclusions, prefix: bytes, t: Tree, chain: seq<Entry>, r: Record)
    requires Leads(ex, prefix, t, chain, Emit(r)) && forall e :: e in chain ==> e.name != []
    ensures r.path == Join((if prefix == [] then [] else [prefix]) + ChainNames(chain), 47)
    decreases |chain|
  {
    var names := ChainNames(chain);
    assert names == [chain[0].name] + ChainNames(chain[1..]);
    var rest := ChainNames(chain[1..]);
    var path := PathUnder(prefix, chain[0].name);
    assert path == if prefix == [] then chain[0].name else prefix + [47] + chain[0].name;
    if prefix == [] {
      assert [] + names == names;
    } else {
      assert [prefix] + names == [prefix, chain[0].name] + rest;
      JoinTwo(prefix, chain[0].name, rest, 47);
    }
    if |chain| == 1 {
      assert rest == [] && [path] + rest == [path];
    } else {
      assert chain[0] in chain && forall e :: e in chain[1..] ==> e in chain;
      PathOfChain(ex, path, chain[0].node, chain[1..], r);
    }
  }
}
