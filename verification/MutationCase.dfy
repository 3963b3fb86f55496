/** One mutation case on a worker's copy of the repository (tools/audit_checks.py): what it edits,
    how it is applied, and how the copy is put back. */
module MutationCase {
  import opened Outcome
  import opened ByteStrings

  /** A link carries what was read through it when it was made, until another worker writes the file
      it points to; writing through it changes that and keeps the link. */
  datatype Node = File(content: bytes) | Link(content: bytes)

  type Tree = map<bytes, Node>

  /** A member of a mutation over several files. */
  datatype Member = Creating(text: bytes) | Editing(edit: bytes -> bytes)

  datatype Change = Change(path: bytes, member: Member)

  datatype Mutation =
    | Demote
    | SymlinkExternal
    | Delete
    | Create(text: bytes)
    | Swap
    | Encode
    | Multi(changes: seq<Change>)
    | Edit(edit: bytes -> bytes)

  datatype Case = Case(title: bytes, rel: bytes, mutation: Mutation, expected: bytes, gate: Option<bytes>, needs: Option<bytes>)

  datatype Verdict = Applied | NotApplied | Because(reason: bytes) | Raised

  datatype Linking = Links | Refuses(reason: bytes) | Fails

  /** The host and the surroundings: which paths are log segments (newest first) and history, how
      texts are rewritten, whether links can be made, and what the validator prints for a tree at
      a gate. */
  datatype Lab = Lab(segments: set<bytes> -> seq<bytes>, twoEvents: bytes -> bool, swap: bytes -> bytes,
                     history: set<bytes> -> seq<bytes>, demote: bytes -> bytes, encode: bytes -> bytes,
                     linking: Linking, output: (Tree, Option<bytes>) -> bytes,
                     says: (bytes, bytes, Option<bytes>) -> bool, reports: (bytes, bytes) -> bool)

  // ---------- files ----------

  /** `write_bytes`, which follows a link. */
  function Written(t: Tree, path: bytes, data: bytes): Tree {
    t[path := if path in t && t[path].Link? then Link(data) else File(data)]
  }

  function Unlinked(t: Tree, path: bytes): Tree { t - {path} }

  predicate NoLinks(t: Tree) {
    forall p :: p in t ==> t[p].File?
  }

  // ---------- which files a case edits ----------

  function FirstWithEvents(lab: Lab, t: Tree, candidates: seq<bytes>, default: bytes): bytes {
    if candidates == [] then default
    else if candidates[0] in t && lab.twoEvents(t[candidates[0]].content) then candidates[0]
    else FirstWithEvents(lab, t, candidates[1..], default)
  }

  /** `case_target`. */
  function Target(lab: Lab, t: Tree, rel: bytes, m: Mutation): bytes {
    if m.Swap? then FirstWithEvents(lab, t, [rel] + lab.segments(t.Keys), rel) else rel
  }

  function Paths(changes: seq<Change>): seq<bytes> {
    if changes == [] then [] else [changes[0].path] + Paths(changes[1..])
  }

  /** `mutation_files`. */
  function FilesOf(lab: Lab, t: Tree, rel: bytes, m: Mutation): seq<bytes> {
    match m
    case Demote => lab.history(t.Keys)
    case Multi(changes) => Paths(changes)
    case _ => [Target(lab, t, rel, m)]
  }

  // ---------- applying ----------

  function Rewritten(t: Tree, path: bytes, edit: bytes -> bytes): (Tree, bool)
    requires path in t
  {
    var text := t[path].content;
    if edit(text) == text then (t, false) else (Written(t, path, edit(text)), true)
  }

  function Demoted(t: Tree, paths: seq<bytes>, demote: bytes -> bytes): (Tree, Option<bool>)
    decreases |paths|
  {
    if paths == [] then (t, Some(false))
    else if paths[0] !in t then (t, None)
    else
      var (next, one) := Rewritten(t, paths[0], demote);
      var (last, rest) := Demoted(next, paths[1..], demote);
      (last, if rest.None? then None else Some(one || rest.value))
  }

  function Changed(t: Tree, c: Change): (Tree, bool) {
    match c.member
    case Creating(text) => (Written(t, c.path, text), true)
    case Editing(edit) => if c.path in t then Rewritten(t, c.path, edit) else (t, false)
  }

  function ChangedAll(t: Tree, changes: seq<Change>): (Tree, bool)
    decreases |changes|
  {
    if changes == [] then (t, false)
    else
      var (next, one) := Changed(t, changes[0]);
      var (last, rest) := ChangedAll(next, changes[1..]);
      (last, one || rest)
  }

  function Settled(p: (Tree, bool)): (Tree, Verdict) { (p.0, if p.1 then Applied else NotApplied) }

  /** `apply_case`. */
  function Apply(lab: Lab, t: Tree, rel: bytes, m: Mutation): (Tree, Verdict) {
    var path := Target(lab, t, rel, m);
    match m
    case Demote =>
      var (after, changed) := Demoted(t, lab.history(t.Keys), lab.demote);
      (after, if changed.None? then Raised else if changed.value then Applied else NotApplied)
    case SymlinkExternal =>
      if path !in t || t[path].Link? then (t, NotApplied)
      else (match lab.linking
            case Links => (Unlinked(t, path)[path := Link(t[path].content)], Applied)
            case Refuses(reason) => (Unlinked(t, path), Because(reason))
            case Fails => (Unlinked(t, path), NotApplied))
    case Delete => if path !in t then (t, NotApplied) else (Unlinked(t, path), Applied)
    case Create(text) => (Written(t, path, text), Applied)
    case Swap =>
      if path !in t then (t, Raised)
      else if !lab.twoEvents(t[path].content) then (t, NotApplied)
      else (Written(t, path, lab.swap(t[path].content)), Applied)
    case Encode => if path !in t then (t, NotApplied) else (Written(t, path, lab.encode(t[path].content)), Applied)
    case Multi(changes) => Settled(ChangedAll(t, changes))
    case Edit(edit) => if path !in t then (t, NotApplied) else Settled(Rewritten(t, path, edit))
  }

  // ---------- saving and restoring ----------

  datatype Save = Save(path: bytes, data: Option<bytes>)

  function Saved(t: Tree, files: seq<bytes>): seq<Save> {
    seq(|files|, i requires 0 <= i < |files| => Save(files[i], if files[i] in t then Some(t[files[i]].content) else None))
  }

  function RestoredOne(t: Tree, s: Save): Tree {
    var clean := if s.path in t && t[s.path].Link? then Unlinked(t, s.path) else t;
    match s.data
    case None => Unlinked(clean, s.path)
    case Some(data) => Written(clean, s.path, data)
  }

  /** `restore_case_files`. */
  function Restored(t: Tree, saved: seq<Save>): Tree
    decreases |saved|
  {
    if saved == [] then t else Restored(RestoredOne(t, saved[0]), saved[1..])
  }

  // ---------- a worker's copy ----------

  class Worker {
    var tree: Tree

    constructor (pristine: Tree)
      ensures tree == pristine
    {
      tree := pristine;
    }

    /** The data is read back, a link is still a link, and no other path changes. */
    method WriteBytes(path: bytes, data: bytes)
      modifies this
      ensures path in tree && tree[path].content == data
      ensures tree[path].Link? <==> path in old(tree) && old(tree)[path].Link?
      ensures tree.Keys == old(tree).Keys + {path} && forall p :: p in old(tree) && p != path ==> tree[p] == old(tree)[p]
      ensures tree == Written(old(tree), path, data)
    {
      tree := tree[path := if path in tree && tree[path].Link? then Link(data) else File(data)];
    }

    method RestoreCaseFiles(saved: seq<Save>)
      modifies this
      ensures tree == Restored(old(tree), saved)
    {
      assert saved[0..] == saved;
      for i := 0 to |saved|
        invariant Restored(tree, saved[i..]) == Restored(old(tree), saved)
      {
        assert saved[i..][1..] == saved[i + 1..];
        var path := saved[i].path;
        if path in tree && tree[path].Link? {
          tree := tree - {path};
        }
        if saved[i].data.None? {
          tree := tree - {path};
        } else {
          WriteBytes(path, saved[i].data.value);
        }
      }
    }

    /** One text rewritten where it differs. */
    method RewriteText(path: bytes, edit: bytes -> bytes) returns (changed: bool)
      requires path in tree
      modifies this
      ensures (tree, changed) == Rewritten(old(tree), path, edit)
    {
      var text := tree[path].content;
      var updated := edit(text);
      changed := updated != text;
      if changed {
        WriteBytes(path, updated);
      }
    }

    method DemoteAmnesties(paths: seq<bytes>, demote: bytes -> bytes) returns (changed: Option<bool>)
      modifies this
      ensures (tree, changed) == Demoted(old(tree), paths, demote)
    {
      var any := false;
      assert paths[0..] == paths;
      for i := 0 to |paths|
        invariant Demoted(old(tree), paths, demote)
               == (var (last, rest) := Demoted(tree, paths[i..], demote);
                   (last, if rest.None? then None else Some(any || rest.value)))
      {
        assert paths[i..][0] == paths[i] && paths[i..][1..] == paths[i + 1..];
        if paths[i] !in tree {
          return None;
        }
        var one := RewriteText(paths[i], demote);
        any := any || one;
      }
      assert paths[|paths|..] == [];
      return Some(any);
    }

    method ChangeAll(changes: seq<Change>) returns (changed: bool)
      modifies this
      ensures (tree, changed) == ChangedAll(old(tree), changes)
    {
      changed := false;
      assert changes[0..] == changes;
      for i := 0 to |changes|
        invariant ChangedAll(old(tree), changes)
               == (var (last, rest) := ChangedAll(tree, changes[i..]); (last, changed || rest))
      {
        assert changes[i..][0] == changes[i] && changes[i..][1..] == changes[i + 1..];
        var path := changes[i].path;
        match changes[i].member {
          case Creating(text) =>
            WriteBytes(path, text);
            changed := true;
          case Editing(edit) =>
            if path in tree {
              var one := RewriteText(path, edit);
              changed := changed || one;
            }
        }
      }
      assert changes[|changes|..] == [];
    }

    /** `apply_case`. */
    method ApplyCase(lab: Lab, rel: bytes, m: Mutation) returns (v: Verdict)
      modifies this
      ensures (tree, v) == Apply(lab, old(tree), rel, m)
    {
      var path := Target(lab, tree, rel, m);
      match m
      case Demote =>
        var changed := DemoteAmnesties(lab.history(tree.Keys), lab.demote);
        return if changed.None? then Raised else if changed.value then Applied else NotApplied;
      case SymlinkExternal =>
        if path !in tree || tree[path].Link? {
          return NotApplied;
        }
        var external := tree[path].content;
        tree := tree - {path};
        match lab.linking {
          case Links =>
            tree := tree[path := Link(external)];
            return Applied;
          case Refuses(reason) => return Because(reason);
          case Fails => return NotApplied;
        }
      case Delete =>
        if path !in tree {
          return NotApplied;
        }
        tree := tree - {path};
        return Applied;
      case Create(text) =>
        WriteBytes(path, text);
        return Applied;
      case Swap =>
        if path !in tree {
          return Raised;
        }
        if !lab.twoEvents(tree[path].content) {
          return NotApplied;
        }
        WriteBytes(path, lab.swap(tree[path].content));
        return Applied;
      case Encode =>
        if path !in tree {
          return NotApplied;
        }
        WriteBytes(path, lab.encode(tree[path].content));
        return Applied;
      case Multi(changes) =>
        var changed := ChangeAll(changes);
        return if changed then Applied else NotApplied;
      case Edit(edit) =>
        if path !in tree {
          return NotApplied;
        }
        var changed := RewriteText(path, edit);
        return if changed then Applied else NotApplied;
    }
  }

  // ---------- putting back is exact ----------

  /** The same but at the listed paths. */
  ghost predicate SameElsewhere(a: Tree, b: Tree, files: seq<bytes>) {
    forall p :: p !in files ==> (p in a <==> p in b) && (p in a ==> a[p] == b[p])
  }

  lemma {:induction false} DemotedElsewhere(t: Tree, paths: seq<bytes>, demote: bytes -> bytes, files: seq<bytes>)
    requires forall p :: p in paths ==> p in files
    ensures SameElsewhere(t, Demoted(t, paths, demote).0, files)
    decreases |paths|
  {
    if paths != [] && paths[0] in t {
      assert paths[0] in paths;
      DemotedElsewhere(Rewritten(t, paths[0], demote).0, paths[1..], demote, files);
    }
  }

  lemma {:induction false} ChangedElsewhere(t: Tree, changes: seq<Change>, files: seq<bytes>)
    requires forall p :: p in Paths(changes) ==> p in files
    ensures SameElsewhere(t, ChangedAll(t, changes).0, files)
    decreases |changes|
  {
    if changes != [] {
      assert Paths(changes) == [changes[0].path] + Paths(changes[1..]);
      assert changes[0].path in Paths(changes);
      ChangedElsewhere(Changed(t, changes[0]).0, changes[1..], files);
    }
  }

  /** No mutation touches a file it did not declare, not even one that could not be set up. */
  lemma ApplyTouchesOnlyItsFiles(lab: Lab, t: Tree, rel: bytes, m: Mutation)
    ensures SameElsewhere(t, Apply(lab, t, rel, m).0, FilesOf(lab, t, rel, m))
  {
    match m
    case Demote => DemotedElsewhere(t, lab.history(t.Keys), lab.demote, lab.history(t.Keys));
    case Multi(changes) => ChangedElsewhere(t, changes, Paths(changes));
    case _ => assert Target(lab, t, rel, m) in FilesOf(lab, t, rel, m);
  }

  lemma {:induction false} RestoreIsExact(t: Tree, now: Tree, files: seq<bytes>)
    requires NoLinks(t) && SameElsewhere(t, now, files)
    ensures Restored(now, Saved(t, files)) == t
    decreases |files|
  {
    if files == [] {
      assert now == t;
    } else {
      var saved := Saved(t, files);
      assert saved[1..] == Saved(t, files[1..]);
      var next := RestoredOne(now, saved[0]);
      forall p | p !in files[1..] ensures (p in t <==> p in next) && (p in t ==> t[p] == next[p]) {
        if p != files[0] {
          assert p !in files;
        }
      }
      RestoreIsExact(t, next, files[1..]);
    }
  }

  /** Whatever the mutation, whether or not it applied, a mutation that makes a link included: saving,
      applying and restoring gives a tree without links back exactly. */
  lemma RestoreUndoesApply(lab: Lab, t: Tree, rel: bytes, m: Mutation)
    requires NoLinks(t)
    ensures Restored(Apply(lab, t, rel, m).0, Saved(t, FilesOf(lab, t, rel, m))) == t
  {
    ApplyTouchesOnlyItsFiles(lab, t, rel, m);
    RestoreIsExact(t, Apply(lab, t, rel, m).0, FilesOf(lab, t, rel, m));
  }

  /** A tree that already holds a link at an edited path is not given back: the link becomes a file.
      So it is given back exactly when no edited path is one. */
  lemma RestoredIffNoLink(lab: Lab, t: Tree, rel: bytes, m: Mutation)
    ensures Restored(Apply(lab, t, rel, m).0, Saved(t, FilesOf(lab, t, rel, m))) == t
       <==> forall p :: p in FilesOf(lab, t, rel, m) && p in t ==> t[p].File?
  {
    var files := FilesOf(lab, t, rel, m);
    var now := Apply(lab, t, rel, m).0;
    ApplyTouchesOnlyItsFiles(lab, t, rel, m);
    RestoreGives(t, now, files, files);
  }

  /** What a restoration leaves at each path. */
  lemma {:induction false} RestoreGives(t: Tree, now: Tree, files: seq<bytes>, all: seq<bytes>)
    requires forall p :: p in files ==> p in all
    requires forall p :: p !in files && p in all ==> (p in now <==> p in t) && (p in t ==> now[p] == File(t[p].content))
    requires SameElsewhere(t, now, all)
    ensures var after := Restored(now, Saved(t, files));
            SameElsewhere(t, after, all)
            && forall p :: p in all ==> (p in after <==> p in t) && (p in t ==> after[p] == File(t[p].content))
    decreases |files|
  {
    if files != [] {
      var saved := Saved(t, files);
      assert saved[1..] == Saved(t, files[1..]);
      var next := RestoredOne(now, saved[0]);
      forall p | p !in files[1..] && p in all ensures (p in next <==> p in t) && (p in t ==> next[p] == File(t[p].content)) {
        if p != files[0] {
          assert p !in files;
        }
      }
      assert files[0] in files;
      RestoreGives(t, next, files[1..], all);
    }
  }
}
