/** The identity of a tree without Git (tools/freshness.py `compute_source_identity`), its
    revalidation, and the oracle's identity of the same tree. */
module NoGitIdentity {
  import opened Outcome
  import opened ByteStrings
  import opened Framing
  import opened GitDelta
  import opened Capture
  import opened Identity
  import opened NoGitWalk
  import opened NoGitDigest

  const NO_GIT: bytes := Ascii("no-git")

  /** What a walk's records are captured as. */
  function CaptureOf(walked: Option<seq<Record>>): Option<Captured> {
    if walked.None? || SourceBytes(NO_GIT_MODEL, walked.value).Err? then None
    else
      Some(Captured(SourceIdentity(NO_GIT, Fingerprint(NO_GIT_MODEL, Sha256(SourceBytes(NO_GIT_MODEL, walked.value).value)), NO_GIT_MODEL),
                    Token(NO_GIT_MODEL, NO_GIT, None, Evidences(walked.value))))
  }

  /** The capture of a tree that holds still. */
  function NoGitCapture(ex: Exclusions, t: Tree): Option<Captured>
    requires t.Folder?
  {
    CaptureOf(Walked(ex, [], t))
  }

  /** What a still tree is captured as: no HEAD and no listing, and the hash of its records under the
      model's name. */
  lemma NoGitCaptureIs(ex: Exclusions, t: Tree)
    requires t.Folder? && NoGitCapture(ex, t).Some?
    ensures Walked(ex, [], t).Some? && SourceBytes(Ascii("no-git-tree-v1"), Walked(ex, [], t).value).Ok?
    ensures var recs := Walked(ex, [], t).value;
            NoGitCapture(ex, t).value
            == Captured(SourceIdentity(Ascii("no-git"),
                                       Fingerprint(Ascii("no-git-tree-v1"), Sha256(SourceBytes(Ascii("no-git-tree-v1"), recs).value)),
                                       Ascii("no-git-tree-v1")),
                        Token(Ascii("no-git-tree-v1"), Ascii("no-git"), None, Evidences(recs)))
  {
  }

  lemma FedIsSource(fed: bytes, rs: seq<Record>)
    requires Fed(Header(NO_GIT_MODEL), fed, rs)
    ensures SourceBytes(NO_GIT_MODEL, rs) == Ok(fed)
  {
  }

  lemma UnframableIsNoCapture(walked: Option<seq<Record>>)
    requires Unframable(walked, true)
    ensures CaptureOf(walked).None?
  {
  }

  /** The identity says which records the walk emitted, and in which order. */
  lemma CaptureKnowsWalk(a: Option<seq<Record>>, b: Option<seq<Record>>)
    requires CaptureOf(a).Some? && CaptureOf(b).Some?
    ensures CaptureOf(a).value.identity == CaptureOf(b).value.identity <==> a == b
    ensures CaptureOf(a).value.token == CaptureOf(b).value.token <==> a == b
  {
    if CaptureOf(a).value.identity == CaptureOf(b).value.identity {
      var hashed := SourceBytes(NO_GIT_MODEL, a.value).value;
      assert hashed == SourceBytes(NO_GIT_MODEL, b.value).value;
      UniqueDecodability(NO_GIT_MODEL, a.value, hashed);
      UniqueDecodability(NO_GIT_MODEL, b.value, hashed);
    }
    if CaptureOf(a).value.token == CaptureOf(b).value.token {
      EvidencesSeparate(a.value, b.value);
    }
  }

  /** Two walks, the tree as it stood at each: accepted exactly when both trees have the same
      capture. */
  method IdentifyNoGit(ex: Exclusions, first: Tree, second: Tree) returns (r: Result<Captured, Error>)
    requires first.Folder? && second.Folder?
    ensures r.Ok? <==> NoGitCapture(ex, first).Some? && NoGitCapture(ex, first) == NoGitCapture(ex, second)
    ensures r.Ok? ==> NoGitCapture(ex, first) == Some(r.value)
  {
    var evidence0, recs0 := Walk(ex, first, null);
    if evidence0.Err? {
      return Err(evidence0.error);
    }
    var sink := new DigestSink(NO_GIT_MODEL);
    var evidence1, recs1 := Walk(ex, second, sink);
    if evidence1.Err? {
      UnframableIsNoCapture(Walked(ex, [], second));
      return Err(evidence1.error);
    }
    FedIsSource(sink.fed, recs1);
    if evidence0.value != evidence1.value {
      assert recs0 != recs1;
      if NoGitCapture(ex, first).Some? {
        CaptureKnowsWalk(Some(recs0), Some(recs1));
      }
      return Err(ContentMoved);
    }
    EvidencesSeparate(recs0, recs1);
    r := Ok(Captured(SourceIdentity(NO_GIT, Fingerprint(NO_GIT_MODEL, Sha256(sink.fed)), NO_GIT_MODEL),
                     Token(NO_GIT_MODEL, NO_GIT, None, evidence1.value)));
  }

  // ---------- revalidation ----------

  predicate WalkReproduces(walked: Option<seq<Record>>, c: Captured) {
    walked.Some? && SourceBytes(NO_GIT_MODEL, walked.value).Ok? && Evidences(walked.value) == c.token.evidence
    && c.identity.fingerprint == Fingerprint(NO_GIT_MODEL, Sha256(SourceBytes(NO_GIT_MODEL, walked.value).value))
  }

  /** The no-Git branch of `revalidate_source_identity`. */
  method RevalidateNoGit(ex: Exclusions, t: Tree, c: Captured) returns (accepted: bool)
    requires t.Folder?
    ensures accepted <==> WalkReproduces(Walked(ex, [], t), c)
  {
    var sink := new DigestSink(NO_GIT_MODEL);
    var evidence, recs := Walk(ex, t, sink);
    if evidence.Err? {
      UnframableIsNoCapture(Walked(ex, [], t));
      return false;
    }
    FedIsSource(sink.fed, recs);
    return evidence.value == c.token.evidence && c.identity.fingerprint == Fingerprint(NO_GIT_MODEL, Sha256(sink.fed));
  }

  /** Without Git, revalidation is sound and complete: a captured identity is accepted on a later
      tree exactly when a full capture of that tree is the same again. */
  lemma NoGitRevalidatesIffFresh(ex: Exclusions, before: Tree, now: Tree)
    requires before.Folder? && now.Folder? && NoGitCapture(ex, before).Some?
    ensures WalkReproduces(Walked(ex, [], now), NoGitCapture(ex, before).value)
       <==> NoGitCapture(ex, now) == NoGitCapture(ex, before)
    ensures NoGitCapture(ex, now) == NoGitCapture(ex, before) <==> Walked(ex, [], now) == Walked(ex, [], before)
  {
    if NoGitCapture(ex, now).Some? {
      CaptureKnowsWalk(Walked(ex, [], now), Walked(ex, [], before));
    }
  }

  // ---------- the oracle ----------

  /** The oracle's identity: the recursive walk, then sort, then frame. */
  function GoldenNoGit(ex: Exclusions, t: Tree): Option<SourceIdentity>
    requires t.Folder?
  {
    var visited := Visit(ex, [], t);
    if visited.None? || DigestBytes(NO_GIT_MODEL, visited.value).Err? then None
    else Some(SourceIdentity(NO_GIT, Fingerprint(NO_GIT_MODEL, Sha256(DigestBytes(NO_GIT_MODEL, visited.value).value)), NO_GIT_MODEL))
  }

  /** The live identity of a tree is the oracle's exactly when the tree is tidy. */
  lemma NoGitIdentityIsGoldenIffTidy(ex: Exclusions, t: Tree)
    requires t.Folder? && WellNamed(t) && NoGitCapture(ex, t).Some?
    ensures GoldenNoGit(ex, t) == Some(NoGitCapture(ex, t).value.identity) <==> Tidy(ex, [], t)
  {
    FingerprintAgreesIffTidy(ex, t);
  }
}
