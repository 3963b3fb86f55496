/** The one-variable template matcher (tools/autoinject.py `_activation_home`): from an
    installed block back to the home it was rendered with. */
module ActivationTemplate {
  import opened Outcome

  const PLACEHOLDER: string := "{{SAIPEN_HOME}}"

  // ---------- Python's find, split and join ----------

  predicate StandsAt(s: string, t: string, i: nat) {
    i + |t| <= |s| && s[i..i + |t|] == t
  }

  /** `s.find(t, i)`: the first place from `i` on where `t` stands in `s`. */
  function FindFrom(s: string, t: string, i: nat): (r: Option<nat>)
    requires i <= |s|
    ensures match r
            case Some(k) => i <= k && StandsAt(s, t, k) && forall j: nat :: i <= j < k ==> !StandsAt(s, t, j)
            case None => forall j: nat :: i <= j ==> !StandsAt(s, t, j)
    decreases |s| - i
  {
    if StandsAt(s, t, i) then Some(i) else if i == |s| then None else FindFrom(s, t, i + 1)
  }

  /** `s.find(t)`. */
  function Find(s: string, t: string): Option<nat> {
    FindFrom(s, t, 0)
  }

  /** `s.split(t)` for a non-empty separator. */
  function Split(s: string, t: string): (parts: seq<string>)
    requires t != []
    ensures parts != []
    decreases |s|
  {
    match Find(s, t)
    case None => [s]
    case Some(k) => [s[..k]] + Split(s[k + |t|..], t)
  }

  /** The segments with `h` in every gap: `h.join(segments)`. */
  function Fill(segments: seq<string>, h: string): string
    requires segments != []
  {
    if |segments| == 1 then segments[0] else segments[0] + (h + Fill(segments[1..], h))
  }

  /** `template.replace(PLACEHOLDER, home)`. */
  function Rendered(template: string, home: string): string {
    Fill(Split(template, PLACEHOLDER), home)
  }

  lemma FoundParts(s: string, t: string)
    requires Find(s, t).Some?
    ensures var k := Find(s, t).value; s == s[..k] + (t + s[k + |t|..])
  {
    var k := Find(s, t).value;
    assert s == s[..k] + s[k..k + |t|] + s[k + |t|..];
  }

  /** Splitting loses nothing: the placeholder put back gives the template. */
  lemma {:induction false} SplitThenFill(s: string, t: string)
    requires t != []
    ensures Fill(Split(s, t), t) == s
    decreases |s|
  {
    if Find(s, t).Some? {
      var k := Find(s, t).value;
      FoundParts(s, t);
      SplitThenFill(s[k + |t|..], t);
      assert Split(s, t)[1..] == Split(s[k + |t|..], t);
    }
  }

  lemma StandsInPrefix(s: string, k: nat, t: string, j: nat)
    requires k <= |s|
    ensures StandsAt(s[..k], t, j) ==> StandsAt(s, t, j)
  {
    if StandsAt(s[..k], t, j) {
      assert s[..k][j..j + |t|] == s[j..j + |t|];
    }
  }

  /** And no part holds the separator. */
  lemma {:induction false} SplitTakesAll(s: string, t: string)
    requires t != []
    ensures forall p :: p in Split(s, t) ==> Find(p, t) == None
    ensures |Split(s, t)| > 1 <==> Find(s, t).Some?
    decreases |s|
  {
    if Find(s, t).Some? {
      var k := Find(s, t).value;
      SplitTakesAll(s[k + |t|..], t);
      forall j: nat ensures !StandsAt(s[..k], t, j) {
        StandsInPrefix(s, k, t, j);
      }
    }
  }

  /** The template's segments: put together around the placeholder they give the template, and none
      of them holds it. */
  lemma SegmentsMeaning(template: string)
    ensures Rendered(template, "{{SAIPEN_HOME}}") == template
    ensures forall p :: p in Split(template, PLACEHOLDER) ==> Find(p, "{{SAIPEN_HOME}}") == None
    ensures |Split(template, PLACEHOLDER)| > 1 <==> Find(template, "{{SAIPEN_HOME}}").Some?
  {
    SplitThenFill(template, PLACEHOLDER);
    SplitTakesAll(template, PLACEHOLDER);
  }

  predicate EndsWith(s: string, t: string) {
    |t| <= |s| && s[|s| - |t|..] == t
  }

  // ---------- the matcher ----------

  /** The home so far, confronted with one more gap. */
  function Agreed(home: Option<string>, candidate: string): Option<string> {
    if home.None? || home.value == candidate then Some(candidate) else None
  }

  /** The loop after the first segment. */
  function MatchGaps(segments: seq<string>, rest: string, home: Option<string>): Option<string>
    requires segments != []
  {
    var segment := segments[0];
    if |segments| == 1 then
      if EndsWith(rest, segment) then Agreed(home, rest[..|rest| - |segment|]) else None
    else match Find(rest, segment)
      case None => None
      case Some(k) =>
        var agreed := Agreed(home, rest[..k]);
        if agreed.None? then None else MatchGaps(segments[1..], rest[k + |segment|..], agreed)
  }

  function MatchBlock(template: string, block: string): Option<string> {
    var segments := Split(template, PLACEHOLDER);
    if |segments| == 1 then (if block == template then Some("") else None)
    else if !(segments[0] <= block) then None
    else MatchGaps(segments[1..], block[|segments[0]|..], None)
  }

  /** `_activation_home`. */
  method ActivationHome(template: string, block: string) returns (found: Option<string>)
    ensures found == MatchBlock(template, block)
  {
    var segments := Split(template, PLACEHOLDER);
    if |segments| == 1 {
      return if block == template then Some("") else None;
    }
    var home: Option<string> := None;
    var rest := block;
    for index := 0 to |segments|
      invariant index == 0 ==> rest == block && home == None
      invariant 0 < index < |segments| ==> MatchGaps(segments[index..], rest, home) == MatchBlock(template, block)
      invariant index == |segments| ==> home == MatchBlock(template, block)
    {
      var segment := segments[index];
      var candidate;
      if index == 0 {
        if !(segment <= rest) {
          return None;
        }
        rest := rest[|segment|..];
        continue;
      }
      assert segments[index..][0] == segment && segments[index..][1..] == segments[index + 1..];
      if index == |segments| - 1 {
        if !EndsWith(rest, segment) {
          return None;
        }
        candidate := rest[..|rest| - |segment|];
      } else {
        var position := Find(rest, segment);
        if position.None? {
          return None;
        }
        candidate := rest[..position.value];
        rest := rest[position.value + |segment|..];
      }
      if home.None? {
        home := Some(candidate);
      } else if home.value != candidate {
        return None;
      }
    }
    return home;
  }

  // ---------- what a match proves ----------

  lemma {:induction false} MatchKeepsHome(segments: seq<string>, rest: string, h: string)
    requires segments != []
    ensures MatchGaps(segments, rest, Some(h)) in {None, Some(h)}
  {
    if |segments| > 1 {
      var k := Find(rest, segments[0]);
      if k.Some? && rest[..k.value] == h {
        MatchKeepsHome(segments[1..], rest[k.value + |segments[0]|..], h);
      }
    }
  }

  lemma {:induction false} MatchIsFill(segments: seq<string>, rest: string, home: Option<string>)
    requires segments != [] && MatchGaps(segments, rest, home).Some?
    ensures rest == MatchGaps(segments, rest, home).value + Fill(segments, MatchGaps(segments, rest, home).value)
    ensures home.Some? ==> home.value == MatchGaps(segments, rest, home).value
  {
    if |segments| == 1 {
      assert rest == rest[..|rest| - |segments[0]|] + segments[0];
    } else {
      var k := Find(rest, segments[0]).value;
      FoundParts(rest, segments[0]);
      MatchIsFill(segments[1..], rest[k + |segments[0]|..], Agreed(home, rest[..k]));
    }
  }

  /** A returned home renders to exactly the installed block. */
  lemma MatchIsSound(template: string, block: string)
    requires MatchBlock(template, block).Some?
    ensures Rendered(template, MatchBlock(template, block).value) == block
  {
    var segments := Split(template, PLACEHOLDER);
    var h := MatchBlock(template, block).value;
    if |segments| == 1 {
      SplitThenFill(template, PLACEHOLDER);
    } else {
      MatchIsFill(segments[1..], block[|segments[0]|..], None);
      assert block == segments[0] + block[|segments[0]|..];
    }
  }

  /** A template without the placeholder is matched by itself alone, with no home. */
  lemma PlainTemplate(template: string, block: string)
    requires Find(template, "{{SAIPEN_HOME}}") == None
    ensures MatchBlock(template, block) == if block == template then Some("") else None
  {
    SegmentsMeaning(template);
  }

  lemma {:induction false} FillLength(segments: seq<string>, g: string, h: string)
    requires segments != []
    ensures |Fill(segments, g)| - |Fill(segments, h)| == (|segments| - 1) * (|g| - |h|)
  {
    if |segments| > 1 {
      FillLength(segments[1..], g, h);
      OneMore(|segments| - 2, |g| - |h|);
    }
  }

  lemma OneMore(n: nat, d: int)
    ensures d + n * d == (n + 1) * d
  {
  }

  /** Only one home renders to a given block: the gaps fix its length, and then itself. */
  lemma HomeIsUnique(template: string, g: string, h: string)
    requires Find(template, "{{SAIPEN_HOME}}").Some? && Rendered(template, g) == Rendered(template, h)
    ensures g == h
  {
    SegmentsMeaning(template);
    var segments := Split(template, PLACEHOLDER);
    FillLength(segments, g, h);
    SameLength(|segments| - 1, |g|, |h|);
    var x, y := Fill(segments[1..], g), Fill(segments[1..], h);
    SameAfter(segments[0], g + x, h + y);
    assert g == (g + x)[..|g|] == (h + y)[..|h|] == h;
  }

  lemma SameAfter(p: string, a: string, b: string)
    requires p + a == p + b
    ensures a == b
  {
    assert a == (p + a)[|p|..] == (p + b)[|p|..] == b;
  }

  lemma SameLength(n: nat, a: nat, b: nat)
    requires n > 0 && n * (a - b) == 0
    ensures a == b
  {
  }

  // ---------- which rendered blocks are recognised ----------

  /** `segment` first occurs in `home + segment` at the end of `home`. */
  predicate StandsClear(home: string, segment: string) {
    Find(home + segment, segment) == Some(|home|)
  }

  /** What follows the first full occurrence does not matter. */
  lemma FindIgnoresRest(home: string, segment: string, more: string)
    ensures Find(home + (segment + more), segment) == Find(home + segment, segment)
    ensures Find(home + segment, segment).Some? && Find(home + segment, segment).value <= |home|
  {
    var a, b := home + segment, home + (segment + more);
    assert b == a + more;
    forall i: nat | i <= |home| ensures StandsAt(a, segment, i) == StandsAt(b, segment, i) {
      assert i + |segment| <= |a| && a[i..i + |segment|] == b[i..i + |segment|];
    }
    assert StandsAt(a, segment, |home|);
  }

  /** The condition, on every gap but the last. */
  predicate AllStandClear(segments: seq<string>, home: string)
    requires segments != []
  {
    |segments| == 1 || (StandsClear(home, segments[0]) && AllStandClear(segments[1..], home))
  }

  /** One gap of a rendered block: a clear segment is found in its place, any other too early. */
  lemma GapFound(segments: seq<string>, h: string)
    requires |segments| > 1
    ensures var rest := h + Fill(segments, h);
            var k := Find(rest, segments[0]);
            k.Some? && k.value <= |h| && (k.value == |h| <==> StandsClear(h, segments[0]))
            && (k.value == |h| ==> (rest[..k.value] == h
                                      && rest[k.value + |segments[0]|..] == h + Fill(segments[1..], h)))
  {
    var segment, more := segments[0], h + Fill(segments[1..], h);
    FindIgnoresRest(h, segment, more);
    var rest := h + (segment + more);
    assert rest[..|h|] == h && rest[|h| + |segment|..] == more;
  }

  lemma LastGap(segment: string, h: string, home: Option<string>)
    requires home in {None, Some(h)}
    ensures MatchGaps([segment], h + Fill([segment], h), home) == Some(h)
  {
    var rest := h + segment;
    assert rest[|h|..] == segment && rest[..|h|] == h;
  }

  lemma MatchStep(segments: seq<string>, rest: string, home: Option<string>, k: nat)
    requires |segments| > 1 && Find(rest, segments[0]) == Some(k)
    ensures MatchGaps(segments, rest, home)
         == if home in {None, Some(rest[..k])} then MatchGaps(segments[1..], rest[k + |segments[0]|..], Some(rest[..k]))
            else None
  {
  }

  /** A middle gap of a rendered block: past a clear segment the matcher goes on with the home;
      past any other it has agreed on something shorter. */
  lemma MiddleGap(segments: seq<string>, h: string, home: Option<string>, rest: string)
    requires |segments| > 1 && home in {None, Some(h)} && rest == h + Fill(segments, h)
    ensures StandsClear(h, segments[0]) ==>
              MatchGaps(segments, rest, home) == MatchGaps(segments[1..], h + Fill(segments[1..], h), Some(h))
    ensures !StandsClear(h, segments[0]) ==> MatchGaps(segments, rest, home) != Some(h)
  {
    GapFound(segments, h);
    var k := Find(rest, segments[0]).value;
    MatchStep(segments, rest, home, k);
    ShorterHome(segments[1..], rest[k + |segments[0]|..], rest[..k], h);
  }

  lemma ShorterHome(segments: seq<string>, rest: string, g: string, h: string)
    requires segments != []
    ensures |g| < |h| ==> MatchGaps(segments, rest, Some(g)) != Some(h)
  {
    MatchKeepsHome(segments, rest, g);
  }

  /** The gaps of a block rendered with `h` give `h` back exactly when its middle segments stand clear. */
  lemma {:induction false} GapsGiveHomeIffClear(segments: seq<string>, h: string, home: Option<string>)
    requires segments != [] && home in {None, Some(h)}
    ensures MatchGaps(segments, h + Fill(segments, h), home) == Some(h) <==> AllStandClear(segments, h)
  {
    if |segments| == 1 {
      assert segments == [segments[0]];
      LastGap(segments[0], h, home);
    } else {
      MiddleGap(segments, h, home, h + Fill(segments, h));
      GapsGiveHomeIffClear(segments[1..], h, Some(h));
    }
  }

  /** Recognition, exactly: the block rendered with a home is matched, to that home, if and only
      if every middle segment stands clear of it; otherwise it is refused. */
  lemma RecognisedIffClear(template: string, home: string)
    requires Find(template, "{{SAIPEN_HOME}}").Some?
    ensures |Split(template, PLACEHOLDER)| > 1
    ensures MatchBlock(template, Rendered(template, home))
         == if AllStandClear(Split(template, PLACEHOLDER)[1..], home) then Some(home) else None
  {
    SegmentsMeaning(template);
    var segments := Split(template, PLACEHOLDER);
    var block := Rendered(template, home);
    assert segments[0] <= block && block[|segments[0]|..] == home + Fill(segments[1..], home);
    GapsGiveHomeIffClear(segments[1..], home, None);
    if MatchBlock(template, block).Some? {
      MatchIsSound(template, block);
      HomeIsUnique(template, home, MatchBlock(template, block).value);
    }
  }
}
