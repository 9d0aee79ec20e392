/** `RegExp.prototype.exec` with the `g` flag, for any pattern that is anchored at the position it is
    tried at: the leftmost match at or after `lastIndex`, and the loop
    `while ((match = regex.exec(s)) !== null)`, which resumes each search where the previous match
    ended. The pattern is seen only through its matcher, so nothing here depends on what it is. */
module RegexExec {
  import opened Web
  import opened JsText

  /** A match: the text `s[start..end]`, and the capture groups in order. */
  datatype Match = Match(start: nat, end: nat, groups: seq<string>)

  /** A pattern as the exec loop sees it: whether and how it matches starting exactly at `i`. */
  type Matcher = (string, nat) -> Option<Match>

  /** Every match found at `i` starts there, consumes at least one character and stays within `s`. */
  ghost predicate Anchored(f: Matcher) {
    forall s: string, i: nat :: i <= |s| && f(s, i).Some? ==>
      f(s, i).value.start == i < f(s, i).value.end <= |s|
  }

  /** Every match has a capture group `g`. */
  ghost predicate HasGroup(f: Matcher, g: nat) {
    forall s: string, i: nat :: i <= |s| && f(s, i).Some? ==> g < |f(s, i).value.groups|
  }

  /** The pattern matches nowhere in `[a, b)`. */
  ghost predicate NoMatchIn(f: Matcher, s: string, a: nat, b: nat) {
    forall k :: a <= k < b ==> f(s, k).None?
  }

  /** `regex.exec(s)` with `regex.lastIndex == lastIndex`: the leftmost match at or after it. */
  function Exec(f: Matcher, s: string, lastIndex: nat): (r: Option<Match>)
    requires Anchored(f) && lastIndex <= |s|
    ensures r.Some? ==> lastIndex <= r.value.start <= |s| && f(s, r.value.start) == r
    ensures r.Some? ==> NoMatchIn(f, s, lastIndex, r.value.start)
    ensures r.None? ==> NoMatchIn(f, s, lastIndex, |s| + 1)
    decreases |s| - lastIndex
  {
    if f(s, lastIndex).Some? then f(s, lastIndex)
    else if lastIndex == |s| then None
    else Exec(f, s, lastIndex + 1)
  }

  /** No line terminator in `s[a..b]`: what `.*` may run over. */
  predicate OnOneLine(s: string, a: nat, b: nat)
    requires a <= b <= |s|
  {
    forall q :: a <= q < b ==> !IsLineTerminator(s[q])
  }

  /** `.*?` followed by the pattern `f`, from `k`: the shortest gap free of line terminators after
      which `f` matches, and that match. */
  function LazyThen(f: Matcher, s: string, k: nat): (r: Option<Match>)
    requires Anchored(f) && k <= |s|
    ensures r.Some? ==> k <= r.value.start <= |s| && f(s, r.value.start) == r
    ensures r.Some? ==> OnOneLine(s, k, r.value.start) && NoMatchIn(f, s, k, r.value.start)
    ensures r.None? ==> forall j :: k <= j <= |s| && OnOneLine(s, k, j) ==> f(s, j).None?
    decreases |s| - k
  {
    if f(s, k).Some? then f(s, k)
    else if k < |s| && !IsLineTerminator(s[k]) then LazyThen(f, s, k + 1)
    else None
  }

  /** Every match the exec loop visits, starting from `from`: real matches, in order and never
      overlapping. */
  function AllMatches(f: Matcher, s: string, from: nat): (ms: seq<Match>)
    requires Anchored(f) && from <= |s|
    ensures forall i :: 0 <= i < |ms| ==> from <= ms[i].start && f(s, ms[i].start) == Some(ms[i])
    ensures forall i :: 0 <= i < |ms| ==> ms[i].start < ms[i].end <= |s|
    ensures forall i :: 0 <= i < |ms| - 1 ==> ms[i].end <= ms[i + 1].start
    decreases |s| - from
  {
    match Exec(f, s, from)
    case None => []
    case Some(m) => [m] + AllMatches(f, s, m.end)
  }

  /** The exec loop finds the leftmost match first and then goes on from where it ended. */
  lemma AllMatchesStep(f: Matcher, s: string, from: nat)
    requires Anchored(f) && from <= |s| && Exec(f, s, from).Some?
    ensures var m := Exec(f, s, from).value;
      m.end <= |s| && AllMatches(f, s, from) == [m] + AllMatches(f, s, m.end)
  {
  }

  /** No match starts before the first one the loop visits (or anywhere, when it visits none). */
  lemma {:induction false} AllMatchesMissesNoneBefore(f: Matcher, s: string, from: nat)
    requires Anchored(f) && from <= |s|
    ensures var ms := AllMatches(f, s, from);
      && (ms == [] ==> NoMatchIn(f, s, from, |s| + 1))
      && (ms != [] ==> NoMatchIn(f, s, from, ms[0].start))
  {
  }

  /** No match starts after the end of the last one the loop visits. */
  lemma {:induction false} AllMatchesMissesNoneAfter(f: Matcher, s: string, from: nat)
    requires Anchored(f) && from <= |s|
    ensures var ms := AllMatches(f, s, from);
      ms != [] ==> NoMatchIn(f, s, ms[|ms| - 1].end, |s| + 1)
    decreases |s| - from
  {
    if Exec(f, s, from).Some? {
      var m := Exec(f, s, from).value;
      AllMatchesStep(f, s, from);
      var rest := AllMatches(f, s, m.end);
      AllMatchesMissesNoneAfter(f, s, m.end);
      if rest == [] {
        AllMatchesMissesNoneBefore(f, s, m.end);
      } else {
        assert AllMatches(f, s, from)[|rest|] == rest[|rest| - 1];
      }
    }
  }

  /** No match starts between the end of one visited match and the start of the next. */
  lemma {:induction false} AllMatchesMissesNoneBetween(f: Matcher, s: string, from: nat)
    requires Anchored(f) && from <= |s|
    ensures var ms := AllMatches(f, s, from);
      forall i :: 0 <= i < |ms| - 1 ==> NoMatchIn(f, s, ms[i].end, ms[i + 1].start)
    decreases |s| - from
  {
    if Exec(f, s, from).Some? {
      var m := Exec(f, s, from).value;
      AllMatchesStep(f, s, from);
      var rest := AllMatches(f, s, m.end);
      var ms := [m] + rest;
      AllMatchesMissesNoneBetween(f, s, m.end);
      forall i | 0 <= i < |ms| - 1 ensures NoMatchIn(f, s, ms[i].end, ms[i + 1].start) {
        if i == 0 {
          AllMatchesMissesNoneBefore(f, s, m.end);
        } else {
          assert ms[i] == rest[i - 1] && ms[i + 1] == rest[i];
        }
      }
    }
  }

  /** `s.replace(regex, rep)` with the `g` flag, continuing from `from`: the text between
      successive matches of the exec loop is kept, and each match gives way to `rep`. */
  function ReplaceMatches(f: Matcher, s: string, from: nat, rep: string): string
    requires Anchored(f) && from <= |s|
    decreases |s| - from
  {
    match Exec(f, s, from)
    case None => s[from..]
    case Some(m) => s[from..m.start] + rep + ReplaceMatches(f, s, m.end, rep)
  }

  /** A pattern of literal characters only, as a matcher: it matches where `pat` occurs. */
  function LiteralMatcher(pat: string): Matcher {
    (s: string, i: nat) =>
      if i + |pat| <= |s| && s[i..i + |pat|] == pat then Some(Match(i, i + |pat|, [])) else None
  }

  /** A non-empty literal pattern matches only where it is tried and within the text. */
  lemma LiteralMatcherAnchored(pat: string)
    requires pat != []
    ensures Anchored(LiteralMatcher(pat))
  {
  }

  /** `ReplaceAll` is `replace` with the `g` flag for a literal pattern: every occurrence the exec
      loop finds gives way to `rep`, and the text between occurrences is kept as it is. */
  lemma ReplaceAllReplacesMatches(s: string, pat: string, rep: string)
    requires pat != []
    ensures Anchored(LiteralMatcher(pat))
    ensures ReplaceAll(s, pat, rep) == ReplaceMatches(LiteralMatcher(pat), s, 0, rep)
  {
    LiteralMatcherAnchored(pat);
    ReplaceAllFrom(s, pat, rep, 0);
  }

  /** Where the pattern matches at `from`, the match gives way to `rep` and replacing goes on after it. */
  lemma ReplaceMatchesAt(f: Matcher, s: string, from: nat, rep: string)
    requires Anchored(f) && from <= |s| && f(s, from).Some?
    ensures ReplaceMatches(f, s, from, rep) == rep + ReplaceMatches(f, s, f(s, from).value.end, rep)
  {
    assert s[from..from] == [];
  }

  /** Replacing with nothing, a match at `from` that ends at `end` is simply dropped. */
  lemma ReplaceMatchesDrop(f: Matcher, s: string, from: nat, end: nat)
    requires Anchored(f) && from <= |s| && f(s, from).Some? && f(s, from).value.end == end
    ensures end <= |s|
    ensures ReplaceMatches(f, s, from, "") == ReplaceMatches(f, s, end, "")
  {
    ReplaceMatchesAt(f, s, from, "");
    assert "" + ReplaceMatches(f, s, end, "") == ReplaceMatches(f, s, end, "");
  }

  /** Where the pattern does not match at `from`, the character there is kept. */
  lemma ReplaceMatchesSkip(f: Matcher, s: string, from: nat, rep: string)
    requires Anchored(f) && from < |s| && f(s, from).None?
    ensures ReplaceMatches(f, s, from, rep) == [s[from]] + ReplaceMatches(f, s, from + 1, rep)
  {
    match Exec(f, s, from + 1)
    case None =>
      assert s[from..] == [s[from]] + s[from + 1..];
    case Some(m) =>
      assert s[from..m.start] == [s[from]] + s[from + 1..m.start];
  }

  /** `ReplaceAll` on the text from `i` on is the `g`-flag replacement continuing from `i`. */
  lemma {:induction false} ReplaceAllFrom(s: string, pat: string, rep: string, i: nat)
    requires pat != [] && i <= |s|
    ensures Anchored(LiteralMatcher(pat))
    ensures ReplaceAll(s[i..], pat, rep) == ReplaceMatches(LiteralMatcher(pat), s, i, rep)
    decreases |s| - i, 1
  {
    if |s| - i < |pat| {
      ReplaceAllShortTail(s, pat, rep, i);
    } else if s[i..][..|pat|] == pat {
      ReplaceAllStepMatch(s, pat, rep, i);
    } else {
      ReplaceAllStepSkip(s, pat, rep, i);
    }
  }

  /** Fewer characters than the pattern are left: there is nothing to replace. */
  lemma ReplaceAllShortTail(s: string, pat: string, rep: string, i: nat)
    requires pat != [] && i <= |s| && |s| - i < |pat|
    ensures Anchored(LiteralMatcher(pat))
    ensures ReplaceAll(s[i..], pat, rep) == ReplaceMatches(LiteralMatcher(pat), s, i, rep)
  {
    LiteralMatcherAnchored(pat);
    var f := LiteralMatcher(pat);
    assert NoMatchIn(f, s, i, |s| + 1);
    assert Exec(f, s, i).None?;
  }

  /** The pattern occurs at `i`: both replace it and go on after it. */
  lemma ReplaceAllStepMatch(s: string, pat: string, rep: string, i: nat)
    requires pat != [] && i + |pat| <= |s| && s[i..][..|pat|] == pat
    ensures Anchored(LiteralMatcher(pat))
    ensures ReplaceAll(s[i..], pat, rep) == ReplaceMatches(LiteralMatcher(pat), s, i, rep)
    decreases |s| - i, 0
  {
    LiteralMatcherAnchored(pat);
    ReplaceAllFrom(s, pat, rep, i + |pat|);
    var f := LiteralMatcher(pat);
    var t := s[i..];
    assert s[i..i + |pat|] == t[..|pat|];
    assert f(s, i) == Some(Match(i, i + |pat|, []));
    assert t[|pat|..] == s[i + |pat|..];
    ReplaceMatchesAt(f, s, i, rep);
  }

  /** The pattern does not occur at `i`: both keep the character there and go on after it. */
  lemma ReplaceAllStepSkip(s: string, pat: string, rep: string, i: nat)
    requires pat != [] && i + |pat| <= |s| && s[i..][..|pat|] != pat
    ensures Anchored(LiteralMatcher(pat))
    ensures ReplaceAll(s[i..], pat, rep) == ReplaceMatches(LiteralMatcher(pat), s, i, rep)
    decreases |s| - i, 0
  {
    LiteralMatcherAnchored(pat);
    ReplaceAllFrom(s, pat, rep, i + 1);
    var f := LiteralMatcher(pat);
    var t := s[i..];
    assert s[i..i + |pat|] == t[..|pat|];
    assert f(s, i).None?;
    assert t[1..] == s[i + 1..];
    ReplaceMatchesSkip(f, s, i, rep);
  }

  /** `match[g]` (the empty string where the match lacks that group). */
  function Capture(m: Match, g: nat): string {
    if g < |m.groups| then m.groups[g] else ""
  }

  /** Capture group `g` of each match in `ms`. */
  function Group(ms: seq<Match>, g: nat): (cs: seq<string>)
    ensures |cs| == |ms|
    ensures forall i :: 0 <= i < |ms| ==> cs[i] == Capture(ms[i], g)
  {
    seq(|ms|, i requires 0 <= i < |ms| => Capture(ms[i], g))
  }
}
