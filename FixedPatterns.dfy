/** The fixed regular expressions of the two YouTube routes, each written out as a matcher at one
    position, and the captures the exec loop collects with them. */
module FixedPatterns {
  import opened Web
  import opened JsText
  import opened RegexExec

  datatype Pattern =
      /** `"videoId":"([a-zA-Z0-9_-]{11})"` */
    | VideoIdPattern
      /** `"title":\{"runs":\[\{"text":"([^"]+)"\}\]` followed by the literal `tail` */
    | RunsTitlePattern(tail: string)
      /** `"playlistVideoRenderer":\{"videoId":"([^"]+)".*?"title":\{"runs":\[\{"text":"([^"]+)"\}\]` */
    | RendererPattern

  const VideoIdKey := "\"videoId\":\""
  const IdLength := 11
  const TitleKey := "\"title\":{\"runs\":[{\"text\":\""
  const TitleClose := "\"}]"
  const RendererKey := "\"playlistVideoRenderer\":{\"videoId\":\""

  /** `[a-zA-Z0-9_-]` */
  predicate IsIdChar(c: char) {
    IsWordChar(c) || c == '-'
  }

  predicate HasAt(s: string, i: nat, lit: string) {
    i + |lit| <= |s| && s[i..i + |lit|] == lit
  }

  function GroupCount(p: Pattern): nat {
    if p.RendererPattern? then 2 else 1
  }

  /** `[a-zA-Z0-9_-]{11}` */
  predicate IsVideoId(c: string) {
    |c| == IdLength && forall k :: 0 <= k < |c| ==> IsIdChar(c[k])
  }

  /** `[^"]+` */
  predicate IsQuoteFree(c: string) {
    c != [] && '"' !in c
  }

  /** What a capture of `p` looks like: an eleven-character id, or non-empty text without `"`. */
  predicate CaptureShaped(p: Pattern, c: string) {
    if p.VideoIdPattern? then IsVideoId(c) else IsQuoteFree(c)
  }

  /** What a match of `p` looks like: non-empty, with all its groups, each shaped as above. */
  predicate WellShaped(p: Pattern, m: Match) {
    && |m.groups| == GroupCount(p)
    && m.start < m.end
    && forall g :: 0 <= g < |m.groups| ==> CaptureShaped(p, m.groups[g])
  }

  /** The length of the run of characters other than `"` starting at `i`: what `[^"]+` takes.
      As the pattern goes on with a literal `"`, no shorter run can lead to a match. */
  function NonQuoteRun(s: string, i: nat): (n: nat)
    requires i <= |s|
    ensures i + n <= |s|
    ensures forall k :: i <= k < i + n ==> s[k] != '"'
    ensures i + n < |s| ==> s[i + n] == '"'
    decreases |s| - i
  {
    if i < |s| && s[i] != '"' then 1 + NonQuoteRun(s, i + 1) else 0
  }

  function VideoIdAt(s: string, i: nat): (r: Option<Match>)
    requires i <= |s|
    ensures r.Some? ==> r.value.start == i && r.value.end <= |s| && WellShaped(VideoIdPattern, r.value)
  {
    var a := i + |VideoIdKey|;
    if HasAt(s, i, VideoIdKey) && a + IdLength < |s|
       && (forall k :: a <= k < a + IdLength ==> IsIdChar(s[k])) && s[a + IdLength] == '"'
    then Some(Match(i, a + IdLength + 1, [s[a..a + IdLength]]))
    else None
  }

  function RunsTitleAt(s: string, i: nat, tail: string): (r: Option<Match>)
    requires i <= |s|
    ensures r.Some? ==> r.value.start == i && r.value.end <= |s| && WellShaped(RunsTitlePattern(tail), r.value)
  {
    if HasAt(s, i, TitleKey) then
      var a := i + |TitleKey|;
      var n := NonQuoteRun(s, a);
      if n > 0 && HasAt(s, a + n, TitleClose + tail) then
        var text := s[a..a + n];
        assert forall k :: 0 <= k < n ==> text[k] == s[a + k];
        Some(Match(i, a + n + |TitleClose + tail|, [text]))
      else None
    else None
  }

  /** The title pattern followed by `tail`, as a matcher. */
  function TitleMatcher(tail: string): Matcher {
    (s: string, i: nat) => if i <= |s| then RunsTitleAt(s, i, tail) else None
  }

  lemma TitleMatcherAnchored(tail: string)
    ensures Anchored(TitleMatcher(tail))
  {
    forall s: string, i: nat | i <= |s| && TitleMatcher(tail)(s, i).Some?
      ensures TitleMatcher(tail)(s, i).value.start == i < TitleMatcher(tail)(s, i).value.end <= |s|
    {
      assert TitleMatcher(tail)(s, i) == RunsTitleAt(s, i, tail);
    }
  }

  function RendererAt(s: string, i: nat): (r: Option<Match>)
    requires i <= |s|
    ensures r.Some? ==> r.value.start == i && r.value.end <= |s| && WellShaped(RendererPattern, r.value)
  {
    if HasAt(s, i, RendererKey) then RendererFrom(s, i, i + |RendererKey|) else None
  }

  /** The rest of the renderer pattern, after its opening key has matched `s[i..a]`: the id up to the
      next `"`, then `.*?` and the title pattern. */
  function RendererFrom(s: string, i: nat, a: nat): (r: Option<Match>)
    requires i < a <= |s|
    ensures r.Some? ==> r.value.start == i && r.value.end <= |s| && WellShaped(RendererPattern, r.value)
  {
    var n := NonQuoteRun(s, a);
    if n > 0 && a + n < |s| then
      TitleMatcherAnchored("");
      match LazyThen(TitleMatcher(""), s, a + n + 1)
      case Some(t) =>
        assert TitleMatcher("")(s, t.start) == RunsTitleAt(s, t.start, "");
        var id := s[a..a + n];
        assert forall k :: 0 <= k < n ==> id[k] == s[a + k];
        Some(Match(i, t.end, [id, t.groups[0]]))
      case None => None
    else None
  }

  /** Whether `p` matches at position `i` of `s` exactly, and how. */
  function MatchAt(p: Pattern, s: string, i: nat): (r: Option<Match>)
    requires i <= |s|
    ensures r.Some? ==> r.value.start == i && r.value.end <= |s| && WellShaped(p, r.value)
  {
    match p
    case VideoIdPattern => VideoIdAt(s, i)
    case RunsTitlePattern(tail) => RunsTitleAt(s, i, tail)
    case RendererPattern => RendererAt(s, i)
  }

  /** The pattern `p` as a matcher for the exec loop. */
  function MatcherOf(p: Pattern): Matcher {
    (s: string, i: nat) => if i <= |s| then MatchAt(p, s, i) else None
  }

  /** Every match of `p` starts where it was tried, is non-empty and lies within the text. */
  lemma MatcherAnchored(p: Pattern)
    ensures Anchored(MatcherOf(p))
  {
    forall s: string, i: nat | i <= |s| && MatcherOf(p)(s, i).Some?
      ensures MatcherOf(p)(s, i).value.start == i < MatcherOf(p)(s, i).value.end <= |s|
    {
      assert MatcherOf(p)(s, i) == MatchAt(p, s, i);
    }
  }

  /** Every match of `p` the exec loop visits has the shape `p` gives it. */
  lemma AllMatchesShaped(p: Pattern, s: string, from: nat)
    requires from <= |s|
    ensures Anchored(MatcherOf(p))
    ensures var ms := AllMatches(MatcherOf(p), s, from);
      forall i :: 0 <= i < |ms| ==> WellShaped(p, ms[i])
  {
    MatcherAnchored(p);
    var ms := AllMatches(MatcherOf(p), s, from);
    forall i | 0 <= i < |ms| ensures WellShaped(p, ms[i]) {
      assert MatcherOf(p)(s, ms[i].start) == MatchAt(p, s, ms[i].start);
    }
  }

  /** Every match of `p` has each of its capture groups. */
  lemma MatcherHasGroup(p: Pattern, g: nat)
    requires g < GroupCount(p)
    ensures HasGroup(MatcherOf(p), g)
  {
    forall s: string, i: nat | i <= |s| && MatcherOf(p)(s, i).Some?
      ensures g < |MatcherOf(p)(s, i).value.groups|
    {
      assert MatcherOf(p)(s, i) == MatchAt(p, s, i);
    }
  }

  /** `match[g]` of every match of `p` the exec loop visits over the whole of `s`. */
  function Captures(p: Pattern, s: string, g: nat): (cs: seq<string>)
    requires g < GroupCount(p)
  {
    MatcherAnchored(p);
    Group(AllMatches(MatcherOf(p), s, 0), g)
  }

  /** Every capture the exec loop collects has the shape its group gives it. */
  lemma CapturesShaped(p: Pattern, s: string, g: nat)
    requires g < GroupCount(p)
    ensures var cs := Captures(p, s, g);
      forall i :: 0 <= i < |cs| ==> CaptureShaped(p, cs[i])
  {
    AllMatchesShaped(p, s, 0);
    var ms := AllMatches(MatcherOf(p), s, 0);
    forall i | 0 <= i < |ms| ensures CaptureShaped(p, Capture(ms[i], g)) {
      assert WellShaped(p, ms[i]);
    }
  }
}
