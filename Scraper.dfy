/** The steps the channel route and the playlist route's fallback share, written the same way in
    both source files: collecting distinct video ids, and the positional title with its default. */
module Scraper {
  import opened JsText
  import opened RegexExec
  import opened FixedPatterns
  import opened FirstOccurrence

  /** The id loop: `while ((match = videoIdRegex.exec(html)) !== null)`, pushing `match[1]` unless
      `videoIds.includes(match[1])`. It yields the distinct captured ids in order of first sight. */
  method CollectDistinctIds(videoIdRegex: Matcher, html: string) returns (videoIds: seq<string>)
    requires Anchored(videoIdRegex) && HasGroup(videoIdRegex, 0)
    ensures videoIds == Distinct(Group(AllMatches(videoIdRegex, html, 0), 0))
  {
    videoIds := [];
    var lastIndex := 0;
    ghost var visited: seq<Match> := [];
    var m := Exec(videoIdRegex, html, lastIndex);
    while m.Some?
      invariant lastIndex <= |html|
      invariant m == Exec(videoIdRegex, html, lastIndex)
      invariant visited + AllMatches(videoIdRegex, html, lastIndex) == AllMatches(videoIdRegex, html, 0)
      invariant videoIds == Distinct(Group(visited, 0))
      decreases |html| - lastIndex
    {
      var id := m.value.groups[0];
      ExecLoopAdvance(videoIdRegex, html, visited, lastIndex);
      DistinctGroupStep(visited, m.value, 0, videoIds);
      if id !in videoIds {
        videoIds := videoIds + [id];
      }
      visited := visited + [m.value];
      lastIndex := m.value.end;
      m := Exec(videoIdRegex, html, lastIndex);
    }
    assert visited == AllMatches(videoIdRegex, html, 0);
  }

  /** One turn of an exec loop: the match `exec` returns moves from the matches still ahead to the
      ones already visited. */
  lemma ExecLoopAdvance(f: Matcher, html: string, visited: seq<Match>, lastIndex: nat)
    requires Anchored(f) && lastIndex <= |html| && Exec(f, html, lastIndex).Some?
    requires visited + AllMatches(f, html, lastIndex) == AllMatches(f, html, 0)
    ensures var m := Exec(f, html, lastIndex).value;
      && m.end <= |html|
      && (visited + [m]) + AllMatches(f, html, m.end) == AllMatches(f, html, 0)
  {
    var m := Exec(f, html, lastIndex).value;
    AllMatchesStep(f, html, lastIndex);
    var rest := AllMatches(f, html, m.end);
    assert (visited + [m]) + rest == visited + ([m] + rest);
  }

  /** One turn of the `includes` dedup over capture group `g` keeps it equal to `Distinct`. */
  lemma DistinctGroupStep(visited: seq<Match>, m: Match, g: nat, seen: seq<string>)
    requires g < |m.groups|
    requires seen == Distinct(Group(visited, g))
    ensures (if m.groups[g] in seen then seen else seen + [m.groups[g]]) == Distinct(Group(visited + [m], g))
  {
    DistinctSnoc(Group(visited, g), m.groups[g]);
    assert Group(visited + [m], g) == Group(visited, g) + [m.groups[g]];
  }

  /** The title both routes give the video at `index`: `titles[index] || \`Episode ${index + 1}\``,
      where an absent or empty title falls back to the episode number. */
  function TitleOr(titles: seq<string>, index: nat): string {
    if index < |titles| && titles[index] != "" then titles[index] else EpisodeTitle(index)
  }

  /** `videoIds.slice(0, limit).map((id, index) => make(id, TitleOr(titles, index)))`: the first
      `limit` ids, each with the title at its own position in the title list. Both routes pair this
      way, the channel route with a limit of 25 and the playlist fallback with 50. */
  function PairByPosition<V>(videoIds: seq<string>, titles: seq<string>, limit: nat,
                             make: (string, string) -> V): (videos: seq<V>)
    ensures |videos| == if |videoIds| < limit then |videoIds| else limit
    ensures forall i :: 0 <= i < |videos| ==> videos[i] == make(videoIds[i], TitleOr(titles, i))
  {
    var n := if |videoIds| < limit then |videoIds| else limit;
    seq(n, i requires 0 <= i < n => make(videoIds[i], TitleOr(titles, i)))
  }

  function EpisodeTitle(index: nat): string {
    "Episode " + NatToString(index + 1)
  }

  /** A fallback title is never empty and holds no `"`. */
  lemma EpisodeTitleQuoteFree(index: nat)
    ensures IsQuoteFree(EpisodeTitle(index))
  {
    var digits := NatToString(index + 1);
    assert forall k :: 0 <= k < |digits| ==> EpisodeTitle(index)[8 + k] == digits[k];
  }

  /** Fallback titles name their position: two positions never share one. */
  lemma EpisodeTitlesDiffer(i: nat, j: nat)
    requires i != j
    ensures EpisodeTitle(i) != EpisodeTitle(j)
  {
    var a, b := NatToString(i + 1), NatToString(j + 1);
    assert EpisodeTitle(i)[8..] == a && EpisodeTitle(j)[8..] == b;
    assert DecimalValue(a) != DecimalValue(b);
  }
}
