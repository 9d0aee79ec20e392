/** `GET /api/youtube/playlist?id=…`: scrape a playlist page. The primary scan reads id and title
    together from each `playlistVideoRenderer` object, keeping the first video per id; only when it
    finds nothing does the route fall back to pairing the page's ids and titles by position. */
module PlaylistRoute {
  import opened Web
  import opened JsText
  import opened RegexExec
  import opened FixedPatterns
  import opened FirstOccurrence
  import opened Scraper

  const PlaylistUrlPrefix := "https://www.youtube.com/playlist?list="
  const MaxVideos := 50
  const IdRequired := "Playlist ID required"
  const FetchError := "Failed to fetch playlist"

  /** `&`, as it stands in the page: a backslash and five characters. */
  const EscapedAmp := "\\u0026"
  /** `\"`, as it stands in the page. */
  const EscapedQuote := "\\\""
  /** The fallback title pattern must be followed by the accessibility key. */
  const AccessibilityTail := ",\"accessibility\""
  const FallbackTitlePattern := RunsTitlePattern(AccessibilityTail)

  datatype PlaylistVideo = PlaylistVideo(id: string, title: string, thumbnail: string)

  /** The JSON reply: `{ videos }`, or `{ videos: [], error }` with its status. */
  datatype Response = Response(status: nat, videos: seq<PlaylistVideo>, error: Option<string>)

  function Thumbnail(id: string): string {
    "https://img.youtube.com/vi/" + id + "/mqdefault.jpg"
  }

  function MakeVideo(id: string, title: string): (v: PlaylistVideo)
    ensures v.id == id && v.title == title && v.thumbnail == Thumbnail(id)
  {
    PlaylistVideo(id, title, Thumbnail(id))
  }

  /** The key of the `seenIds` dedup. */
  function VideoId(v: PlaylistVideo): string {
    v.id
  }

  /** `title.replace(/\\u0026/g, "&").replace(/\\"/g, '"')` */
  function Decode(title: string): string {
    ReplaceAll(ReplaceAll(title, EscapedAmp, "&"), EscapedQuote, "\"")
  }

  /** A captured title holds no `"`, so only the first replacement can change it, the result holds
      no `"` either, and it is empty only if the title was. */
  lemma DecodeQuoteFree(title: string)
    requires '"' !in title
    ensures Decode(title) == ReplaceAll(title, EscapedAmp, "&")
    ensures '"' !in Decode(title)
    ensures title != [] ==> Decode(title) != []
  {
    var once := ReplaceAll(title, EscapedAmp, "&");
    assert '"' !in once;
    assert '"' in EscapedQuote by { assert EscapedQuote[1] == '"'; }
    ReplaceAllWithoutOccurrence(once, EscapedQuote, "\"", '"');
  }

  /** The video the primary scan builds from one renderer match. */
  function Candidate(m: Match): PlaylistVideo {
    MakeVideo(Capture(m, 0), Decode(Capture(m, 1)))
  }

  function Candidates(ms: seq<Match>): (vs: seq<PlaylistVideo>)
    ensures |vs| == |ms| && forall i :: 0 <= i < |ms| ==> vs[i] == Candidate(ms[i])
  {
    seq(|ms|, i requires 0 <= i < |ms| => Candidate(ms[i]))
  }

  /** The primary scan's result for the renderer matches `ms`: one video per id, the first. */
  function PrimaryVideos(ms: seq<Match>): seq<PlaylistVideo> {
    FirstByKey(Candidates(ms), VideoId)
  }

  /** The fallback loop as written: the positional pairing, skipping an id already in `seenIds`. */
  function FallbackVideos(videoIds: seq<string>, titles: seq<string>): seq<PlaylistVideo> {
    FirstByKey(PairByPosition(videoIds, titles, MaxVideos, MakeVideo), VideoId)
  }

  function DecodeAll(titles: seq<string>): (ds: seq<string>)
    ensures |ds| == |titles| && forall i :: 0 <= i < |titles| ==> ds[i] == Decode(titles[i])
  {
    seq(|titles|, i requires 0 <= i < |titles| => Decode(titles[i]))
  }

  function RendererMatches(html: string): seq<Match> {
    MatcherAnchored(RendererPattern);
    AllMatches(MatcherOf(RendererPattern), html, 0)
  }

  /** The list the route builds from a page it fetched, before the final cut to 50. */
  function PlaylistVideos(html: string): seq<PlaylistVideo> {
    var primary := PrimaryVideos(RendererMatches(html));
    if primary != [] then primary
    else FallbackVideos(Distinct(Captures(VideoIdPattern, html, 0)),
      DecodeAll(Captures(FallbackTitlePattern, html, 0)))
  }

  /** `videos.slice(0, n)` */
  function Take<T>(xs: seq<T>, n: nat): (r: seq<T>)
    ensures |r| == (if |xs| < n then |xs| else n) && r <= xs
    ensures |xs| <= n ==> r == xs
  {
    if |xs| <= n then xs else xs[..n]
  }

  /** The primary loop: for each renderer match, push the decoded video unless `seenIds` holds its
      id, and add the id. */
  method ScanRenderers(videoDataRegex: Matcher, html: string)
    returns (videos: seq<PlaylistVideo>, seenIds: set<string>)
    requires Anchored(videoDataRegex) && HasGroup(videoDataRegex, 0) && HasGroup(videoDataRegex, 1)
    ensures videos == PrimaryVideos(AllMatches(videoDataRegex, html, 0))
    ensures forall id :: id in seenIds <==> id in KeysOf(videos, VideoId)
  {
    videos, seenIds := [], {};
    var lastIndex := 0;
    ghost var visited: seq<Match> := [];
    var m := Exec(videoDataRegex, html, lastIndex);
    while m.Some?
      invariant lastIndex <= |html|
      invariant m == Exec(videoDataRegex, html, lastIndex)
      invariant visited + AllMatches(videoDataRegex, html, lastIndex) == AllMatches(videoDataRegex, html, 0)
      invariant videos == PrimaryVideos(visited)
      invariant forall id :: id in seenIds <==> id in KeysOf(videos, VideoId)
      decreases |html| - lastIndex
    {
      ExecLoopAdvance(videoDataRegex, html, visited, lastIndex);
      var videoId := m.value.groups[0];
      var title := m.value.groups[1];
      PrimaryStep(visited, m.value);
      if videoId !in seenIds {
        seenIds := seenIds + {videoId};
        KeysOfSnoc(videos, MakeVideo(videoId, Decode(title)), VideoId);
        videos := videos + [MakeVideo(videoId, Decode(title))];
      }
      visited := visited + [m.value];
      lastIndex := m.value.end;
      m := Exec(videoDataRegex, html, lastIndex);
    }
    assert visited == AllMatches(videoDataRegex, html, 0);
  }

  /** One turn of the primary loop extends the dedup by one candidate. */
  lemma PrimaryStep(visited: seq<Match>, m: Match)
    ensures var r := PrimaryVideos(visited);
      PrimaryVideos(visited + [m]) ==
        if Capture(m, 0) in KeysOf(r, VideoId) then r else r + [Candidate(m)]
  {
    assert Candidates(visited + [m]) == Candidates(visited) + [Candidate(m)];
    FirstByKeySnoc(Candidates(visited), Candidate(m), VideoId);
  }

  /** The fallback's title loop: every accessibility-terminated title capture, decoded. */
  method CollectDecodedTitles(titleRegex: Matcher, html: string) returns (titles: seq<string>)
    requires Anchored(titleRegex) && HasGroup(titleRegex, 0)
    ensures titles == DecodeAll(Group(AllMatches(titleRegex, html, 0), 0))
  {
    titles := [];
    var lastIndex := 0;
    ghost var visited: seq<Match> := [];
    var m := Exec(titleRegex, html, lastIndex);
    while m.Some?
      invariant lastIndex <= |html|
      invariant m == Exec(titleRegex, html, lastIndex)
      invariant visited + AllMatches(titleRegex, html, lastIndex) == AllMatches(titleRegex, html, 0)
      invariant titles == DecodeAll(Group(visited, 0))
      decreases |html| - lastIndex
    {
      ExecLoopAdvance(titleRegex, html, visited, lastIndex);
      assert Group(visited + [m.value], 0) == Group(visited, 0) + [m.value.groups[0]];
      titles := titles + [Decode(m.value.groups[0])];
      visited := visited + [m.value];
      lastIndex := m.value.end;
      m := Exec(titleRegex, html, lastIndex);
    }
    assert visited == AllMatches(titleRegex, html, 0);
  }

  /** The fallback's index loop, continuing from the (empty) result of the primary scan. */
  method PairFallback(videoIds: seq<string>, titles: seq<string>, seenIds0: set<string>)
    returns (videos: seq<PlaylistVideo>, seenIds: set<string>)
    requires seenIds0 == {}
    ensures videos == FallbackVideos(videoIds, titles)
    ensures forall id :: id in seenIds <==> id in KeysOf(videos, VideoId)
  {
    videos, seenIds := [], seenIds0;
    var n := if |videoIds| < MaxVideos then |videoIds| else MaxVideos;
    ghost var pairs := PairByPosition(videoIds, titles, MaxVideos, MakeVideo);
    for i := 0 to n
      invariant videos == FirstByKey(pairs[..i], VideoId)
      invariant forall id :: id in seenIds <==> id in KeysOf(videos, VideoId)
    {
      assert pairs[..i + 1] == pairs[..i] + [pairs[i]];
      FirstByKeySnoc(pairs[..i], pairs[i], VideoId);
      if videoIds[i] !in seenIds {
        seenIds := seenIds + {videoIds[i]};
        KeysOfSnoc(videos, pairs[i], VideoId);
        videos := videos + [MakeVideo(videoIds[i], TitleOr(titles, i))];
      }
    }
    assert pairs[..n] == pairs;
  }

  /** The handler, given the `id` query parameter and the outcome of fetching the playlist page.
      `fetchedUrl` is the address fetched, if any. */
  method Get(playlistId: Option<string>, upstream: Upstream<string>)
    returns (fetchedUrl: Option<string>, response: Response)
    ensures playlistId.None? || playlistId.value == "" ==>
      fetchedUrl == None && response == Response(400, [], Some(IdRequired))
    ensures playlistId.Some? && playlistId.value != "" ==>
      fetchedUrl == Some(PlaylistUrlPrefix + playlistId.value)
    ensures playlistId.Some? && playlistId.value != "" && !Succeeded(upstream) ==>
      response == Response(500, [], Some(FetchError))
    ensures playlistId.Some? && playlistId.value != "" && Succeeded(upstream) ==>
      response == Response(200, Take(PlaylistVideos(upstream.body), MaxVideos), None)
  {
    if playlistId.None? || playlistId.value == "" {
      return None, Response(400, [], Some(IdRequired));
    }
    fetchedUrl := Some(PlaylistUrlPrefix + playlistId.value);
    if !Succeeded(upstream) {
      return fetchedUrl, Response(500, [], Some(FetchError));
    }
    var html := upstream.body;
    var videoDataRegex := MatcherOf(RendererPattern);
    MatcherAnchored(RendererPattern);
    MatcherHasGroup(RendererPattern, 0);
    MatcherHasGroup(RendererPattern, 1);
    var videos, seenIds := ScanRenderers(videoDataRegex, html);
    if |videos| == 0 {
      assert KeysOf(videos, VideoId) == [];
      assert seenIds == {};
      var videoIdRegex := MatcherOf(VideoIdPattern);
      var titleRegex := MatcherOf(FallbackTitlePattern);
      MatcherAnchored(VideoIdPattern);
      MatcherHasGroup(VideoIdPattern, 0);
      MatcherAnchored(FallbackTitlePattern);
      MatcherHasGroup(FallbackTitlePattern, 0);
      var videoIds := CollectDistinctIds(videoIdRegex, html);
      var titles := CollectDecodedTitles(titleRegex, html);
      videos, seenIds := PairFallback(videoIds, titles, seenIds);
    }
    response := Response(200, Take(videos, MaxVideos), None);
  }

  /** The primary scan finds nothing exactly when the renderer pattern matches nowhere, and
      otherwise it always keeps the first match: so the fallback runs if and only if the pattern
      matched nothing. */
  lemma PrimaryEmptyIffNoMatch(ms: seq<Match>)
    ensures PrimaryVideos(ms) == [] <==> ms == []
    ensures ms != [] ==> PrimaryVideos(ms)[0] == Candidate(ms[0])
  {
    if ms != [] {
      FirstByKeyHead(Candidates(ms), VideoId);
    }
  }

  /** The route falls back to positional pairing if and only if the renderer pattern matches
      nowhere in the page. */
  lemma FallbackIffNoRendererMatch(html: string)
    ensures RendererMatches(html) != [] ==> PlaylistVideos(html) == PrimaryVideos(RendererMatches(html))
    ensures RendererMatches(html) == [] ==> (PlaylistVideos(html) ==
      FallbackVideos(Distinct(Captures(VideoIdPattern, html, 0)), DecodeAll(Captures(FallbackTitlePattern, html, 0))))
  {
    PrimaryEmptyIffNoMatch(RendererMatches(html));
  }

  /** The primary scan keeps, for each captured id, the video of its first match, in page order;
      the ids it lists are exactly the captured ids, each once. */
  lemma PrimaryKeepsFirst(ms: seq<Match>)
    ensures PrimaryVideos(ms) == FirstOccurrences(Candidates(ms), VideoId, |ms|)
    ensures DistinctKeys(PrimaryVideos(ms), VideoId)
    ensures forall id :: id in KeysOf(PrimaryVideos(ms), VideoId) <==> id in Group(ms, 0)
  {
    FirstByKeyIsFirstOccurrences(Candidates(ms), VideoId);
    CandidateKeys(ms);
  }

  /** The key of each candidate is the id its match captured. */
  lemma CandidateKeys(ms: seq<Match>)
    ensures KeysOf(Candidates(ms), VideoId) == Group(ms, 0)
  {
    var ks := KeysOf(Candidates(ms), VideoId);
    assert forall i :: 0 <= i < |ms| ==> ks[i] == Capture(ms[i], 0);
  }

  /** On the primary path ids are any non-empty text without `"` (not necessarily eleven
      characters), and titles are decoded captures without `"`. */
  lemma PrimaryVideosShaped(ms: seq<Match>)
    requires forall i :: 0 <= i < |ms| ==> WellShaped(RendererPattern, ms[i])
    ensures forall v :: v in PrimaryVideos(ms) ==>
      IsQuoteFree(v.id) && IsQuoteFree(v.title) && v.thumbnail == Thumbnail(v.id)
  {
    var cs := Candidates(ms);
    FirstByKeyElements(cs, VideoId);
    forall v | v in cs ensures IsQuoteFree(v.id) && IsQuoteFree(v.title) && v.thumbnail == Thumbnail(v.id) {
      var i :| 0 <= i < |cs| && cs[i] == v;
      assert CaptureShaped(RendererPattern, ms[i].groups[0]);
      assert CaptureShaped(RendererPattern, ms[i].groups[1]);
      DecodeQuoteFree(ms[i].groups[1]);
    }
  }

  /** The renderer matches of a page have the renderer pattern's shape. */
  lemma RendererMatchesShaped(html: string)
    ensures var ms := RendererMatches(html);
      forall i :: 0 <= i < |ms| ==> WellShaped(RendererPattern, ms[i])
  {
    AllMatchesShaped(RendererPattern, html, 0);
  }

  /** With distinct ids, as the fallback's id list always is, the `seenIds` check skips nothing:
      the fallback lists min(50, number of ids) videos, video `i` with id `i`. */
  lemma FallbackSkipsNothing(videoIds: seq<string>, titles: seq<string>)
    requires forall i, j :: 0 <= i < j < |videoIds| ==> videoIds[i] != videoIds[j]
    ensures FallbackVideos(videoIds, titles) == PairByPosition(videoIds, titles, MaxVideos, MakeVideo)
    ensures |FallbackVideos(videoIds, titles)| == if |videoIds| < MaxVideos then |videoIds| else MaxVideos
  {
    var ps := PairByPosition(videoIds, titles, MaxVideos, MakeVideo);
    assert DistinctKeys(ps, VideoId) by {
      forall i, j | 0 <= i < j < |ps| ensures VideoId(ps[i]) != VideoId(ps[j]) {
        assert ps[i].id == videoIds[i] && ps[j].id == videoIds[j];
      }
    }
    FirstByKeyOfDistinct(ps, VideoId);
  }

  /** On the fallback path video `i` gets the `i`-th decoded title when there is one, and
      `Episode i+1` otherwise (no decoded capture is empty). */
  lemma FallbackTitles(html: string)
    ensures var titles := DecodeAll(Captures(FallbackTitlePattern, html, 0));
      var vs := PairByPosition(Distinct(Captures(VideoIdPattern, html, 0)), titles, MaxVideos, MakeVideo);
      forall i :: 0 <= i < |vs| ==> vs[i].title == if i < |titles| then titles[i] else EpisodeTitle(i)
    ensures forall t :: t in DecodeAll(Captures(FallbackTitlePattern, html, 0)) ==> IsQuoteFree(t)
  {
    var raw := Captures(FallbackTitlePattern, html, 0);
    var titles := DecodeAll(raw);
    CapturesShaped(FallbackTitlePattern, html, 0);
    forall i | 0 <= i < |titles| ensures IsQuoteFree(titles[i]) {
      assert CaptureShaped(FallbackTitlePattern, raw[i]);
      DecodeQuoteFree(raw[i]);
    }
  }

  /** Every video carries the `mqdefault` thumbnail of its own id. */
  predicate ThumbnailsMatch(vs: seq<PlaylistVideo>) {
    forall i :: 0 <= i < |vs| ==> vs[i].thumbnail == Thumbnail(vs[i].id)
  }

  /** What the `seenIds` dedup keeps has distinct ids and keeps each video's thumbnail. */
  lemma KeptVideosWellFormed(candidates: seq<PlaylistVideo>)
    requires ThumbnailsMatch(candidates)
    ensures DistinctKeys(FirstByKey(candidates, VideoId), VideoId)
    ensures ThumbnailsMatch(FirstByKey(candidates, VideoId))
  {
    var r := FirstByKey(candidates, VideoId);
    FirstByKeyElements(candidates, VideoId);
    forall i | 0 <= i < |r| ensures r[i].thumbnail == Thumbnail(r[i].id) {
      assert r[i] in candidates;
    }
  }

  /** The route's list, before the cut, has distinct ids and matching thumbnails on either path. */
  lemma PlaylistVideosWellFormed(html: string)
    ensures DistinctKeys(PlaylistVideos(html), VideoId) && ThumbnailsMatch(PlaylistVideos(html))
  {
    if PrimaryVideos(RendererMatches(html)) != [] {
      KeptVideosWellFormed(Candidates(RendererMatches(html)));
    } else {
      KeptVideosWellFormed(PairByPosition(Distinct(Captures(VideoIdPattern, html, 0)),
        DecodeAll(Captures(FallbackTitlePattern, html, 0)), MaxVideos, MakeVideo));
    }
  }

  /** The response lists at most 50 videos, with pairwise distinct ids, each with the `mqdefault`
      thumbnail of its id. */
  lemma ResponseBounds(html: string)
    ensures var vs := Take(PlaylistVideos(html), MaxVideos);
      && |vs| <= MaxVideos
      && (forall i, j :: 0 <= i < j < |vs| ==> vs[i].id != vs[j].id)
      && ThumbnailsMatch(vs)
  {
    PlaylistVideosWellFormed(html);
    TakeWellFormed(PlaylistVideos(html));
  }

  /** Cutting a list with distinct ids and matching thumbnails to 50 keeps both properties. */
  lemma TakeWellFormed(all: seq<PlaylistVideo>)
    requires DistinctKeys(all, VideoId) && ThumbnailsMatch(all)
    ensures var vs := Take(all, MaxVideos);
      && (forall i, j :: 0 <= i < j < |vs| ==> vs[i].id != vs[j].id)
      && ThumbnailsMatch(vs)
  {
    var vs := Take(all, MaxVideos);
    forall i, j | 0 <= i < j < |vs| ensures vs[i].id != vs[j].id {
      assert vs[i] == all[i] && vs[j] == all[j];
      assert VideoId(all[i]) != VideoId(all[j]);
    }
  }
}
