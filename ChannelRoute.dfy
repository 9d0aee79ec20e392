/** `GET /api/youtube`: scrape the studio's channel page for video ids and titles, pair them by
    position and build up to 25 video records; any failure gives an empty list and an error. */
module ChannelRoute {
  import opened Web
  import opened JsText
  import opened RegexExec
  import opened FixedPatterns
  import opened FirstOccurrence
  import opened Scraper

  const ChannelUrl := "https://www.youtube.com/@ChilliFlakesStudio/videos"
  const MaxVideos := 25
  const FetchError := "Failed to fetch videos"

  datatype Video = Video(
    id: string,
    title: string,
    thumbnail: string,
    thumbnailHQ: string,
    description: string,
    publishedAt: string,
    url: string)

  /** The JSON reply: `{ videos }`, or `{ videos: [], error }` with its status. */
  datatype Response = Response(status: nat, videos: seq<Video>, error: Option<string>)

  /** The title pattern of this route: the title runs with nothing required after them. */
  const ChannelTitlePattern := RunsTitlePattern("")

  /** The record built for the id at `index`, with the title that position gets. */
  function MakeVideo(id: string, title: string): (v: Video)
    ensures v.id == id && v.title == title && v.description == "" && v.publishedAt == ""
    ensures v.thumbnail == "https://img.youtube.com/vi/" + id + "/maxresdefault.jpg"
    ensures v.thumbnailHQ == "https://img.youtube.com/vi/" + id + "/hqdefault.jpg"
    ensures v.url == "https://www.youtube.com/watch?v=" + id
  {
    Video(id, title, "https://img.youtube.com/vi/" + id + "/maxresdefault.jpg",
      "https://img.youtube.com/vi/" + id + "/hqdefault.jpg", "", "",
      "https://www.youtube.com/watch?v=" + id)
  }

  /** What the route builds from a page it fetched. */
  function ChannelVideos(html: string): seq<Video> {
    PairByPosition(Distinct(Captures(VideoIdPattern, html, 0)), Captures(ChannelTitlePattern, html, 0),
      MaxVideos, MakeVideo)
  }

  /** The title loop: every title capture, in document order, duplicates kept. */
  method CollectTitles(titleRegex: Matcher, html: string) returns (titles: seq<string>)
    requires Anchored(titleRegex) && HasGroup(titleRegex, 0)
    ensures titles == Group(AllMatches(titleRegex, html, 0), 0)
  {
    titles := [];
    var lastIndex := 0;
    ghost var visited: seq<Match> := [];
    var m := Exec(titleRegex, html, lastIndex);
    while m.Some?
      invariant lastIndex <= |html|
      invariant m == Exec(titleRegex, html, lastIndex)
      invariant visited + AllMatches(titleRegex, html, lastIndex) == AllMatches(titleRegex, html, 0)
      invariant titles == Group(visited, 0)
      decreases |html| - lastIndex
    {
      ExecLoopAdvance(titleRegex, html, visited, lastIndex);
      titles := titles + [m.value.groups[0]];
      visited := visited + [m.value];
      lastIndex := m.value.end;
      m := Exec(titleRegex, html, lastIndex);
    }
    assert visited == AllMatches(titleRegex, html, 0);
  }

  /** The handler, given the outcome of fetching the channel page. */
  method Get(upstream: Upstream<string>) returns (response: Response)
    ensures !Succeeded(upstream) ==> response == Response(500, [], Some(FetchError))
    ensures Succeeded(upstream) ==> response == Response(200, ChannelVideos(upstream.body), None)
  {
    if !Succeeded(upstream) {
      return Response(500, [], Some(FetchError));
    }
    var html := upstream.body;
    var videoIdRegex := MatcherOf(VideoIdPattern);
    var titleRegex := MatcherOf(ChannelTitlePattern);
    MatcherAnchored(VideoIdPattern);
    MatcherHasGroup(VideoIdPattern, 0);
    MatcherAnchored(ChannelTitlePattern);
    MatcherHasGroup(ChannelTitlePattern, 0);
    var videoIds := CollectDistinctIds(videoIdRegex, html);
    var titles := CollectTitles(titleRegex, html);
    return Response(200, PairByPosition(videoIds, titles, MaxVideos, MakeVideo), None);
  }

  /** Given the id captures of a page, the route lists min(25, number of distinct ids) videos, with
      pairwise distinct ids that are the distinct captures in order of first occurrence. */
  lemma PairedIds(captured: seq<string>, titles: seq<string>)
    ensures var ids := Distinct(captured);
      var videos := PairByPosition(ids, titles, MaxVideos, MakeVideo);
      && |videos| == (if |ids| < MaxVideos then |ids| else MaxVideos)
      && (forall i :: 0 <= i < |videos| ==> videos[i].id == ids[i])
      && (forall i, j :: 0 <= i < j < |videos| ==> videos[i].id != videos[j].id)
  {
  }

  /** Every id listed is eleven characters of `[a-zA-Z0-9_-]` captured from the page. */
  lemma ChannelVideoIdsFromPage(html: string)
    ensures var videos := ChannelVideos(html);
      forall i :: 0 <= i < |videos| ==>
        IsVideoId(videos[i].id) && videos[i].id in Captures(VideoIdPattern, html, 0)
  {
    var caps := Captures(VideoIdPattern, html, 0);
    var ids := Distinct(caps);
    CapturesShaped(VideoIdPattern, html, 0);
    forall i | 0 <= i < |ids| ensures IsVideoId(ids[i]) && ids[i] in caps {
      assert ids[i] in ids;
      var j :| 0 <= j < |caps| && caps[j] == ids[i];
      assert CaptureShaped(VideoIdPattern, caps[j]);
    }
  }

  /** A captured id is left out only when 25 videos are already listed. */
  lemma PairedIdsComplete(captured: seq<string>, titles: seq<string>)
    ensures var videos := PairByPosition(Distinct(captured), titles, MaxVideos, MakeVideo);
      |videos| < MaxVideos ==> forall id :: id in captured ==>
        exists i :: 0 <= i < |videos| && videos[i].id == id
  {
    var ids := Distinct(captured);
    var videos := PairByPosition(ids, titles, MaxVideos, MakeVideo);
    if |videos| < MaxVideos {
      forall id | id in captured ensures exists i :: 0 <= i < |videos| && videos[i].id == id {
        var i :| 0 <= i < |ids| && ids[i] == id;
        assert videos[i].id == id;
      }
    }
  }

  /** Video `i` gets the `i`-th title capture of the page when there is one, and `Episode i+1`
      otherwise: captures are never empty, so the `||` default applies only past the end of the
      title list. Titles are passed on raw, without decoding escapes. */
  lemma ChannelTitles(html: string)
    ensures var titles := Captures(ChannelTitlePattern, html, 0);
      var videos := ChannelVideos(html);
      forall i :: 0 <= i < |videos| ==>
        videos[i].title == if i < |titles| then titles[i] else EpisodeTitle(i)
  {
    var titles := Captures(ChannelTitlePattern, html, 0);
    CapturesShaped(ChannelTitlePattern, html, 0);
    forall i | 0 <= i < |titles| ensures titles[i] != "" {
      assert CaptureShaped(ChannelTitlePattern, titles[i]);
    }
  }

  /** Every title is non-empty and holds no `"`. */
  lemma ChannelTitlesQuoteFree(html: string)
    ensures var videos := ChannelVideos(html);
      forall i :: 0 <= i < |videos| ==> IsQuoteFree(videos[i].title)
  {
    var titles := Captures(ChannelTitlePattern, html, 0);
    var videos := ChannelVideos(html);
    CapturesShaped(ChannelTitlePattern, html, 0);
    forall i | 0 <= i < |videos| ensures IsQuoteFree(videos[i].title) {
      if !(i < |titles| && titles[i] != "") {
        EpisodeTitleQuoteFree(i);
      }
    }
  }

  /** Pairing is by position alone: two pages with the same title captures give the video at `i`
      the same title, whatever ids they hold and wherever those ids occur. A page whose ids and
      titles are not in step therefore gives a video the title of another. */
  lemma TitleIgnoresIds(html1: string, html2: string, i: nat)
    requires Captures(ChannelTitlePattern, html1, 0) == Captures(ChannelTitlePattern, html2, 0)
    requires i < |ChannelVideos(html1)| && i < |ChannelVideos(html2)|
    ensures ChannelVideos(html1)[i].title == ChannelVideos(html2)[i].title
  {
  }
}
