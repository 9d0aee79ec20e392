/** `GET /api/instagram`: the studio's latest image posts from the Instagram Graph API when a token
    is configured and the API answers with posts; the fixed catalogue of twelve posts otherwise. */
module InstagramRoute {
  import opened Web
  import opened JsText
  import opened Caption
  import opened Sequences

  const MaxPosts := 12
  const DayMs := 86400000
  const GraphUrlPrefix :=
    "https://graph.instagram.com/chilliflakesstudio/media?fields=id,caption,media_type,media_url,thumbnail_url,permalink,timestamp&access_token="
  const GraphUrlSuffix := "&limit=12"
  const ProfileUrl := "https://www.instagram.com/chilliflakesstudio/"

  const ApiErrorMessage := "Instagram API error - showing static posts"
  const NoPostsMessage := "No posts from Instagram API - showing static posts"
  const ThrownMessage := "Error fetching from Instagram - showing static posts"
  const NoTokenMessage :=
    "No Instagram token configured - showing static posts. Add INSTAGRAM_ACCESS_TOKEN to enable live feed."

  /** One item of the API's `data` list; `timestamp` is its time in milliseconds. */
  datatype MediaItem = MediaItem(
    id: string,
    caption: Option<string>,
    mediaType: string,
    mediaUrl: Option<string>,
    thumbnailUrl: Option<string>,
    permalink: string,
    timestamp: int)

  /** The reply body: JSON that failed to parse, or an object with an optional `data` list. */
  datatype FeedBody = Malformed | Parsed(data: Option<seq<MediaItem>>)

  /** A post as the route returns it (`src` is absent when neither media URL is set). */
  datatype Post = Post(
    id: string,
    src: Option<string>,
    title: string,
    category: string,
    permalink: string,
    timestamp: int)

  datatype Source = Static | InstagramApi

  /** The JSON reply. `lastUpdated` is the time of the request. */
  datatype Feed = Feed(
    posts: seq<Post>,
    source: Source,
    message: Option<string>,
    lastUpdated: int,
    totalPosts: Option<nat>)

  /** The reply, with the URL the route fetched, if any. */
  datatype Handled = Handled(requestUrl: Option<string>, feed: Feed)

  // The fixed catalogue

  const StaticTitles: seq<string> := [
    "আমার বিয়ের ১০ দিনের মাথায়", "অনেক VAST", "Train With", "নিরাপত্তা প্রদান",
    "হাসিমুর SIP", "Investigation", "Packer's Revolution", "Traitors of Bangladesh",
    "UN মিশনে রকেট হামলা", "Is Cricket Highjacked?", "BCCI ICC BCB ক্ষমতার খেলা", "MILES - Hamin Ahmed"]

  const StaticCategories: seq<string> := [
    "Interview", "Podcast", "Sports", "Interview", "Podcast", "Documentary",
    "Sports", "Documentary", "Interview", "Sports", "Sports", "Music"]

  /** Catalogue post number `n`, dated `n` days before `now`. */
  function StaticPost(n: nat, title: string, category: string, now: int): Post {
    var id := "post-" + NatToString(n);
    Post(id, Some("/instagram-posts/" + id + ".jpg"), title, category, ProfileUrl, now - n * DayMs)
  }

  /** `getStaticPosts()` */
  function StaticPosts(now: int): (posts: seq<Post>)
    ensures |posts| == MaxPosts
    ensures forall i :: 0 <= i < MaxPosts ==>
      posts[i] == StaticPost(i + 1, StaticTitles[i], StaticCategories[i], now)
  {
    seq(MaxPosts, i requires 0 <= i < MaxPosts => StaticPost(i + 1, StaticTitles[i], StaticCategories[i], now))
  }

  /** The catalogue holds twelve posts `post-1` … `post-12`, post `i` dated `i` days ago, so newest
      first with no two at the same time, each with the image named after its id. */
  lemma StaticCatalogue(now: int)
    ensures var posts := StaticPosts(now);
      && |posts| == MaxPosts
      && (forall i :: 0 <= i < MaxPosts ==>
        && posts[i].id == "post-" + NatToString(i + 1)
        && posts[i].src == Some("/instagram-posts/" + posts[i].id + ".jpg")
        && posts[i].timestamp == now - (i + 1) * DayMs)
      && (forall i, j :: 0 <= i < j < MaxPosts ==> posts[i].timestamp > posts[j].timestamp)
      && (forall i, j :: 0 <= i < j < MaxPosts ==> posts[i].id != posts[j].id)
  {
    var posts := StaticPosts(now);
    forall i, j | 0 <= i < j < MaxPosts ensures posts[i].id != posts[j].id {
      var a, b := NatToString(i + 1), NatToString(j + 1);
      assert posts[i].id[5..] == a && posts[j].id[5..] == b;
      assert DecimalValue(a) != DecimalValue(b);
    }
  }

  // The live pipeline

  /** `media_type === "IMAGE" || media_type === "CAROUSEL_ALBUM"` */
  predicate IsImageLike(item: MediaItem) {
    item.mediaType == "IMAGE" || item.mediaType == "CAROUSEL_ALBUM"
  }

  /** `data.filter(...)`: the image-like items, in their order. */
  function FilterImages(items: seq<MediaItem>): (r: seq<MediaItem>)
    ensures |r| <= |items|
    ensures forall x :: x in r <==> x in items && IsImageLike(x)
    ensures forall x :: multiset(r)[x] == if IsImageLike(x) then multiset(items)[x] else 0
  {
    if items == [] then []
    else
      var rest := FilterImages(items[1..]);
      assert items == [items[0]] + items[1..];
      if IsImageLike(items[0]) then [items[0]] + rest else rest
  }

  /** The filter keeps the items it keeps in their order. */
  lemma {:induction false} FilterImagesKeepsOrder(items: seq<MediaItem>)
    ensures SubsequenceOf(FilterImages(items), items)
    decreases |items|
  {
    if items != [] {
      var r := FilterImages(items);
      FilterImagesKeepsOrder(items[1..]);
      if !IsImageLike(items[0]) && r != [] {
        assert r[0] in r;
      }
    }
  }

  /** Newest first: timestamps never increase along `xs`. */
  predicate NewestFirst(xs: seq<MediaItem>) {
    forall i, j :: 0 <= i < j < |xs| ==> xs[i].timestamp >= xs[j].timestamp
  }

  /** The head of a newest-first list is no older than any of its elements. */
  lemma HeadIsNewest(xs: seq<MediaItem>)
    requires NewestFirst(xs)
    ensures xs != [] ==> forall z :: z in xs ==> z.timestamp <= xs[0].timestamp
  {
    forall z | z in xs ensures z.timestamp <= xs[0].timestamp {
      var k :| 0 <= k < |xs| && xs[k] == z;
    }
  }

  /** An item no older than any element of a newest-first list can go in front of it. */
  lemma PrependNewest(y: MediaItem, xs: seq<MediaItem>)
    requires NewestFirst(xs) && forall z :: z in xs ==> z.timestamp <= y.timestamp
    ensures NewestFirst([y] + xs)
  {
    var r := [y] + xs;
    forall i, j | 0 <= i < j < |r| ensures r[i].timestamp >= r[j].timestamp {
      assert r[j] == xs[j - 1];
      if i == 0 {
        assert xs[j - 1] in xs;
      } else {
        assert r[i] == xs[i - 1];
      }
    }
  }

  /** Places `x`, which came before every element of `sorted`, ahead of those no newer than it. */
  function Insert(x: MediaItem, sorted: seq<MediaItem>): (r: seq<MediaItem>)
    requires NewestFirst(sorted)
    ensures |r| == |sorted| + 1
    ensures forall y :: y in r <==> y == x || y in sorted
    ensures NewestFirst(r)
  {
    if sorted == [] || x.timestamp >= sorted[0].timestamp then
      HeadIsNewest(sorted);
      PrependNewest(x, sorted);
      [x] + sorted
    else
      var rest := Insert(x, sorted[1..]);
      HeadIsNewest(sorted);
      assert forall y :: y in sorted[1..] ==> y in sorted;
      PrependNewest(sorted[0], rest);
      assert sorted == [sorted[0]] + sorted[1..];
      [sorted[0]] + rest
  }

  /** Inserting adds `x` and loses nothing. */
  lemma {:induction false} InsertPermutes(x: MediaItem, sorted: seq<MediaItem>)
    requires NewestFirst(sorted)
    ensures multiset(Insert(x, sorted)) == multiset(sorted) + multiset{x}
    decreases |sorted|
  {
    if !(sorted == [] || x.timestamp >= sorted[0].timestamp) {
      InsertPermutes(x, sorted[1..]);
      assert sorted == [sorted[0]] + sorted[1..];
    }
  }

  /** `.sort((a, b) => b.timestamp - a.timestamp)`: a stable sort, newest first. */
  function SortNewestFirst(xs: seq<MediaItem>): (r: seq<MediaItem>)
    ensures |r| == |xs|
    ensures forall y :: y in r <==> y in xs
    ensures NewestFirst(r)
  {
    if xs == [] then []
    else
      assert xs == [xs[0]] + xs[1..];
      Insert(xs[0], SortNewestFirst(xs[1..]))
  }

  /** The sort is a permutation of its input. */
  lemma {:induction false} SortPermutes(xs: seq<MediaItem>)
    ensures multiset(SortNewestFirst(xs)) == multiset(xs)
    decreases |xs|
  {
    if xs != [] {
      SortPermutes(xs[1..]);
      InsertPermutes(xs[0], SortNewestFirst(xs[1..]));
      assert xs == [xs[0]] + xs[1..];
    }
  }

  /** `.slice(0, 12)` */
  function TakePosts<T>(xs: seq<T>): (r: seq<T>)
    ensures |r| == if |xs| < MaxPosts then |xs| else MaxPosts
    ensures r <= xs
  {
    if |xs| <= MaxPosts then xs else xs[..MaxPosts]
  }

  /** `post.media_url || post.thumbnail_url` */
  function Src(item: MediaItem): (src: Option<string>)
    ensures item.mediaUrl.Some? && item.mediaUrl.value != "" ==> src == item.mediaUrl
    ensures !(item.mediaUrl.Some? && item.mediaUrl.value != "") ==> src == item.thumbnailUrl
  {
    if item.mediaUrl.Some? && item.mediaUrl.value != "" then item.mediaUrl else item.thumbnailUrl
  }

  /** The `.map` step: one post from one item. */
  function ToPost(item: MediaItem): (post: Post)
    ensures post.id == item.id && post.permalink == item.permalink && post.timestamp == item.timestamp
    ensures post.src == Src(item)
    ensures var caption := if item.caption.Some? then item.caption.value else "";
      post.title == Title(caption) && post.category == Category(caption)
  {
    var caption := if item.caption.Some? then item.caption.value else "";
    Post(item.id, Src(item), Title(caption), Category(caption), item.permalink, item.timestamp)
  }

  /** The items the live pipeline keeps, before conversion: filter, sort newest first, keep twelve. */
  function KeptItems(items: seq<MediaItem>): seq<MediaItem> {
    TakePosts(SortNewestFirst(FilterImages(items)))
  }

  /** The live pipeline: the kept items, each converted. */
  function LivePosts(items: seq<MediaItem>): (posts: seq<Post>)
    ensures |posts| == |KeptItems(items)|
    ensures forall i :: 0 <= i < |posts| ==> posts[i] == ToPost(KeptItems(items)[i])
  {
    var kept := KeptItems(items);
    seq(|kept|, i requires 0 <= i < |kept| => ToPost(kept[i]))
  }

  /** The kept items are at most twelve image-like items of the feed, newest first. */
  lemma KeptItemsShape(items: seq<MediaItem>)
    ensures var kept := KeptItems(items);
      var images := FilterImages(items);
      && |kept| == (if |images| < MaxPosts then |images| else MaxPosts)
      && (forall x :: x in kept ==> x in items && IsImageLike(x))
      && NewestFirst(kept)
  {
    var images := FilterImages(items);
    var sorted := SortNewestFirst(images);
    var kept := KeptItems(items);
    assert kept == TakePosts(sorted);
    forall i, j | 0 <= i < j < |kept| ensures kept[i].timestamp >= kept[j].timestamp {
      assert kept[i] == sorted[i] && kept[j] == sorted[j];
    }
    forall x | x in kept ensures x in items && IsImageLike(x) {
      var i :| 0 <= i < |kept| && kept[i] == x;
      assert sorted[i] == x && x in sorted;
      assert x in images;
    }
  }

  /** The live feed holds at most twelve posts and no more than there are image-like items; each is
      converted from an image-like item of the feed, and they are newest first. */
  lemma LivePostsShape(items: seq<MediaItem>)
    ensures var posts := LivePosts(items);
      var images := FilterImages(items);
      && |posts| == (if |images| < MaxPosts then |images| else MaxPosts)
      && (forall i :: 0 <= i < |posts| ==>
        var x := KeptItems(items)[i]; x in items && IsImageLike(x) && posts[i] == ToPost(x))
      && (forall i, j :: 0 <= i < j < |posts| ==> posts[i].timestamp >= posts[j].timestamp)
  {
    var kept := KeptItems(items);
    var posts := LivePosts(items);
    KeptItemsShape(items);
    assert forall i :: 0 <= i < |kept| ==> kept[i] in kept;
  }

  /** An image-like item of the feed that is not among the kept ones is no newer than any of them. */
  lemma DroppedAreOlder(items: seq<MediaItem>, x: MediaItem)
    requires x in items && IsImageLike(x) && x !in KeptItems(items)
    ensures forall y :: y in KeptItems(items) ==> y.timestamp >= x.timestamp
  {
    var sorted := SortNewestFirst(FilterImages(items));
    var kept := KeptItems(items);
    var k :| 0 <= k < |sorted| && sorted[k] == x;
    forall y | y in kept ensures y.timestamp >= x.timestamp {
      var j :| 0 <= j < |kept| && kept[j] == y;
      assert kept[j] == sorted[j];
    }
  }

  /** Only the newest items are kept: an image-like item of the feed that is not among the kept ones
      is no newer than any post listed. */
  lemma NewestKept(items: seq<MediaItem>)
    ensures var posts := LivePosts(items);
      forall x :: x in items && IsImageLike(x) && x !in KeptItems(items) ==>
        forall i :: 0 <= i < |posts| ==> posts[i].timestamp >= x.timestamp
  {
    var kept := KeptItems(items);
    forall x | x in items && IsImageLike(x) && x !in kept
      ensures forall i :: 0 <= i < |kept| ==> kept[i].timestamp >= x.timestamp
    {
      DroppedAreOlder(items, x);
      assert forall i :: 0 <= i < |kept| ==> kept[i] in kept;
    }
  }

  // The handler

  function StaticFeed(message: string, now: int): Feed {
    Feed(StaticPosts(now), Static, Some(message), now, None)
  }

  /** `accessToken` is truthy: present and not empty. */
  predicate HasToken(token: Option<string>) {
    token.Some? && token.value != ""
  }

  /** The live answer, when the API replied OK with a non-empty `data` list. */
  predicate LiveAnswer(upstream: Upstream<FeedBody>) {
    Succeeded(upstream) && upstream.body.Parsed? && upstream.body.data.Some? && upstream.body.data.value != []
  }

  /** The handler, given the configured token, the outcome of the API call and the current time. */
  function Get(token: Option<string>, upstream: Upstream<FeedBody>, now: int): (h: Handled)
    ensures h.requestUrl.None? <==> !HasToken(token)
    ensures h.requestUrl.Some? ==> h.requestUrl.value == GraphUrlPrefix + token.value + GraphUrlSuffix
    ensures h.feed.lastUpdated == now
    ensures h.feed.source == InstagramApi <==> HasToken(token) && LiveAnswer(upstream)
    ensures h.feed.source == InstagramApi ==>
      && h.feed.posts == LivePosts(upstream.body.data.value)
      && h.feed.message.None? && h.feed.totalPosts == Some(|h.feed.posts|)
    ensures h.feed.source == Static ==>
      && h.feed.posts == StaticPosts(now) && h.feed.message.Some? && h.feed.totalPosts.None?
  {
    if !HasToken(token) then Handled(None, StaticFeed(NoTokenMessage, now))
    else
      var url := Some(GraphUrlPrefix + token.value + GraphUrlSuffix);
      match upstream
      case Thrown => Handled(url, StaticFeed(ThrownMessage, now))
      case Reply(status, body) =>
        if !IsOk(status) then Handled(url, StaticFeed(ApiErrorMessage, now))
        else match body
          case Malformed => Handled(url, StaticFeed(ThrownMessage, now))
          case Parsed(data) =>
            if data.None? || data.value == [] then Handled(url, StaticFeed(NoPostsMessage, now))
            else
              var posts := LivePosts(data.value);
              Handled(url, Feed(posts, InstagramApi, None, now, Some(|posts|)))
  }

  /** Which message a static answer carries: no token, a non-OK status (400 and 401 included, which
      only add a log line), a thrown error or unreadable body, or an empty feed. */
  lemma StaticMessages(token: Option<string>, upstream: Upstream<FeedBody>, now: int)
    ensures var feed := Get(token, upstream, now).feed;
      && (!HasToken(token) ==> feed.message == Some(NoTokenMessage))
      && (HasToken(token) && upstream.Reply? && !IsOk(upstream.status) ==> feed.message == Some(ApiErrorMessage))
      && (HasToken(token) && (upstream.Thrown? || (Succeeded(upstream) && upstream.body.Malformed?)) ==>
        feed.message == Some(ThrownMessage))
      && (HasToken(token) && Succeeded(upstream) && upstream.body.Parsed? && !LiveAnswer(upstream) ==>
        feed.message == Some(NoPostsMessage))
  {
  }

  /** A feed with items but none of them an image is not a fallback: the emptiness check comes
      before the filter, so the route answers from the API with no posts at all. */
  lemma OnlyVideosGiveEmptyLiveFeed(token: Option<string>, items: seq<MediaItem>, status: int, now: int)
    requires HasToken(token) && IsOk(status) && items != []
    requires forall x :: x in items ==> !IsImageLike(x)
    ensures var feed := Get(token, Reply(status, Parsed(Some(items))), now).feed;
      feed.source == InstagramApi && feed.posts == [] && feed.totalPosts == Some(0)
  {
  }
}
