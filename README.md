# Chilli Flakes Studio site: route handlers and page rules in Dafny

This project models the logic of the Chilli Flakes Studio website, a Next.js site for a podcast studio.

**The three server routes:**
- `GET /api/instagram` gives the studio's latest image posts, or a fixed catalogue of twelve posts when the live feed is unavailable.
  - It filters to image-like items, sorts them newest first and keeps twelve.
  - It derives each post's category from the caption's first hashtag.
  - It derives each post's title from the caption's first line, with hashtags removed, trimmed and cut to 100 characters.
- `GET /api/youtube` scrapes the channel page. It collects the distinct video ids in order of first occurrence and every title capture, then pairs them by position into at most 25 records.
- `GET /api/youtube/playlist?id=…` scrapes a playlist page.
  - Its primary scan reads id and title together from each `playlistVideoRenderer` object and keeps the first video per id.
  - Only when that scan finds nothing does it fall back to pairing ids and titles by position.
  - It cuts the list to 50.

**The client-side rules:**
- The guest grid: its category filter, the eight-then-twelve window, the "View more" and "View all on YouTube" buttons, and the coming-soon dialog.
- The header: the active section, the header's visibility, the mobile menu, and the highlighted link.
- The statistics counter's split of a value such as `3.61K+` into a number string, a suffix and a count of decimal places.

**How the code is laid out:**
- The routes' fixed regular expressions are scanners at one position (`FixedPatterns`).
- These run under JavaScript's `exec` semantics with the `g` flag (`RegexExec`): the leftmost match at or after `lastIndex`, with the next search resuming where the previous match ended. `.*?` takes the shortest gap that crosses no line terminator.
- The `while (exec)` loops, the index `for` loop and the header's `updateActiveSection` are methods with loop invariants. Each is proved equal to a specification function.
- The pure pipelines are functions. Lemmas state what the routes promise about them.
- Components whose handlers update state (`Grid`, `Header`) are classes. Their methods state each new state.

The outside world enters as parameters:
- the outcome of `fetch` is `Upstream` (a reply with status and body, or a thrown error);
- the access token is an `Option`;
- the `id` query parameter is an `Option`;
- the current time is `now`, in milliseconds;
- the page geometry is a list of elements with id, top and height.

## Model

| member | source | states |
|---|---|---|
| RegexExec.Exec | src/app/api/youtube/route.ts:29 | `exec` returns the leftmost match at or after `lastIndex`; the pattern matches nowhere in between, and nowhere at all when the result is null |
| RegexExec.LazyThen | src/app/api/youtube/playlist/route.ts:31 | `.*?` followed by a pattern picks the shortest gap free of line terminators after which the pattern matches, or reports that none exists |
| RegexExec.AllMatches | src/app/api/youtube/route.ts:29-33 | the exec loop visits only real matches, in order and without overlap |
| RegexExec.AllMatchesStep | src/app/api/youtube/route.ts:29 | the loop takes the leftmost match first and resumes where it ended |
| RegexExec.Group | src/app/api/youtube/route.ts:30-36 | `match[1]` of each visited match, one per match, in order |
| RegexExec.AllMatchesMissesNoneBefore | src/app/api/youtube/route.ts:29 | no match starts before the first visited one, or anywhere when none is visited |
| RegexExec.AllMatchesMissesNoneBetween | src/app/api/youtube/route.ts:29 | no match starts between the end of one visited match and the start of the next |
| RegexExec.AllMatchesMissesNoneAfter | src/app/api/youtube/route.ts:29 | no match starts after the end of the last visited match |
| FixedPatterns.VideoIdAt | src/app/api/youtube/route.ts:22 | a `"videoId":"…"` match captures exactly eleven characters of `[a-zA-Z0-9_-]` |
| FixedPatterns.NonQuoteRun | src/app/api/youtube/route.ts:23 | `[^"]+` takes the whole run up to the next `"` |
| FixedPatterns.RunsTitleAt | src/app/api/youtube/route.ts:23 | a `"title":{"runs":[{"text":"…"}]` match captures a non-empty text without `"` |
| FixedPatterns.RendererFrom | src/app/api/youtube/playlist/route.ts:31 | after the renderer key, the id runs to the next `"`, then `.*?` and the title pattern follow; both captures are non-empty and free of `"` |
| FixedPatterns.MatcherAnchored | src/app/api/youtube/playlist/route.ts:31 | every fixed pattern matches only where it is tried, consumes at least one character and stays within the text |
| FixedPatterns.AllMatchesShaped | src/app/api/youtube/playlist/route.ts:31 | every match the exec loop visits has its pattern's groups, each of the right shape |
| FixedPatterns.MatcherHasGroup | src/app/api/youtube/playlist/route.ts:38-39 | `match[1]` and `match[2]` exist on every match of the renderer pattern, `match[1]` on every match of the others |
| FixedPatterns.CapturesShaped | src/app/api/youtube/route.ts:22-23 | every capture the loop collects has its pattern's shape: an 11-character id, or non-empty text without `"` |
| FirstOccurrence.FirstByKey | src/app/api/youtube/route.ts:29-33 | the `includes`/`seenIds` dedup keeps one element per key, with no key lost and none repeated, never more elements than it was given, and something whenever it was given something |
| FirstOccurrence.FirstByKeyIsFirstOccurrences | src/app/api/youtube/playlist/route.ts:37-49 | the dedup keeps exactly the elements that are first with their key, in input order |
| FirstOccurrence.FirstByKeyOfDistinct | src/app/api/youtube/playlist/route.ts:71-73 | where keys are already distinct, the dedup keeps everything |
| FirstOccurrence.FirstByKeySnoc | src/app/api/youtube/playlist/route.ts:41-48 | one more element is appended iff no kept element has its key |
| FirstOccurrence.FirstByKeyHead | src/app/api/youtube/playlist/route.ts:41-43 | the first element is always kept |
| FirstOccurrence.FirstByKeyElements | src/app/api/youtube/playlist/route.ts:41-47 | the dedup invents no element |
| FirstOccurrence.Distinct | src/app/api/youtube/route.ts:30-31 | the distinct ids hold every captured id once, and no other |
| FirstOccurrence.DistinctSnoc | src/app/api/youtube/route.ts:30-31 | a new id is appended iff it was not seen before |
| Scraper.PairByPosition | src/app/api/youtube/route.ts:40-48 | the first min(limit, n) ids, id `i` with the title at position `i`, or `Episode i+1` where that title is absent or empty; both routes pair this way |
| Scraper.TitleOr | src/app/api/youtube/route.ts:42 | the title at the index, or `Episode index+1` when absent or empty: its rule is stated by `ChannelRoute.ChannelTitles` and `PlaylistRoute.FallbackTitles` (title `i` when present and non-empty, else the episode title) |
| Scraper.EpisodeTitle | src/app/api/youtube/route.ts:42 | the default title `Episode index+1`: `Scraper.EpisodeTitleQuoteFree` (non-empty, no `"`) and `Scraper.EpisodeTitlesDiffer` (one title per position) |
| Scraper.CollectDistinctIds | src/app/api/youtube/route.ts:29-33 | the id loop yields the distinct captures of the id pattern, in order of first occurrence |
| Scraper.EpisodeTitleQuoteFree | src/app/api/youtube/route.ts:42 | the default `Episode N` title is non-empty and holds no `"` |
| Scraper.EpisodeTitlesDiffer | src/app/api/youtube/route.ts:42 | two positions never get the same default title |
| JsText.Trim | src/app/api/instagram/route.ts:97 | `trim` returns the text with only whitespace and line terminators removed before and after it, none left at either end; the result is empty iff the text is all whitespace |
| JsText.TrimParts | src/app/api/instagram/route.ts:97 | what lies between a leading and a trailing trimmable run sits in place with only trimmable characters around it, and starts and ends with a kept character when both runs stop at one |
| JsText.LeadingTrimmable | src/app/api/instagram/route.ts:97 | `trim` removes the whole leading run of whitespace and line terminators |
| JsText.TrailingTrimmable | src/app/api/instagram/route.ts:97 | `trim` removes the whole trailing run of whitespace and line terminators |
| JsText.FirstLine | src/app/api/instagram/route.ts:95 | `split("\n")[0]` is the prefix up to the first newline |
| JsText.ReplaceAll | src/app/api/youtube/playlist/route.ts:45 | a literal `replace(/…/g, rep)` introduces only characters of the text or of the replacement |
| RegexExec.ReplaceAllReplacesMatches | src/app/api/youtube/playlist/route.ts:45 | the literal replacement is the `g`-flag replace over the exec loop: the text between successive matches kept in order, each match replaced |
| RegexExec.ReplaceMatchesAt | src/app/api/youtube/playlist/route.ts:45 | where the pattern matches, the replacement is emitted and the scan resumes after the match |
| RegexExec.ReplaceMatchesSkip | src/app/api/youtube/playlist/route.ts:45 | where the pattern does not match, the character is kept and the scan moves one on |
| RegexExec.ReplaceMatchesDrop | src/app/api/instagram/route.ts:96 | replacing with the empty string drops the match and nothing else |
| JsText.ReplaceAllWithoutOccurrence | src/app/api/youtube/playlist/route.ts:45 | a pattern with a character the text lacks changes nothing |
| JsText.RemoveAllOfChar | src/components/Stats.tsx:15 | `replace(/,/g, "")` is the text with every comma dropped and every other character kept in its order |
| JsText.WithoutChar | src/components/Stats.tsx:15 | the text without the character holds no copy of it, is shorter by its count, and keeps every other character as often as before |
| JsText.PrefixBefore | src/components/Navigation.tsx:192 | the longest prefix without the given character ends at its first occurrence |
| JsText.RemoveFirst | src/components/Navigation.tsx:192 | `replace("#", "")` removes only the first `#` |
| JsText.NatToString | src/app/api/youtube/route.ts:42 | the decimal rendering of a count is digits without a leading zero and denotes that count |
| ChannelRoute.MakeVideo | src/app/api/youtube/route.ts:41-47 | each record holds its id and title, the fixed thumbnail and watch URLs built from the id, and empty description and date |
| ChannelRoute.CollectTitles | src/app/api/youtube/route.ts:35-37 | the title loop yields every title capture in document order, duplicates kept |
| ChannelRoute.Get | src/app/api/youtube/route.ts:3-54 | a failed or non-OK fetch gives status 500, no videos and `Failed to fetch videos`; otherwise status 200 with the paired videos of the page |
| ChannelRoute.PairedIds | src/app/api/youtube/route.ts:30-40 | min(25, distinct ids) videos, with pairwise distinct ids that are the distinct captures in order |
| ChannelRoute.ChannelVideoIdsFromPage | src/app/api/youtube/route.ts:22-33 | every listed id is an 11-character id captured from the page |
| ChannelRoute.ChannelVideos | src/app/api/youtube/route.ts:40-48 | the videos built from a fetched page: `ChannelRoute.PairedIds` (distinct ids, min(25, n), first-seen order), `ChannelRoute.ChannelVideoIdsFromPage` and `ChannelRoute.ChannelTitles` state its rule |
| ChannelRoute.PairedIdsComplete | src/app/api/youtube/route.ts:40 | a captured id is missing from the list only when 25 videos are already listed |
| ChannelRoute.ChannelTitles | src/app/api/youtube/route.ts:42 | video `i` gets title capture `i` when there is one, else `Episode i+1`; titles are passed on undecoded |
| ChannelRoute.ChannelTitlesQuoteFree | src/app/api/youtube/route.ts:23-42 | every title is non-empty and free of `"` |
| ChannelRoute.TitleIgnoresIds | src/app/api/youtube/route.ts:42 | pairing is positional only: equal title captures give the same title at `i` whatever the ids, so titles can be given to the wrong video |
| PlaylistRoute.DecodeQuoteFree | src/app/api/youtube/playlist/route.ts:45 | on a capture without `"`, the second replacement is a no-op; the decoded title holds no `"` and is non-empty when the capture is |
| PlaylistRoute.Decode | src/app/api/youtube/playlist/route.ts:45 | the two literal replaces in order; `PlaylistRoute.DecodeQuoteFree` states what they do to a captured title |
| PlaylistRoute.MakeVideo | src/app/api/youtube/playlist/route.ts:43-47 | a record holds its id and title and the `mqdefault` thumbnail of its id |
| PlaylistRoute.DecodeAll | src/app/api/youtube/playlist/route.ts:67 | every fallback title is decoded, one for one |
| PlaylistRoute.ScanRenderers | src/app/api/youtube/playlist/route.ts:36-49 | the primary loop yields the first decoded video per captured id, and `seenIds` holds exactly the listed ids |
| PlaylistRoute.PrimaryStep | src/app/api/youtube/playlist/route.ts:41-48 | one turn of the primary loop appends the match's video iff its id is new |
| PlaylistRoute.CollectDecodedTitles | src/app/api/youtube/playlist/route.ts:66-68 | the fallback's title loop yields every accessibility-terminated title capture, decoded, in order |
| PlaylistRoute.PairFallback | src/app/api/youtube/playlist/route.ts:71-80 | the index loop yields the positional pairs of the first 50 ids, skipping ids already in `seenIds` |
| PlaylistRoute.Get | src/app/api/youtube/playlist/route.ts:3-88 | no id or an empty id gives 400 and `Playlist ID required` without a fetch; a failed fetch gives 500 and `Failed to fetch playlist`; otherwise 200 with the page's list cut to 50 |
| PlaylistRoute.PrimaryEmptyIffNoMatch | src/app/api/youtube/playlist/route.ts:37-52 | the primary scan is empty iff the renderer pattern matched nothing, and it always keeps the first match |
| PlaylistRoute.PlaylistVideos | src/app/api/youtube/playlist/route.ts:37-81 | the primary list, or the fallback when it is empty: `PlaylistRoute.FallbackIffNoRendererMatch` and `PlaylistRoute.PlaylistVideosWellFormed` state its rule |
| PlaylistRoute.PrimaryVideos | src/app/api/youtube/playlist/route.ts:37-49 | the renderer loop with `seenIds`: `PlaylistRoute.ScanRenderers` (the loop equals it), `PlaylistRoute.PrimaryEmptyIffNoMatch` and `PlaylistRoute.PrimaryKeepsFirst` state its rule |
| PlaylistRoute.FallbackVideos | src/app/api/youtube/playlist/route.ts:71-80 | the fallback pairing loop skipping seen ids: `PlaylistRoute.PairFallback` (the loop equals it), `PlaylistRoute.FallbackSkipsNothing` and `PlaylistRoute.FallbackTitles` state its rule |
| PlaylistRoute.FallbackIffNoRendererMatch | src/app/api/youtube/playlist/route.ts:51-81 | the route uses the positional fallback iff the renderer pattern matches nowhere in the page |
| PlaylistRoute.PrimaryKeepsFirst | src/app/api/youtube/playlist/route.ts:37-49 | the primary scan lists the first match of each id, in page order, every captured id once |
| PlaylistRoute.CandidateKeys | src/app/api/youtube/playlist/route.ts:38-44 | the id of each primary candidate is its match's first capture |
| PlaylistRoute.PrimaryVideosShaped | src/app/api/youtube/playlist/route.ts:31-47 | primary ids are any non-empty text without `"`, not necessarily 11 characters; titles are decoded and free of `"` |
| PlaylistRoute.RendererMatchesShaped | src/app/api/youtube/playlist/route.ts:31 | every renderer match has two captures of its pattern's shape |
| PlaylistRoute.FallbackSkipsNothing | src/app/api/youtube/playlist/route.ts:57-80 | with distinct ids, the `seenIds` check skips nothing: the fallback lists min(50, ids) videos in order |
| PlaylistRoute.FallbackTitles | src/app/api/youtube/playlist/route.ts:66-76 | fallback video `i` gets decoded title `i` when there is one, else `Episode i+1`; decoded titles are free of `"` |
| PlaylistRoute.KeptVideosWellFormed | src/app/api/youtube/playlist/route.ts:41-47 | the dedup's result has distinct ids, each with its own `mqdefault` thumbnail |
| PlaylistRoute.PlaylistVideosWellFormed | src/app/api/youtube/playlist/route.ts:37-81 | on either path the list has distinct ids and matching thumbnails |
| PlaylistRoute.ResponseBounds | src/app/api/youtube/playlist/route.ts:83 | the reply lists at most 50 videos, with pairwise distinct ids and matching thumbnails |
| PlaylistRoute.TakeWellFormed | src/app/api/youtube/playlist/route.ts:83 | `slice(0, 50)` keeps distinct ids and matching thumbnails |
| PlaylistRoute.Take | src/app/api/youtube/playlist/route.ts:83 | `slice(0, n)` is the prefix of exactly min(n, length) elements, the whole list when it is short enough |
| Caption.FirstHashtag | src/app/api/instagram/route.ts:91 | the leftmost `#` followed by a word character, or none when there is no such `#` |
| Caption.WordRun | src/app/api/instagram/route.ts:91 | the greedy `\w+` takes the whole run of word characters |
| Caption.UpperWordChar | src/app/api/instagram/route.ts:104 | `toUpperCase` on a word character changes only a lowercase ASCII letter, to its capital |
| Caption.HashtagWord | src/app/api/instagram/route.ts:91-92 | `/#(\w+)/` captures the whole run of word characters after the leftmost hashtag, and is null iff there is no hashtag |
| Caption.Capitalize | src/app/api/instagram/route.ts:104 | the first character is the `toUpperCase` of the word's first, so never a lowercase ASCII letter, and the rest is unchanged |
| Caption.Category | src/app/api/instagram/route.ts:90-104 | the category is the hashtag word with its first character upper-cased and the rest kept, or `ChilliFlakes`; it is never empty and never starts lowercase |
| Caption.StripHashtags | src/app/api/instagram/route.ts:96 | removing hashtags never lengthens the text or adds characters |
| Caption.HashtagMatchAt | src/app/api/instagram/route.ts:91 | `/#(\w+)/` matches at a position iff a `#` and a word character start there; the match spans the `#` and the whole word |
| Caption.HashtagWordIsFirstMatch | src/app/api/instagram/route.ts:91 | `caption.match(/#(\w+)/)` is the first match the exec search finds, and the word is its group |
| Caption.WordRunOfSuffix | src/app/api/instagram/route.ts:96 | the word after a `#` is the same seen from the whole text or from the `#` on |
| Caption.StripIsReplace | src/app/api/instagram/route.ts:96 | stripping is `replace(/#\w+/g, "")` over the exec loop: every hashtag removed, the text between them kept in order |
| Caption.StripFrom | src/app/api/instagram/route.ts:96 | stripping the text from any position on is the replacement continuing from there |
| Caption.StripStepHashtag | src/app/api/instagram/route.ts:96 | at a hashtag, stripping and the replacement both drop it and go on after its word |
| Caption.StripDropsHashtag | src/app/api/instagram/route.ts:96 | stripping from a hashtag is stripping from the end of its word |
| Caption.StripLeavesNoHashtag | src/app/api/instagram/route.ts:96 | no hashtag survives `replace(/#\w+/g, "")` |
| Caption.StripWithoutHashtag | src/app/api/instagram/route.ts:96 | a text without hashtags is unchanged |
| Caption.StripIdempotent | src/app/api/instagram/route.ts:96 | removing hashtags twice is removing them once |
| Caption.Title | src/app/api/instagram/route.ts:94-98 | the title is never empty and at most 100 characters, one line without hashtags; it is the first min(100, n) characters of the cleaned first line, or `Chilli Flakes Studio` |
| InstagramRoute.StaticPosts | src/app/api/instagram/route.ts:142-243 | twelve posts, post `i` built from catalogue entry `i` |
| InstagramRoute.StaticCatalogue | src/app/api/instagram/route.ts:142-243 | ids are `post-1`…`post-12` with matching image paths; post `i` is `i` days old, so timestamps strictly decrease and ids are distinct |
| InstagramRoute.FilterImages | src/app/api/instagram/route.ts:75-77 | exactly the `IMAGE` and `CAROUSEL_ALBUM` items survive, each as often as in the feed, none invented |
| InstagramRoute.FilterImagesKeepsOrder | src/app/api/instagram/route.ts:75-77 | the filter keeps the items it keeps in their order |
| InstagramRoute.Insert | src/app/api/instagram/route.ts:78-80 | one insertion step of the newest-first sort keeps the list newest first and adds exactly one item |
| InstagramRoute.SortNewestFirst | src/app/api/instagram/route.ts:78-80 | the sort yields the same items, newest first |
| InstagramRoute.SortPermutes | src/app/api/instagram/route.ts:78-80 | the sort is a permutation of its input |
| InstagramRoute.InsertPermutes | src/app/api/instagram/route.ts:78-80 | an insertion adds its item and loses none |
| InstagramRoute.TakePosts | src/app/api/instagram/route.ts:81 | `slice(0, 12)` is a prefix of min(12, n) items |
| InstagramRoute.Src | src/app/api/instagram/route.ts:102 | `media_url` when it is non-empty, otherwise `thumbnail_url` |
| InstagramRoute.ToPost | src/app/api/instagram/route.ts:100-107 | a post keeps its item's id, permalink and timestamp, takes its image from `Src`, and its title and category are `Caption.Title` and `Caption.Category` of the caption or `""` |
| InstagramRoute.LivePosts | src/app/api/instagram/route.ts:74-108 | post `i` is the conversion of kept item `i` |
| InstagramRoute.KeptItemsShape | src/app/api/instagram/route.ts:74-81 | min(12, image-like items) kept, each an image-like item of the feed, newest first |
| InstagramRoute.KeptItems | src/app/api/instagram/route.ts:75-81 | filter, sort newest first, keep twelve: `InstagramRoute.KeptItemsShape`, `InstagramRoute.DroppedAreOlder` and `InstagramRoute.NewestKept` state its rule |
| InstagramRoute.LivePostsShape | src/app/api/instagram/route.ts:74-108 | at most 12 posts, no more than there are image-like items; each converted from one, in newest-first order |
| InstagramRoute.DroppedAreOlder | src/app/api/instagram/route.ts:78-81 | an image-like item that is not kept is no newer than any kept one |
| InstagramRoute.NewestKept | src/app/api/instagram/route.ts:78-81 | an image-like item that is not kept is no newer than any post listed |
| InstagramRoute.Get | src/app/api/instagram/route.ts:31-134 | the Graph API is called iff the token is non-empty; the live feed answers iff the reply is OK with a non-empty `data` list, and its `totalPosts` is its length; every other case gives the static catalogue |
| InstagramRoute.StaticMessages | src/app/api/instagram/route.ts:45-134 | which message each static answer carries: no token, API error (400 and 401 included), thrown or unreadable, or no posts |
| InstagramRoute.OnlyVideosGiveEmptyLiveFeed | src/app/api/instagram/route.ts:64-77 | a feed of only videos is still a live answer, with no posts and `totalPosts` 0 |
| GuestsGrid.InCategory | src/components/Guests.tsx:62 | the filter keeps exactly the guests of the category, each as often as in the list |
| GuestsGrid.InCategoryKeepsOrder | src/components/Guests.tsx:62 | the filter keeps the original order |
| GuestsGrid.CandidatesRule | src/components/Guests.tsx:60-62 | under `All` the candidates are the whole list; otherwise exactly the guests of the active category, in order |
| GuestsGrid.Candidates | src/components/Guests.tsx:60-62 | `allFilteredGuests`: `GuestsGrid.CandidatesRule` states its rule |
| GuestsGrid.Shown | src/components/Guests.tsx:64 | the shown guests are the first min(visibleCount, candidates) candidates |
| GuestsGrid.ShowYouTube | src/components/Guests.tsx:65-67 | the YouTube link shows iff "View more" does not, so exactly one of the two buttons renders |
| GuestsGrid.ButtonsReflectWindow | src/components/Guests.tsx:64-67 | "View more" shows iff some candidate is hidden and fewer than twelve are shown |
| GuestsGrid.HasMore | src/components/Guests.tsx:65 | `hasMoreGuests`: `GuestsGrid.ShowYouTube` (its complement) and `GuestsGrid.ButtonsReflectWindow` state its rule |
| GuestsGrid.Grid.constructor | src/components/Guests.tsx:26-29 | the grid starts on `All`, eight wide, not loading, dialog closed |
| GuestsGrid.Grid.SelectCategory | src/components/Guests.tsx:343 | a category button changes the category only; the window is not reset |
| GuestsGrid.Grid.ViewMoreClicked | src/components/Guests.tsx:32-33 | the enabled "View more" button starts loading and changes nothing else |
| GuestsGrid.Grid.ExpandTimerFires | src/components/Guests.tsx:34-37 | the timer sets the window to twelve and ends loading, after which the YouTube link shows |
| GuestsGrid.Grid.PlayClicked | src/components/Guests.tsx:416-436 | an upcoming guest's play button opens the coming-soon dialog; any other opens the guest's embedded video |
| GuestsGrid.Grid.CloseComingSoon | src/components/Guests.tsx:661-679 | the backdrop, the dialog and its close button close the dialog |
| Navigation.GetElementById | src/components/Navigation.tsx:31 | the first element with the id, or none when no element has it |
| Navigation.SectionFrom | src/components/Navigation.tsx:30-41 | the first section in order that is on the page and covers the position; absent sections are skipped |
| Navigation.NextActiveRule | src/components/Navigation.tsx:27-46 | the first covering section becomes active; with none, the active section is cleared below 100 and kept otherwise |
| Navigation.NextActive | src/components/Navigation.tsx:26-46 | the active section after a scroll: `Navigation.NextActiveRule` states its rule and `Navigation.Header.UpdateActiveSection` (the loop) is proved equal to it |
| Navigation.Header.UpdateActiveSection | src/components/Navigation.tsx:26-47 | the loop with early return sets the active section as the rule says and leaves the header and menu alone |
| Navigation.Header.constructor | src/components/Navigation.tsx:8-10 | the header starts hidden, the menu closed, no section active |
| Navigation.Header.OnScroll | src/components/Navigation.tsx:58-66 | past 100 the header shows; otherwise it hides and the menu closes |
| Navigation.Header.ToggleMenu | src/components/Navigation.tsx:252 | the menu button flips the menu |
| Navigation.Header.CloseMenu | src/components/Navigation.tsx:292 | the backdrop and the close button close the menu |
| Navigation.Header.MobileLinkClicked | src/components/Navigation.tsx:332-344 | a menu link closes the menu and targets the section its href names |
| Navigation.LinksLeadToSections | src/components/Navigation.tsx:68-76 | link `i` leads to section `i` once its `#` is removed |
| Navigation.SectionOfHref | src/components/Navigation.tsx:192 | `link.href.replace("#", "")`: `JsText.RemoveFirst` (only the first `#` goes) and `Navigation.LinksLeadToSections` state its rule |
| Navigation.SectionsDistinct | src/components/Navigation.tsx:27 | no two sections share a name |
| Navigation.ActiveLinks | src/components/Navigation.tsx:192-193 | an active section lights exactly one link; no active section lights none |
| Navigation.IsActive | src/components/Navigation.tsx:192-193 | `activeSection === sectionId`: `Navigation.ActiveLinks` states its rule |
| StatValue.LeadingRun | src/components/Stats.tsx:14 | the leading run of `[\d,.]` is as long as it can be |
| StatValue.MatchesIffSplit | src/components/Stats.tsx:14 | `/^([\d,.]+)(.*)$/` matches iff some split fits it; the greedy first group is the whole leading run, the largest split |
| StatValue.Matches | src/components/Stats.tsx:14 | whether the pattern matches: `StatValue.MatchesIffSplit` states its rule |
| StatValue.SplitOnDot | src/components/Stats.tsx:19 | `split(".")` gives pieces without `.`, the first being the text before the first `.` |
| StatValue.SplitOnDotJoins | src/components/Stats.tsx:19 | joining the pieces with `.` gives the text back |
| StatValue.SecondPiece | src/components/Stats.tsx:19 | with a `.` present, piece 1 is the text between the first and the second `.` |
| StatValue.DecimalPlaces | src/components/Stats.tsx:19 | 0 without a `.`, else the length of the segment between the first and second `.` |
| StatValue.ParseStat | src/components/Stats.tsx:13-21 | on a match, the run then the suffix make up the value and the number string is the run with its commas dropped and its other characters in order; otherwise `"0"`, `""` and 0; the number never holds a comma |
| StatValue.DecimalPlacesOfFraction | src/components/Stats.tsx:19 | a number `whole.frac` with a single dot has as many decimal places as `frac` has characters |
| StatValue.ParseNumberThenSuffix | src/components/Stats.tsx:13-21 | a run of `[\d,.]` followed by a suffix that does not start with one splits into that run, commas dropped, that suffix, and the run's decimal places |

## Left out

- Network I/O and framework glue are left out: `fetch` itself, request headers, `NextResponse` and its JSON encoding, the `revalidate` cache hints, `process.env` and `console` logging. The fetch outcome, the token and the query parameter are inputs.
- Body parsing is reduced to its outcomes. The error body read at `src/app/api/instagram/route.ts:46` only feeds a log line. An unreadable or malformed feed body is `Malformed`, which leads to the catch branch. A list item of the wrong JSON shape, which would make the `map` throw, is not represented.
- Dates and clocks are integers:
  - `new Date(...)`, `getTime` and `toISOString` are milliseconds;
  - `lastUpdated` and the catalogue's dates are built from a `now` parameter;
  - post timestamps stay integers rather than ISO strings.
- An unparsable timestamp, which gives `NaN` in the sort's comparator, is not modelled.
- InstagramRoute.SortNewestFirst: the model inserts stably, as JavaScript's `sort` does, but stability is not stated as a lemma. Only newest-first order and permutation are proved.
- Strings are sequences of Unicode scalar values, not UTF-16 code units. So `substring(0, 100)` on text with characters outside the Basic Multilingual Plane, and any index arithmetic on such text, can differ.
- No general regular-expression engine is modelled. Only the routes' fixed patterns are written out as dedicated scanners.
- The hashtag rule follows the code's `/#(\w+)/`. A `#` not directly followed by an ASCII word character (as in `# 1` or `#ক`) is skipped, and the category comes from the leftmost `#` that is.
- Floating point is left out. This covers the counter's `parseFloat`, easing, `toFixed` and `toLocaleString`, and the browser's possibly fractional `scrollY` (modelled as an integer).
- Timers are atomic steps:
  - "View more" is a click (`ViewMoreClicked`, loading starts) followed by the timer firing (`ExpandTimerFires`).
  - The mobile link's delayed `scrollIntoView` is returned as the section to scroll to.
- Navigation.Header.ToggleMenu: its precondition `isVisible` is not in the handler. It reflects that the menu button is rendered only inside the visible header.
- GuestsGrid.Grid.PlayClicked: only the shown cards have play buttons, hence its precondition. The Fancybox player itself is out of scope.
- GuestsGrid.Grid.ViewMoreClicked: its precondition is that the button is rendered and not disabled.
- The header's `isMobile` resize tracking, the desktop links' smooth scrolling and the animations have no effect on the modelled state.
- PlaylistRoute.PairFallback takes the primary scan's `seenIds` as a parameter and requires it to be empty. `PlaylistRoute.Get` proves that it is whenever the fallback runs.
- The upstream `data` list is taken as given. The `&limit=12` request parameter is sent but not assumed to be honoured.
