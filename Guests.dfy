/** The guest grid: a category filter over the guest list, a window showing the first eight guests
    and, after "View more", the first twelve, a "View more" button that gives way to a link to the
    channel, and the coming-soon dialog of guests whose episode is not out yet. */
module GuestsGrid {
  import opened Web
  import opened Sequences

  /** A guest card; `upcoming` is false where the content leaves it out. */
  datatype Guest = Guest(
    id: string,
    name: string,
    role: string,
    category: string,
    image: string,
    videoUrl: string,
    videoId: string,
    upcoming: bool)

  const AllCategory := "All"
  const InitialCount: nat := 8
  const ExpandedCount: nat := 12

  /** `guestsData.filter(guest => guest.category === category)` */
  function InCategory(guests: seq<Guest>, category: string): (cs: seq<Guest>)
    ensures |cs| <= |guests|
    ensures forall g :: g in cs <==> g in guests && g.category == category
    ensures forall g :: multiset(cs)[g] == if g.category == category then multiset(guests)[g] else 0
  {
    if guests == [] then []
    else
      var rest := InCategory(guests[1..], category);
      assert guests == [guests[0]] + guests[1..];
      if guests[0].category == category then [guests[0]] + rest else rest
  }

  /** The filter keeps the guests it keeps in their order. */
  lemma {:induction false} InCategoryKeepsOrder(guests: seq<Guest>, category: string)
    ensures SubsequenceOf(InCategory(guests, category), guests)
    decreases |guests|
  {
    if guests != [] {
      var cs := InCategory(guests, category);
      InCategoryKeepsOrder(guests[1..], category);
      if guests[0].category != category && cs != [] {
        assert cs[0] in cs;
      }
    }
  }

  /** `allFilteredGuests`: everyone under "All", otherwise the guests of the active category. */
  function Candidates(guests: seq<Guest>, active: string): seq<Guest> {
    if active == AllCategory then guests else InCategory(guests, active)
  }

  /** Under "All" the candidates are the whole list; otherwise they are exactly the guests of the
      active category, each as often as in the list, in the list's order. */
  lemma CandidatesRule(guests: seq<Guest>, active: string)
    ensures active == AllCategory ==> Candidates(guests, active) == guests
    ensures var cs := Candidates(guests, active);
      && SubsequenceOf(cs, guests)
      && (active != AllCategory ==>
        && (forall g :: g in cs <==> g in guests && g.category == active)
        && (forall g :: g in guests && g.category == active ==> multiset(cs)[g] == multiset(guests)[g]))
  {
    if active == AllCategory {
      SubsequenceOfSelf(guests);
    } else {
      InCategoryKeepsOrder(guests, active);
    }
  }

  /** `allFilteredGuests.slice(0, visibleCount)` */
  function Shown(cands: seq<Guest>, visibleCount: nat): (shown: seq<Guest>)
    ensures shown <= cands
    ensures |shown| == if visibleCount < |cands| then visibleCount else |cands|
  {
    if visibleCount < |cands| then cands[..visibleCount] else cands
  }

  /** `hasMoreGuests`: the "View more" button is shown. */
  predicate HasMore(visibleCount: nat, cands: seq<Guest>) {
    visibleCount < ExpandedCount && visibleCount < |cands|
  }

  /** `showYouTubeButton`: the link to the channel is shown. */
  function ShowYouTube(visibleCount: nat, cands: seq<Guest>): (show: bool)
    ensures show <==> !HasMore(visibleCount, cands)
  {
    visibleCount >= ExpandedCount || visibleCount >= |cands|
  }

  /** "View more" is offered exactly while some candidate is hidden and fewer than twelve are shown;
      otherwise every candidate is shown, or at least twelve are. */
  lemma ButtonsReflectWindow(visibleCount: nat, cands: seq<Guest>)
    ensures var shown := Shown(cands, visibleCount);
      && (HasMore(visibleCount, cands) <==> |shown| < |cands| && |shown| < ExpandedCount)
      && (ShowYouTube(visibleCount, cands) ==> shown == cands || |shown| >= ExpandedCount)
  {
  }

  /** The embedded player a released guest's play button opens. */
  function EmbedUrl(g: Guest): string {
    "https://www.youtube.com/embed/" + g.videoId + "?autoplay=1&rel=0"
  }

  /** The component's state; a pending "View more" timer is the same thing as `isLoading`. */
  class Grid {
    const guests: seq<Guest>
    var activeCategory: string
    var showComingSoon: bool
    var visibleCount: nat
    var isLoading: bool

    /** The window is eight or twelve wide, and loading only happens from the first. */
    ghost predicate Valid()
      reads this
    {
      && (visibleCount == InitialCount || visibleCount == ExpandedCount)
      && (isLoading ==> visibleCount == InitialCount)
    }

    function CurrentCandidates(): seq<Guest>
      reads this
    {
      Candidates(guests, activeCategory)
    }

    function CurrentShown(): seq<Guest>
      reads this
    {
      Shown(CurrentCandidates(), visibleCount)
    }

    /** The first render. */
    constructor(guests: seq<Guest>)
      ensures this.guests == guests && activeCategory == AllCategory && !showComingSoon
      ensures visibleCount == InitialCount && !isLoading
      ensures Valid()
    {
      this.guests := guests;
      activeCategory := AllCategory;
      showComingSoon := false;
      visibleCount := InitialCount;
      isLoading := false;
    }

    /** A category button: the window is not reset. */
    method SelectCategory(category: string)
      requires Valid()
      modifies this
      ensures Valid()
      ensures activeCategory == category
      ensures visibleCount == old(visibleCount) && isLoading == old(isLoading)
      ensures showComingSoon == old(showComingSoon)
    {
      activeCategory := category;
    }

    /** `handleViewMore`, first half: the button, offered and not disabled, starts loading. */
    method ViewMoreClicked()
      requires Valid() && HasMore(visibleCount, CurrentCandidates()) && !isLoading
      modifies this
      ensures Valid()
      ensures isLoading
      ensures activeCategory == old(activeCategory) && visibleCount == old(visibleCount)
      ensures showComingSoon == old(showComingSoon)
    {
      isLoading := true;
    }

    /** `handleViewMore`, second half: the timer fires, twelve are allowed and loading ends, so the
        link to the channel replaces the button whatever the category. */
    method ExpandTimerFires()
      requires Valid() && isLoading
      modifies this
      ensures Valid()
      ensures visibleCount == ExpandedCount && !isLoading
      ensures ShowYouTube(visibleCount, CurrentCandidates())
      ensures activeCategory == old(activeCategory) && showComingSoon == old(showComingSoon)
    {
      visibleCount := ExpandedCount;
      isLoading := false;
    }

    /** A play button of a shown card: an upcoming guest opens the coming-soon dialog, any other
        opens the guest's video in the player and leaves the state as it is. */
    method PlayClicked(g: Guest) returns (player: Option<string>)
      requires Valid() && g in CurrentShown()
      modifies this
      ensures Valid()
      ensures g.upcoming ==> showComingSoon && player.None?
      ensures !g.upcoming ==> showComingSoon == old(showComingSoon) && player == Some(EmbedUrl(g))
      ensures activeCategory == old(activeCategory) && visibleCount == old(visibleCount)
      ensures isLoading == old(isLoading)
    {
      if g.upcoming {
        showComingSoon := true;
        player := None;
      } else {
        player := Some(EmbedUrl(g));
      }
    }

    /** The backdrop, the dialog around the panel, or its close button. */
    method CloseComingSoon()
      requires Valid()
      modifies this
      ensures Valid()
      ensures !showComingSoon
      ensures activeCategory == old(activeCategory) && visibleCount == old(visibleCount)
      ensures isLoading == old(isLoading)
    {
      showComingSoon := false;
    }
  }
}
