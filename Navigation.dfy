/** The site header: which section is active while the page scrolls, when the header shows, the
    mobile menu that opens from it, and which link is highlighted. The page is seen only through the
    position and height of the elements that carry an id. */
module Navigation {
  import opened Web
  import opened JsText

  /** An element of the page with an id, its `offsetTop` and its `offsetHeight`. */
  datatype Element = Element(id: string, top: int, height: int)

  /** The sections in the order they are tried. */
  const SectionOrder: seq<string> :=
    ["stats", "guests", "playlist-episodes", "reach", "about", "local-gallery", "contact"]

  /** The header's height, added to the scroll position when looking for the active section. */
  const HeaderOffset := 150
  /** Below this scroll position no section is active and the header hides. */
  const TopZone := 100

  /** `document.getElementById(id)`: the first element of the page with that id. */
  function GetElementById(page: seq<Element>, id: string): (r: Option<Element>)
    ensures r.Some? ==> r.value in page && r.value.id == id
    ensures r.Some? ==>
      exists k :: 0 <= k < |page| && page[k] == r.value && forall j :: 0 <= j < k ==> page[j].id != id
    ensures r.None? <==> forall e :: e in page ==> e.id != id
  {
    if page == [] then None
    else if page[0].id == id then Some(page[0])
    else
      var r := GetElementById(page[1..], id);
      assert page == [page[0]] + page[1..];
      if r.Some? then
        var k :| 0 <= k < |page[1..]| && page[1..][k] == r.value &&
          forall j :: 0 <= j < k ==> page[1..][j].id != id;
        assert page[k + 1] == r.value;
        r
      else r
  }

  /** The element covers `position`: `offsetTop <= position < offsetTop + offsetHeight`. */
  predicate Covers(e: Element, position: int) {
    e.top <= position < e.top + e.height
  }

  /** Section `SectionOrder[k]` is on the page and covers `position`. */
  predicate SectionCovers(page: seq<Element>, k: nat, position: int)
    requires k < |SectionOrder|
  {
    var e := GetElementById(page, SectionOrder[k]);
    e.Some? && Covers(e.value, position)
  }

  /** The first section from `SectionOrder[k]` on that is on the page and covers `position`. */
  function SectionFrom(page: seq<Element>, position: int, k: nat): (r: Option<nat>)
    requires k <= |SectionOrder|
    ensures r.Some? ==> k <= r.value < |SectionOrder| && SectionCovers(page, r.value, position)
    ensures r.Some? ==> forall j :: k <= j < r.value ==> !SectionCovers(page, j, position)
    ensures r.None? ==> forall j :: k <= j < |SectionOrder| ==> !SectionCovers(page, j, position)
    decreases |SectionOrder| - k
  {
    if k == |SectionOrder| then None
    else if SectionCovers(page, k, position) then Some(k)
    else SectionFrom(page, position, k + 1)
  }

  /** What the active section becomes after a scroll to `scrollY`: the first covering section, or
      none near the top of the page, or what it was. */
  function NextActive(page: seq<Element>, scrollY: int, current: string): string {
    match SectionFrom(page, scrollY + HeaderOffset, 0)
    case Some(k) => SectionOrder[k]
    case None => if scrollY < TopZone then "" else current
  }

  /** The active section after a scroll is the first section in the fixed order that is on the
      page and covers the scroll position plus the header's height; with none such, it is cleared
      near the top of the page and kept elsewhere. */
  lemma NextActiveRule(page: seq<Element>, scrollY: int, current: string)
    ensures var position := scrollY + HeaderOffset;
      var next := NextActive(page, scrollY, current);
      && ((exists k :: 0 <= k < |SectionOrder| && SectionCovers(page, k, position)) ==>
        exists k :: 0 <= k < |SectionOrder| && next == SectionOrder[k] && SectionCovers(page, k, position) &&
          forall j :: 0 <= j < k ==> !SectionCovers(page, j, position))
      && ((forall k :: 0 <= k < |SectionOrder| ==> !SectionCovers(page, k, position)) ==>
        next == if scrollY < TopZone then "" else current)
  {
    var position := scrollY + HeaderOffset;
    match SectionFrom(page, position, 0)
    case Some(k) =>
      assert SectionCovers(page, k, position);
    case None =>
  }

  /** `link.href.replace("#", "")`: the href without its first `#`. */
  function SectionOfHref(href: string): string {
    RemoveFirst(href, '#')
  }

  /** The header links, in their order. */
  const NavHrefs: seq<string> :=
    ["#stats", "#guests", "#playlist-episodes", "#reach", "#about", "#local-gallery", "#contact"]

  /** `isActive` of a link. */
  predicate IsActive(activeSection: string, href: string) {
    activeSection == SectionOfHref(href)
  }

  /** Link `i` leads to section `i`. */
  lemma LinksLeadToSections()
    ensures |NavHrefs| == |SectionOrder|
    ensures forall i :: 0 <= i < |NavHrefs| ==> SectionOfHref(NavHrefs[i]) == SectionOrder[i]
  {
    forall i | 0 <= i < |NavHrefs| ensures SectionOfHref(NavHrefs[i]) == SectionOrder[i] {
      var href := NavHrefs[i];
      assert href == "#" + SectionOrder[i];
      assert PrefixBefore(href, '#') == [];
    }
  }

  /** No two sections share a name: their first letters already differ. */
  lemma SectionsDistinct()
    ensures forall i, j :: 0 <= i < j < |SectionOrder| ==> SectionOrder[i] != SectionOrder[j]
  {
    assert forall i, j :: 0 <= i < j < |SectionOrder| ==> SectionOrder[i][0] != SectionOrder[j][0];
  }

  /** A section name other than the empty one lights exactly the link that leads to it, and the
      empty one lights none. */
  lemma ActiveLinks(activeSection: string)
    requires activeSection == "" || activeSection in SectionOrder
    ensures activeSection == "" ==> forall i :: 0 <= i < |NavHrefs| ==> !IsActive(activeSection, NavHrefs[i])
    ensures activeSection != "" ==> exists i :: 0 <= i < |NavHrefs| && IsActive(activeSection, NavHrefs[i])
    ensures forall i, j :: 0 <= i < j < |NavHrefs| ==>
      !(IsActive(activeSection, NavHrefs[i]) && IsActive(activeSection, NavHrefs[j]))
  {
    LinksLeadToSections();
    SectionsDistinct();
    if activeSection != "" {
      var i :| 0 <= i < |SectionOrder| && SectionOrder[i] == activeSection;
      assert IsActive(activeSection, NavHrefs[i]);
    }
  }

  /** The header's state. The menu button sits in the header, so the menu opens only while the
      header shows. */
  class Header {
    var isVisible: bool
    var isMobileMenuOpen: bool
    var activeSection: string

    /** An open menu means a visible header, and the active section is a section or none. */
    ghost predicate Valid()
      reads this
    {
      && (isMobileMenuOpen ==> isVisible)
      && (activeSection == "" || activeSection in SectionOrder)
    }

    /** The first render: hidden, closed, nothing active. */
    constructor()
      ensures !isVisible && !isMobileMenuOpen && activeSection == ""
      ensures Valid()
    {
      isVisible := false;
      isMobileMenuOpen := false;
      activeSection := "";
    }

    /** `updateActiveSection`: try the sections in order and stop at the first that covers the
        scroll position plus the header's height. */
    method UpdateActiveSection(page: seq<Element>, scrollY: int)
      requires Valid()
      modifies this
      ensures Valid()
      ensures activeSection == NextActive(page, scrollY, old(activeSection))
      ensures isVisible == old(isVisible) && isMobileMenuOpen == old(isMobileMenuOpen)
    {
      var scrollPosition := scrollY + HeaderOffset;
      for i := 0 to |SectionOrder|
        invariant SectionFrom(page, scrollPosition, 0) == SectionFrom(page, scrollPosition, i)
        invariant activeSection == old(activeSection)
      {
        var element := GetElementById(page, SectionOrder[i]);
        if element.Some? {
          var offsetTop := element.value.top;
          var offsetHeight := element.value.height;
          if scrollPosition >= offsetTop && scrollPosition < offsetTop + offsetHeight {
            activeSection := SectionOrder[i];
            return;
          }
        }
      }
      if scrollY < TopZone {
        activeSection := "";
      }
    }

    /** The scroll handler of the header: past 100 it shows; otherwise it hides and takes the
        menu with it. */
    method OnScroll(latest: int)
      requires Valid()
      modifies this
      ensures Valid()
      ensures isVisible <==> latest > TopZone
      ensures latest > TopZone ==> isMobileMenuOpen == old(isMobileMenuOpen)
      ensures latest <= TopZone ==> !isMobileMenuOpen
      ensures activeSection == old(activeSection)
    {
      if latest > TopZone {
        isVisible := true;
      } else {
        isVisible := false;
        isMobileMenuOpen := false;
      }
    }

    /** The menu button of the visible header. */
    method ToggleMenu()
      requires Valid() && isVisible
      modifies this
      ensures Valid()
      ensures isMobileMenuOpen == !old(isMobileMenuOpen)
      ensures isVisible == old(isVisible) && activeSection == old(activeSection)
    {
      isMobileMenuOpen := !isMobileMenuOpen;
    }

    /** The menu's backdrop or its close button. */
    method CloseMenu()
      requires Valid()
      modifies this
      ensures Valid()
      ensures !isMobileMenuOpen
      ensures isVisible == old(isVisible) && activeSection == old(activeSection)
    {
      isMobileMenuOpen := false;
    }

    /** A link of the open menu: the menu closes and the page is told to scroll to the section. */
    method MobileLinkClicked(href: string) returns (scrollTarget: string)
      requires Valid()
      modifies this
      ensures Valid()
      ensures !isMobileMenuOpen && scrollTarget == SectionOfHref(href)
      ensures isVisible == old(isVisible) && activeSection == old(activeSection)
    {
      isMobileMenuOpen := false;
      scrollTarget := SectionOfHref(href);
    }
  }
}
