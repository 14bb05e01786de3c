/**
 * The navigation bar's scroll handler: whether the page has scrolled past 50
 * units, and which section is active. The active section is the first of a
 * fixed list whose bounding box straddles the anchor line 100 units below the
 * viewport top; when none does, the previous one is kept.
 */
module Navigation {
  import opened Wrappers

  /** A section element's bounding rectangle, relative to the viewport top. */
  datatype Rect = Rect(top: real, bottom: real)

  /** What a scroll event lets the handler observe: the scroll offset and the
      rectangles of the section elements present in the document, by id. */
  datatype ScrollEvent = ScrollEvent(scrollY: real, elements: map<string, Rect>)

  datatype NavState = NavState(isScrolled: bool, activeSection: string)

  const SectionIds: seq<string> := ["hero", "about", "skills", "projects", "contact"]

  const AnchorLine: real := 100.0

  const ScrolledThreshold: real := 50.0

  const Initial: NavState := NavState(false, "hero")

  /** The section's element exists and its box straddles the anchor line. */
  predicate Matches(elements: map<string, Rect>, id: string) {
    id in elements && elements[id].top <= AnchorLine && elements[id].bottom >= AnchorLine
  }

  /** `Array.prototype.find`: the position of the first matching id, if any. */
  function FindSection(ids: seq<string>, elements: map<string, Rect>): (r: Option<nat>)
    ensures r.Some? ==> r.value < |ids| && Matches(elements, ids[r.value])
    ensures r.Some? ==> forall j :: 0 <= j < r.value ==> !Matches(elements, ids[j])
    ensures r.None? ==> forall j :: 0 <= j < |ids| ==> !Matches(elements, ids[j])
    decreases |ids|
  {
    if |ids| == 0 then None
    else if Matches(elements, ids[0]) then Some(0)
    else match FindSection(ids[1..], elements)
      case None => None
      case Some(k) => Some(k + 1)
  }

  /** JavaScript truthiness of `find`'s result: `undefined` and "" are falsy. */
  predicate Truthy(current: Option<string>) {
    current.Some? && current.value != ""
  }

  function HandleScroll(s: NavState, ev: ScrollEvent): (r: NavState)
    ensures r.isScrolled <==> ev.scrollY > ScrolledThreshold
    ensures (forall j :: 0 <= j < |SectionIds| ==> !Matches(ev.elements, SectionIds[j]))
            ==> r.activeSection == s.activeSection
    ensures forall k :: (0 <= k < |SectionIds| && Matches(ev.elements, SectionIds[k])
                         && forall j :: 0 <= j < k ==> !Matches(ev.elements, SectionIds[j]))
                        ==> r.activeSection == SectionIds[k]
    ensures r.activeSection in SectionIds || r.activeSection == s.activeSection
  {
    var current := match FindSection(SectionIds, ev.elements)
      case None => None
      case Some(k) => Some(SectionIds[k]);
    NavState(ev.scrollY > ScrolledThreshold,
             if Truthy(current) then current.value else s.activeSection)
  }

  /** A sequence of scroll events, handled in order. */
  function ScrollRun(s: NavState, evs: seq<ScrollEvent>): NavState
    decreases |evs|
  {
    if |evs| == 0 then s else ScrollRun(HandleScroll(s, evs[0]), evs[1..])
  }

  /** A section with no element in the document never matches. */
  lemma MissingNeverMatches(elements: map<string, Rect>, id: string)
    requires id !in elements
    ensures !Matches(elements, id)
  {
  }

  /** With exactly one section on the anchor line, it becomes active, whatever came before. */
  lemma UniqueMatchWins(s: NavState, ev: ScrollEvent, k: nat)
    requires k < |SectionIds| && Matches(ev.elements, SectionIds[k])
    requires forall j :: 0 <= j < |SectionIds| && j != k ==> !Matches(ev.elements, SectionIds[j])
    ensures HandleScroll(s, ev).activeSection == SectionIds[k]
  {
  }

  /** The active section is always one of the five ids. */
  lemma {:induction false} ActiveStaysListed(s: NavState, evs: seq<ScrollEvent>)
    requires s.activeSection in SectionIds
    ensures ScrollRun(s, evs).activeSection in SectionIds
    decreases |evs|
  {
    if |evs| > 0 {
      ActiveStaysListed(HandleScroll(s, evs[0]), evs[1..]);
    }
  }

  /** After a non-empty run, `isScrolled` reflects the last event only. */
  lemma {:induction false} ScrolledReflectsLastEvent(s: NavState, evs: seq<ScrollEvent>)
    requires |evs| > 0
    ensures ScrollRun(s, evs).isScrolled <==> evs[|evs| - 1].scrollY > ScrolledThreshold
    decreases |evs|
  {
    if |evs| > 1 {
      ScrolledReflectsLastEvent(HandleScroll(s, evs[0]), evs[1..]);
    }
  }

  /**
   * On the home page the projects section is not mounted, so "projects" is
   * never looked up successfully and never becomes active.
   */
  lemma {:induction false} ProjectsNeverActive(s: NavState, evs: seq<ScrollEvent>)
    requires s.activeSection != "projects"
    requires forall i :: 0 <= i < |evs| ==> "projects" !in evs[i].elements
    ensures ScrollRun(s, evs).activeSection != "projects"
    decreases |evs|
  {
    if |evs| > 0 {
      assert "projects" !in evs[0].elements;
      ProjectsNeverActive(HandleScroll(s, evs[0]), evs[1..]);
    }
  }

  /** From the initial state on the home page: always a listed section, never "projects". */
  lemma {:induction false} HomePageRun(evs: seq<ScrollEvent>)
    requires forall i :: 0 <= i < |evs| ==> "projects" !in evs[i].elements
    ensures ScrollRun(Initial, evs).activeSection in SectionIds
    ensures ScrollRun(Initial, evs).activeSection != "projects"
  {
    ActiveStaysListed(Initial, evs);
    ProjectsNeverActive(Initial, evs);
  }
}
