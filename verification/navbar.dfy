/**
 * The navigation chrome: on every scroll event it recomputes the progress
 * bar, whether the burger button is shown, and which section is active; the
 * burger button, the Escape key and the navigation links open and close the
 * slide-in menu by playing or reversing two paused timelines (the panel and
 * the burger icon).
 */
module Navbar {
  import opened Optional

  /** The section ids, in document order. */
  const SectionIds: seq<string> := ["home", "services", "about", "projects", "contact"]

  /** Scrolling stays "near the top" while the offset is below this many pixels. */
  const TopZone: real := 10.0

  /** The bounding box of a section, in viewport coordinates. */
  datatype Rect = Rect(top: real, bottom: real)

  /** The box spans the vertical midpoint of the viewport; both ends inclusive. */
  predicate Straddles(r: Rect, viewportHeight: real) {
    r.top <= viewportHeight / 2.0 && r.bottom >= viewportHeight / 2.0
  }

  /** Section `k` exists in the document and straddles the midpoint. */
  predicate Hit(boxes: seq<Option<Rect>>, k: int, viewportHeight: real)
    requires 0 <= k < |boxes|
  {
    boxes[k].Some? && Straddles(boxes[k].value, viewportHeight)
  }

  /** The last straddling section, found by searching from the end. */
  function LastHit(boxes: seq<Option<Rect>>, viewportHeight: real): (r: Option<nat>)
    ensures r.Some? ==>
      && r.value < |boxes| && Hit(boxes, r.value, viewportHeight)
      && forall j :: r.value < j < |boxes| ==> !Hit(boxes, j, viewportHeight)
    ensures r.None? ==> forall j :: 0 <= j < |boxes| ==> !Hit(boxes, j, viewportHeight)
    decreases |boxes|
  {
    if |boxes| == 0 then None
    else if Hit(boxes, |boxes| - 1, viewportHeight) then Some(|boxes| - 1)
    else
      var r := LastHit(boxes[..|boxes| - 1], viewportHeight);
      assert forall j :: 0 <= j < |boxes| - 1 ==>
        (Hit(boxes, j, viewportHeight) <==> Hit(boxes[..|boxes| - 1], j, viewportHeight));
      r
  }

  /** The section id the midpoint rule selects; `boxes[k]` is the box of `SectionIds[k]`, if mounted. */
  function ActiveSection(boxes: seq<Option<Rect>>, viewportHeight: real): (id: string)
    requires |boxes| == |SectionIds|
    ensures id in SectionIds
    ensures (forall k :: 0 <= k < |boxes| ==> !Hit(boxes, k, viewportHeight)) ==> id == "home"
    ensures forall k :: 0 <= k < |boxes| && Hit(boxes, k, viewportHeight) ==>
      (forall j :: k < j < |boxes| ==> !Hit(boxes, j, viewportHeight)) ==> id == SectionIds[k]
  {
    match LastHit(boxes, viewportHeight)
    case None => "home"
    case Some(k) => SectionIds[k]
  }

  /**
   * `handleScroll`'s forward `forEach` over the section ids: every straddling,
   * mounted section overwrites the running choice, which starts at "home".
   */
  method ScanActiveSection(boxes: seq<Option<Rect>>, viewportHeight: real) returns (current: string)
    requires |boxes| == |SectionIds|
    ensures current == ActiveSection(boxes, viewportHeight)
  {
    current := "home";
    var index := 0;
    while index < |boxes|
      invariant 0 <= index <= |boxes|
      invariant current == match LastHit(boxes[..index], viewportHeight)
        case None => "home"
        case Some(k) => SectionIds[k]
    {
      assert boxes[..index + 1][..index] == boxes[..index];
      if boxes[index].Some? {
        var rect := boxes[index].value;
        if rect.top <= viewportHeight / 2.0 && rect.bottom >= viewportHeight / 2.0 {
          current := SectionIds[index];
        }
      }
      index := index + 1;
    }
    assert boxes[..index] == boxes;
  }

  // ---------------------------------------------------------------------
  // Scroll progress.

  /** A JavaScript number: finite, or NaN / an infinity after a division by zero. */
  datatype Progress = Finite(percent: real) | NonFinite

  /** `(scrollY / (scrollHeight - innerHeight)) * 100`, with no guard against a zero denominator. */
  function ScrollProgress(scrollY: real, scrollHeight: real, innerHeight: real): (r: Progress)
    ensures r.Finite? <==> scrollHeight != innerHeight
    ensures 0.0 <= scrollY <= scrollHeight - innerHeight && r.Finite? ==> 0.0 <= r.percent <= 100.0
    ensures scrollY == scrollHeight - innerHeight && r.Finite? ==> r.percent == 100.0
    ensures r.Finite? ==> r.percent * (scrollHeight - innerHeight) == 100.0 * scrollY
  {
    var range := scrollHeight - innerHeight;
    if range == 0.0 then NonFinite else Finite(scrollY / range * 100.0)
  }

  /** Further down the page never shows less progress. */
  lemma ProgressMonotone(y1: real, y2: real, scrollHeight: real, innerHeight: real)
    requires scrollHeight > innerHeight
    requires y1 <= y2
    ensures ScrollProgress(y1, scrollHeight, innerHeight).percent <= ScrollProgress(y2, scrollHeight, innerHeight).percent
  {
    var range := scrollHeight - innerHeight;
    assert y1 / range <= y2 / range;
  }

  // ---------------------------------------------------------------------
  // Menu timelines and component state.

  /** What was last asked of a paused timeline: nothing yet, `play()` or `reverse()`. */
  datatype Direction = NotStarted | Playing | Reversing

  datatype Nav = Nav(
    isOpen: bool,
    showBurger: bool,
    activeSection: string,
    progress: Progress,
    lastScrollY: real,
    panel: Direction,
    icon: Direction)

  /** The panel is showing exactly when the component believes the menu is open. */
  predicate InSync(n: Nav) {
    n.panel == n.icon && (n.panel == Playing <==> n.isOpen)
  }

  /** State at mount; the last scroll offset starts at the current `scrollY`. */
  function Init(scrollY: real): (n: Nav)
    ensures InSync(n)
  {
    Nav(false, true, "home", Finite(0.0), scrollY, NotStarted, NotStarted)
  }

  /** The burger stays visible unless the page moved down past the top zone. */
  predicate BurgerVisible(scrollY: real, lastScrollY: real) {
    scrollY <= lastScrollY || scrollY < TopZone
  }

  /** `handleScroll`. */
  function OnScroll(n: Nav, scrollY: real, scrollHeight: real, innerHeight: real,
                    boxes: seq<Option<Rect>>): (r: Nav)
    requires |boxes| == |SectionIds|
    ensures r.lastScrollY == scrollY
    ensures r.showBurger <==> BurgerVisible(scrollY, n.lastScrollY)
    ensures r.activeSection in SectionIds
    ensures r.activeSection == ActiveSection(boxes, innerHeight)
    ensures r.progress == ScrollProgress(scrollY, scrollHeight, innerHeight)
    ensures r.isOpen == n.isOpen && r.panel == n.panel && r.icon == n.icon
  {
    n.(showBurger := BurgerVisible(scrollY, n.lastScrollY),
       progress := ScrollProgress(scrollY, scrollHeight, innerHeight),
       activeSection := ActiveSection(boxes, innerHeight),
       lastScrollY := scrollY)
  }

  /** Scrolling down below the top zone hides the burger; anything else shows it. */
  lemma BurgerFollowsDirection(n: Nav, y: real, scrollHeight: real, innerHeight: real,
                               boxes: seq<Option<Rect>>)
    requires |boxes| == |SectionIds|
    ensures y > n.lastScrollY && y >= TopZone ==> !OnScroll(n, y, scrollHeight, innerHeight, boxes).showBurger
    ensures y <= n.lastScrollY ==> OnScroll(n, y, scrollHeight, innerHeight, boxes).showBurger
  {
  }

  /** `toggleMenu`: reverse both timelines when open, play them when closed, and flip `isOpen`. */
  function ToggleMenu(n: Nav): (r: Nav)
    ensures r.isOpen == !n.isOpen
    ensures InSync(r)
    ensures n.isOpen ==> r.panel == Reversing && r.icon == Reversing
    ensures !n.isOpen ==> r.panel == Playing && r.icon == Playing
    ensures r.showBurger == n.showBurger && r.activeSection == n.activeSection
    ensures r.progress == n.progress && r.lastScrollY == n.lastScrollY
  {
    if n.isOpen then n.(panel := Reversing, icon := Reversing, isOpen := false)
    else n.(panel := Playing, icon := Playing, isOpen := true)
  }

  /** Toggling twice restores the open flag and the timeline directions of an in-sync state. */
  lemma ToggleTwice(n: Nav)
    requires InSync(n) && n.panel != NotStarted
    ensures ToggleMenu(ToggleMenu(n)) == n
  {
  }

  /** The keydown handler: Escape closes an open menu; nothing else happens. */
  function KeyDown(n: Nav, key: string): (r: Nav)
    ensures !r.isOpen || r == n
    ensures key != "Escape" || !n.isOpen ==> r == n
    ensures key == "Escape" && n.isOpen ==> !r.isOpen && r.panel == Reversing && r.icon == Reversing
    ensures key == "Escape" && n.isOpen ==> r == ToggleMenu(n)
    ensures InSync(n) ==> InSync(r)
  {
    if key == "Escape" && n.isOpen then ToggleMenu(n) else n
  }

  /**
   * A navigation link's `onClick` as written: it clears `isOpen` but leaves
   * both timelines where they are.
   */
  function LinkClickAsWritten(n: Nav): (r: Nav)
    ensures !r.isOpen
    ensures r.panel == n.panel && r.icon == n.icon
    ensures r.showBurger == n.showBurger && r.activeSection == n.activeSection
    ensures r.progress == n.progress && r.lastScrollY == n.lastScrollY
  {
    n.(isOpen := false)
  }

  /**
   * After opening the menu and following a link, the panel is still shown
   * while the state says closed, and the next burger click plays the
   * already-finished timeline again instead of closing the panel.
   */
  lemma LinkClickLeavesPanelOpen(y: real)
    ensures LinkClickAsWritten(ToggleMenu(Init(y))).panel == Playing
    ensures !LinkClickAsWritten(ToggleMenu(Init(y))).isOpen
    ensures !InSync(LinkClickAsWritten(ToggleMenu(Init(y))))
    ensures ToggleMenu(LinkClickAsWritten(ToggleMenu(Init(y)))).panel == Playing
  {
  }

  /** A link click that closes the menu the way `toggleMenu` does. */
  function LinkClick(n: Nav): (r: Nav)
    ensures !r.isOpen
    ensures InSync(n) ==> InSync(r)
    ensures n.isOpen ==> r.panel == Reversing && r.icon == Reversing
    ensures !n.isOpen ==> r == n
    ensures r.showBurger == n.showBurger && r.activeSection == n.activeSection
    ensures r.progress == n.progress && r.lastScrollY == n.lastScrollY
  {
    if n.isOpen then ToggleMenu(n) else n
  }

  datatype Event =
    | Scroll(scrollY: real, scrollHeight: real, innerHeight: real, boxes: seq<Option<Rect>>)
    | BurgerClick
    | Key(key: string)
    | NavLinkClick

  predicate WellFormed(e: Event) {
    e.Scroll? ==> |e.boxes| == |SectionIds|
  }

  function Step(n: Nav, e: Event): Nav
    requires WellFormed(e)
  {
    match e
    case Scroll(y, h, vh, boxes) => OnScroll(n, y, h, vh, boxes)
    case BurgerClick => ToggleMenu(n)
    case Key(k) => KeyDown(n, k)
    case NavLinkClick => LinkClick(n)
  }

  function Run(n: Nav, es: seq<Event>): Nav
    requires forall i :: 0 <= i < |es| ==> WellFormed(es[i])
    decreases |es|
  {
    if |es| == 0 then n else Run(Step(n, es[0]), es[1..])
  }

  /** With the corrected link click, the panel and the open flag never disagree, and the active id stays a section id. */
  lemma {:induction false} RunStaysInSync(n: Nav, es: seq<Event>)
    requires forall i :: 0 <= i < |es| ==> WellFormed(es[i])
    requires InSync(n) && n.activeSection in SectionIds
    ensures InSync(Run(n, es))
    ensures Run(n, es).activeSection in SectionIds
    decreases |es|
  {
    if |es| > 0 {
      RunStaysInSync(Step(n, es[0]), es[1..]);
    }
  }
}
