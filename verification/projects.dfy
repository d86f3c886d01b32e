/**
 * The project showcase: the technology index built from the project list,
 * the filter that the technology buttons drive, and the hover state that
 * selects which project the floating preview shows.
 */
module Projects {
  import opened Optional
  import Seqs

  datatype Framework = Framework(id: int, name: string)

  datatype Project = Project(id: int, name: string, frameworks: seq<Framework>)

  /** The pseudo-technology that stands for "no filter". */
  const All: string := "all"

  /** Below this window width the hover handlers do nothing. */
  const DesktopMinWidth: int := 768

  /** Project `p` lists a framework called exactly `tech` (case-sensitive). */
  predicate Uses(p: Project, tech: string) {
    exists f | f in p.frameworks :: f.name == tech
  }

  // ---------------------------------------------------------------------
  // The technology index.

  function NamesOf(fs: seq<Framework>): (r: seq<string>)
    ensures |r| == |fs|
    ensures forall i :: 0 <= i < |fs| ==> r[i] == fs[i].name
  {
    seq(|fs|, i requires 0 <= i < |fs| => fs[i].name)
  }

  /** `projects.flatMap(p => p.frameworks.map(f => f.name))`. */
  function FrameworkNames(ps: seq<Project>): (r: seq<string>)
    ensures forall t :: t in r <==> exists p | p in ps :: Uses(p, t)
    decreases |ps|
  {
    if |ps| == 0 then []
    else
      var head := NamesOf(ps[0].frameworks);
      var rest := FrameworkNames(ps[1..]);
      assert forall t :: t in head <==> Uses(ps[0], t) by {
        forall t ensures t in head <==> Uses(ps[0], t) {
          if t in head {
            var i :| 0 <= i < |head| && head[i] == t;
            assert ps[0].frameworks[i] in ps[0].frameworks;
          }
          if Uses(ps[0], t) {
            var f :| f in ps[0].frameworks && f.name == t;
            var i :| 0 <= i < |ps[0].frameworks| && ps[0].frameworks[i] == f;
            assert head[i] == t;
          }
        }
      }
      assert ps == [ps[0]] + ps[1..];
      head + rest
  }

  /** Position of the first occurrence of `x` in `s`. */
  function FirstIndex(s: seq<string>, x: string): (k: nat)
    requires x in s
    ensures k < |s| && s[k] == x
    ensures x !in s[..k]
    decreases |s|
  {
    if s[0] == x then 0
    else
      assert s == [s[0]] + s[1..];
      1 + FirstIndex(s[1..], x)
  }

  /** An element that already occurs in a prefix has its first occurrence there. */
  lemma FirstIndexInPrefix(s: seq<string>, k: nat, x: string)
    requires k <= |s| && x in s[..k]
    ensures FirstIndex(s, x) == FirstIndex(s[..k], x)
  {
  }

  predicate NoDuplicates(s: seq<string>) {
    forall i, j :: 0 <= i < j < |s| ==> s[i] != s[j]
  }

  /**
   * `[...new Set(s)]`: each value once, at the position of its first
   * occurrence (a `Set` iterates in insertion order).
   */
  function Distinct(s: seq<string>): (r: seq<string>)
    ensures forall x :: x in r <==> x in s
    ensures NoDuplicates(r)
    ensures forall i, j :: 0 <= i < j < |r| ==> FirstIndex(s, r[i]) < FirstIndex(s, r[j])
    decreases |s|
  {
    if |s| == 0 then []
    else
      var init := s[..|s| - 1];
      var last := s[|s| - 1];
      var d := Distinct(init);
      assert s == init + [last];
      forall x | x in d
        ensures FirstIndex(s, x) == FirstIndex(init, x) < |s| - 1
      {
        FirstIndexInPrefix(s, |s| - 1, x);
      }
      if last in d then d
      else
        assert FirstIndex(s, last) == |s| - 1;
        d + [last]
  }

  /** The filter buttons' labels: `["all", ...new Set(frameworkNames)]`. */
  function Technologies(ps: seq<Project>): (r: seq<string>)
    ensures 1 <= |r| && r[0] == All
    ensures forall p, f :: p in ps && f in p.frameworks ==> f.name in r[1..]
    ensures forall t :: t in r[1..] ==> exists p | p in ps :: Uses(p, t)
    ensures NoDuplicates(r[1..])
    ensures forall i, j :: 1 <= i < j < |r| ==>
      && r[i] in FrameworkNames(ps) && r[j] in FrameworkNames(ps)
      && FirstIndex(FrameworkNames(ps), r[i]) < FirstIndex(FrameworkNames(ps), r[j])
  {
    var names := FrameworkNames(ps);
    var d := Distinct(names);
    assert ([All] + d)[1..] == d;
    forall p, f | p in ps && f in p.frameworks ensures f.name in d {
      assert Uses(p, f.name);
    }
    [All] + d
  }

  // ---------------------------------------------------------------------
  // The filter.

  /** `handleFilterChange`'s choice of the visible projects. */
  function FilterProjects(ps: seq<Project>, tech: string): (r: seq<Project>)
    ensures tech == All ==> r == ps
    ensures tech != All ==> forall p :: p in r <==> p in ps && Uses(p, tech)
    ensures tech != All ==>
      forall p :: multiset(r)[p] == if Uses(p, tech) then multiset(ps)[p] else 0
    ensures Seqs.IsSubsequence(r, ps)
  {
    if tech == All then
      Seqs.FilterKeepsAll(ps, _ => true);
      Seqs.Filter(ps, _ => true)
    else Seqs.Filter(ps, p => Uses(p, tech))
  }

  /** Every button after "all" selects at least one project. */
  lemma ListedTechnologyMatches(ps: seq<Project>, t: string)
    requires t in Technologies(ps)[1..]
    ensures |FilterProjects(ps, t)| > 0
  {
  }

  // ---------------------------------------------------------------------
  // Component state and its event handlers.

  datatype View = View(currentIndex: Option<nat>, selectedFilter: string, filtered: seq<Project>)

  datatype Event =
    | FilterChange(tech: string)
    | MouseEnter(index: nat, windowWidth: int)
    | MouseLeave(index: nat, windowWidth: int)

  function Init(ps: seq<Project>): View {
    View(None, All, ps)
  }

  /** One handler call. */
  function Step(ps: seq<Project>, v: View, e: Event): (r: View)
    ensures e.FilterChange? ==> r.selectedFilter == e.tech && r.currentIndex == v.currentIndex
    ensures e.FilterChange? ==> r.filtered == FilterProjects(ps, e.tech)
    ensures !e.FilterChange? ==> r.selectedFilter == v.selectedFilter && r.filtered == v.filtered
    ensures !e.FilterChange? && e.windowWidth < DesktopMinWidth ==> r == v
    ensures e.MouseEnter? && e.windowWidth >= DesktopMinWidth ==> r.currentIndex == Some(e.index)
    ensures e.MouseLeave? && e.windowWidth >= DesktopMinWidth ==> r.currentIndex == None
  {
    match e
    case FilterChange(tech) => v.(selectedFilter := tech, filtered := FilterProjects(ps, tech))
    case MouseEnter(index, width) => if width < DesktopMinWidth then v else v.(currentIndex := Some(index))
    case MouseLeave(_, width) => if width < DesktopMinWidth then v else v.(currentIndex := None)
  }

  function Run(ps: seq<Project>, v: View, es: seq<Event>): View
    decreases |es|
  {
    if |es| == 0 then v else Run(ps, Step(ps, v, es[0]), es[1..])
  }

  /** The technology of the most recent filter change, or `default` if there was none. */
  function LastFilter(es: seq<Event>, default: string): string
    decreases |es|
  {
    if |es| == 0 then default
    else if es[|es| - 1].FilterChange? then es[|es| - 1].tech
    else LastFilter(es[..|es| - 1], default)
  }

  /** The visible list always is the filter of the selected technology. */
  predicate Consistent(ps: seq<Project>, v: View) {
    v.filtered == FilterProjects(ps, v.selectedFilter)
  }

  lemma {:induction false} RunKeepsConsistent(ps: seq<Project>, v: View, es: seq<Event>)
    requires Consistent(ps, v)
    ensures Consistent(ps, Run(ps, v, es))
    decreases |es|
  {
    if |es| > 0 {
      RunKeepsConsistent(ps, Step(ps, v, es[0]), es[1..]);
    }
  }

  lemma {:induction false} RunAppend(ps: seq<Project>, v: View, es: seq<Event>, e: Event)
    ensures Run(ps, v, es + [e]) == Step(ps, Run(ps, v, es), e)
    decreases |es|
  {
    if |es| == 0 {
      assert es + [e] == [e];
    } else {
      assert (es + [e])[1..] == es[1..] + [e];
      RunAppend(ps, Step(ps, v, es[0]), es[1..], e);
    }
  }

  /** `selectedFilter` is the technology last passed to the filter handler. */
  lemma {:induction false} SelectedIsLastFilter(ps: seq<Project>, es: seq<Event>)
    ensures Run(ps, Init(ps), es).selectedFilter == LastFilter(es, All)
    decreases |es|
  {
    if |es| > 0 {
      var init := es[..|es| - 1];
      assert es == init + [es[|es| - 1]];
      RunAppend(ps, Init(ps), init, es[|es| - 1]);
      SelectedIsLastFilter(ps, init);
    }
  }

  /** The hovered project the floating preview shows, if `currentIndex` names one. */
  function Preview(v: View): (r: Option<Project>)
    ensures r.Some? <==> v.currentIndex.Some? && v.currentIndex.value < |v.filtered|
    ensures r.Some? ==> r.value == v.filtered[v.currentIndex.value] && r.value in v.filtered
  {
    match v.currentIndex
    case None => None
    case Some(i) => if i < |v.filtered| then Some(v.filtered[i]) else None
  }

  /**
   * The hover index survives a filter change, so a stale index may point past
   * the shortened list; the preview guard then hides the preview.
   */
  lemma StaleHoverHidesPreview(ps: seq<Project>, v: View, tech: string)
    requires v.currentIndex.Some?
    requires |FilterProjects(ps, tech)| <= v.currentIndex.value
    ensures Preview(Step(ps, v, FilterChange(tech))).None?
  {
  }
}
