/**
 * The about section's scroll-trigger discipline. Each run of its effect (on
 * mount and on every tab change) first kills the live triggers bound to the
 * section's own elements, then creates the section-scale trigger, the image
 * trigger if the image is mounted, one trigger per skill bar on the skills
 * tab and one timeline trigger on the timeline tab. Each run returns a
 * cleanup that kills exactly the triggers that run created; with a
 * dependency list and the hook's default settings, those cleanups run only
 * at unmount.
 */
module About {
  import opened Optional
  import Seqs

  /** A DOM element: an identity plus its `id` attribute ("" when it has none). */
  datatype Element = Element(handle: nat, domId: string)

  /** What a trigger animates; `Foreign` marks triggers other components created. */
  datatype Role = SectionScale | ImageReveal | SkillBarFill(levelPercent: nat) | TimelineReveal | Foreign

  /** A live scroll trigger and the element it is bound to (`trigger.trigger`). */
  datatype Trigger = Trigger(id: nat, element: Option<Element>, role: Role)

  datatype Tab = SkillsTab | TimelineTab

  const SectionId: string := "about"

  /** The level percents of the section's six skills, in order. */
  const SkillLevels: seq<nat> := [95, 90, 85, 80, 85, 75]

  /** What the refs hold when the effect runs. */
  datatype Refs = Refs(
    section: Element,                      // what "#about" resolves to
    image: Option<Element>,                // imgRef.current
    skillBars: seq<Option<Element>>,       // skillBarsRef.current
    timelineItems: seq<Option<Element>>)   // timelineRef.current

  /** DOM ids are unique: only the section element carries the id "about". */
  predicate WellFormed(refs: Refs) {
    && refs.section.domId == SectionId
    && (refs.image.Some? ==> refs.image.value.domId != SectionId)
    && (forall i :: 0 <= i < |refs.skillBars| && refs.skillBars[i].Some? ==> refs.skillBars[i].value.domId != SectionId)
    && (forall i :: 0 <= i < |refs.timelineItems| && refs.timelineItems[i].Some? ==>
          refs.timelineItems[i].value.domId != SectionId)
  }

  /** The teardown test: a trigger bound to the section, the image, a skill bar or a timeline item. */
  predicate Owned(t: Trigger, refs: Refs) {
    && t.element.Some?
    && (|| t.element.value.domId == SectionId
        || t.element == refs.image
        || t.element in refs.skillBars
        || t.element in refs.timelineItems)
  }

  /** The kill loop at the start of each run: exactly the owned triggers go. */
  function Teardown(live: seq<Trigger>, refs: Refs): (kept: seq<Trigger>)
    ensures forall t :: t in kept <==> t in live && !Owned(t, refs)
    ensures Seqs.IsSubsequence(kept, live)
  {
    Seqs.Filter(live, t => !Owned(t, refs))
  }

  // ---------------------------------------------------------------------
  // What one run creates.

  /** A trigger to be created: its element and what it animates. */
  datatype Spec = Spec(element: Option<Element>, role: Role)

  /** `sp` is the fill trigger of some index with a mounted bar and a skill entry. */
  predicate FillFor(bars: seq<Option<Element>>, sp: Spec) {
    exists k | 0 <= k < |bars| && k < |SkillLevels| ::
      bars[k].Some? && sp == Spec(bars[k], SkillBarFill(SkillLevels[k]))
  }

  /** Index `k` of the bar loop makes a trigger: a bar is mounted there and a skill exists at it. */
  predicate Eligible(bars: seq<Option<Element>>, k: int) {
    0 <= k < |bars| && bars[k].Some? && k < |SkillLevels|
  }

  /** The indices the bar loop creates a trigger for, in the loop's order. */
  function BarIndices(bars: seq<Option<Element>>): (idx: seq<nat>)
    ensures |idx| <= |bars|
    ensures forall j :: 0 <= j < |idx| ==> Eligible(bars, idx[j])
    ensures forall i, j :: 0 <= i < j < |idx| ==> idx[i] < idx[j]
    ensures forall k :: Eligible(bars, k) ==> k in idx
    decreases |bars|
  {
    if |bars| == 0 then []
    else
      var k := |bars| - 1;
      var init := bars[..k];
      var front := BarIndices(init);
      assert forall i :: 0 <= i < k ==> init[i] == bars[i];
      assert forall i :: Eligible(init, i) <==> Eligible(bars, i) && i < k;
      if Eligible(bars, k) then front + [k] else front
  }

  /** The skill-bar loop: one fill trigger per eligible index, in index order, at that skill's level. */
  function BarSpecs(bars: seq<Option<Element>>): (specs: seq<Spec>)
    ensures |specs| == |BarIndices(bars)| <= |bars|
    ensures forall j :: 0 <= j < |specs| ==>
      specs[j] == Spec(bars[BarIndices(bars)[j]], SkillBarFill(SkillLevels[BarIndices(bars)[j]]))
    ensures forall k :: Eligible(bars, k) ==> Spec(bars[k], SkillBarFill(SkillLevels[k])) in specs
    ensures forall sp :: sp in specs ==> FillFor(bars, sp)
  {
    var idx := BarIndices(bars);
    var specs := seq(|idx|, j requires 0 <= j < |idx| => Spec(bars[idx[j]], SkillBarFill(SkillLevels[idx[j]])));
    forall k | Eligible(bars, k) ensures Spec(bars[k], SkillBarFill(SkillLevels[k])) in specs {
      var j :| 0 <= j < |idx| && idx[j] == k;
      assert specs[j] == Spec(bars[k], SkillBarFill(SkillLevels[k]));
    }
    forall sp | sp in specs ensures FillFor(bars, sp) {
      var j :| 0 <= j < |specs| && specs[j] == sp;
      assert Eligible(bars, idx[j]);
    }
    specs
  }

  /** A fill trigger of a well-formed refs record is never bound to the section element. */
  lemma FillNotOnSection(refs: Refs, sp: Spec)
    requires WellFormed(refs) && FillFor(refs.skillBars, sp)
    ensures sp.element.Some? && sp.element.value.domId != SectionId
  {
  }

  /** A skill-bar fill spec. */
  predicate IsFill(sp: Spec) {
    sp.role.SkillBarFill?
  }

  /** The timeline tab with at least one item: the run makes a timeline trigger. */
  predicate HasTimeline(refs: Refs, tab: Tab) {
    tab == TimelineTab && |refs.timelineItems| > 0
  }

  /** The fill specs of a run: the bar loop's on the skills tab, none on the timeline tab. */
  function FillsOf(refs: Refs, tab: Tab): (fills: seq<Spec>)
    ensures forall i :: 0 <= i < |fills| ==> IsFill(fills[i])
    ensures forall sp :: sp in fills ==> tab == SkillsTab && FillFor(refs.skillBars, sp)
    ensures WellFormed(refs) ==> forall sp :: sp in fills ==> !(sp.element.Some? && sp.element.value.domId == SectionId)
    ensures tab == SkillsTab ==> forall k :: 0 <= k < |refs.skillBars| && refs.skillBars[k].Some? && k < |SkillLevels| ==>
      Spec(refs.skillBars[k], SkillBarFill(SkillLevels[k])) in fills
  {
    if tab == SkillsTab then
      var fills := BarSpecs(refs.skillBars);
      forall sp | sp in fills && WellFormed(refs) ensures !(sp.element.Some? && sp.element.value.domId == SectionId) {
        FillNotOnSection(refs, sp);
      }
      fills
    else []
  }

  /** The image spec, when the image is mounted. */
  function ImagePart(refs: Refs): (p: seq<Spec>)
    ensures |p| == if refs.image.Some? then 1 else 0
    ensures refs.image.Some? ==> p[0] == Spec(refs.image, ImageReveal)
  {
    if refs.image.Some? then [Spec(refs.image, ImageReveal)] else []
  }

  /** The timeline spec, when the timeline tab has items. */
  function TimelinePart(refs: Refs, tab: Tab): (p: seq<Spec>)
    ensures |p| == if HasTimeline(refs, tab) then 1 else 0
    ensures HasTimeline(refs, tab) ==> p[0] == Spec(refs.timelineItems[0], TimelineReveal)
  {
    if HasTimeline(refs, tab) then [Spec(refs.timelineItems[0], TimelineReveal)] else []
  }

  /** Where the three parts of a concatenation sit. */
  lemma ThreeParts<T>(a: seq<T>, b: seq<T>, c: seq<T>)
    ensures |a + b + c| == |a| + |b| + |c|
    ensures (a + b + c)[..|a|] == a
    ensures (a + b + c)[|a|..|a| + |b|] == b
    ensures (a + b + c)[|a| + |b|..] == c
  {
  }

  /**
   * The triggers a run creates after the section-scale one: the image's
   * first (once, when mounted), then the fills in bar order, then the
   * timeline trigger last (once, when there is one).
   */
  function Extras(refs: Refs, tab: Tab): (specs: seq<Spec>)
    ensures |specs| == (if refs.image.Some? then 1 else 0) + |FillsOf(refs, tab)| + (if HasTimeline(refs, tab) then 1 else 0)
    ensures refs.image.Some? ==> specs[0] == Spec(refs.image, ImageReveal)
    ensures HasTimeline(refs, tab) ==> specs[|specs| - 1] == Spec(refs.timelineItems[0], TimelineReveal)
    ensures var first := if refs.image.Some? then 1 else 0;
      specs[first..first + |FillsOf(refs, tab)|] == FillsOf(refs, tab)
    ensures Spec(refs.image, ImageReveal) in specs <==> refs.image.Some?
    ensures tab == SkillsTab ==> forall k :: 0 <= k < |refs.skillBars| && refs.skillBars[k].Some? && k < |SkillLevels| ==>
      Spec(refs.skillBars[k], SkillBarFill(SkillLevels[k])) in specs
    ensures HasTimeline(refs, tab) ==> Spec(refs.timelineItems[0], TimelineReveal) in specs
    ensures forall sp :: sp in specs ==>
      && sp.role != SectionScale && sp.role != Foreign
      && (sp.role.SkillBarFill? ==> tab == SkillsTab && FillFor(refs.skillBars, sp))
      && (sp.role == TimelineReveal ==> HasTimeline(refs, tab) && sp.element == refs.timelineItems[0])
      && (sp.role == ImageReveal ==> sp.element == refs.image && refs.image.Some?)
      && (WellFormed(refs) ==> !(sp.element.Some? && sp.element.value.domId == SectionId))
  {
    var image, fills, timeline := ImagePart(refs), FillsOf(refs, tab), TimelinePart(refs, tab);
    ThreeParts(image, fills, timeline);
    ExtrasMembers(refs, tab);
    image + fills + timeline
  }

  /**
   * Counted: the image trigger occurs once when the image is mounted and
   * never otherwise, the timeline trigger once when there is one, and the
   * fills, filtered out, are exactly the bar loop's in its order.
   */
  lemma {:induction false} ExtrasCounts(refs: Refs, tab: Tab)
    ensures multiset(Extras(refs, tab))[Spec(refs.image, ImageReveal)] == if refs.image.Some? then 1 else 0
    ensures HasTimeline(refs, tab) ==> multiset(Extras(refs, tab))[Spec(refs.timelineItems[0], TimelineReveal)] == 1
    ensures Seqs.Filter(Extras(refs, tab), IsFill) == FillsOf(refs, tab)
  {
    var image, fills, timeline := ImagePart(refs), FillsOf(refs, tab), TimelinePart(refs, tab);
    assert Extras(refs, tab) == image + fills + timeline;
    ExtrasOnce(refs, tab);
    ExtrasFills(image, fills, timeline);
  }

  /** The image spec and the timeline spec each occur once, when present. */
  lemma ExtrasOnce(refs: Refs, tab: Tab)
    ensures var specs := ImagePart(refs) + FillsOf(refs, tab) + TimelinePart(refs, tab);
      && multiset(specs)[Spec(refs.image, ImageReveal)] == (if refs.image.Some? then 1 else 0)
      && (HasTimeline(refs, tab) ==> multiset(specs)[Spec(refs.timelineItems[0], TimelineReveal)] == 1)
  {
    var image, fills, timeline := ImagePart(refs), FillsOf(refs, tab), TimelinePart(refs, tab);
    var im := Spec(refs.image, ImageReveal);
    assert im !in fills && im !in timeline;
    assert multiset(image + fills + timeline) == multiset(image) + multiset(fills) + multiset(timeline);
    if HasTimeline(refs, tab) {
      var tl := Spec(refs.timelineItems[0], TimelineReveal);
      assert tl !in fills && tl !in image;
    }
  }

  /** What each spec of the three parts is. */
  lemma ExtrasMembers(refs: Refs, tab: Tab)
    ensures var specs := ImagePart(refs) + FillsOf(refs, tab) + TimelinePart(refs, tab);
      forall sp :: sp in specs ==>
      && sp.role != SectionScale && sp.role != Foreign
      && (sp.role.SkillBarFill? ==> tab == SkillsTab && FillFor(refs.skillBars, sp))
      && (sp.role == TimelineReveal ==> HasTimeline(refs, tab) && sp.element == refs.timelineItems[0])
      && (sp.role == ImageReveal ==> sp.element == refs.image && refs.image.Some?)
      && (WellFormed(refs) ==> !(sp.element.Some? && sp.element.value.domId == SectionId))
  {
    var image, fills, timeline := ImagePart(refs), FillsOf(refs, tab), TimelinePart(refs, tab);
    forall sp: Spec | sp in image + fills + timeline
      ensures && sp.role != SectionScale && sp.role != Foreign
        && (sp.role.SkillBarFill? ==> tab == SkillsTab && FillFor(refs.skillBars, sp))
        && (sp.role == TimelineReveal ==> HasTimeline(refs, tab) && sp.element == refs.timelineItems[0])
        && (sp.role == ImageReveal ==> sp.element == refs.image && refs.image.Some?)
        && (WellFormed(refs) ==> !(sp.element.Some? && sp.element.value.domId == SectionId))
    {
      if sp in fills {
        assert IsFill(sp);
      }
    }
  }

  /** Filtering the fills out of image, bars and timeline gives back the bars. */
  lemma {:induction false} ExtrasFills(image: seq<Spec>, bars: seq<Spec>, timeline: seq<Spec>)
    requires forall i :: 0 <= i < |image| ==> image[i].role == ImageReveal
    requires forall i :: 0 <= i < |bars| ==> bars[i].role.SkillBarFill?
    requires forall i :: 0 <= i < |timeline| ==> timeline[i].role == TimelineReveal
    ensures Seqs.Filter(image + bars + timeline, IsFill) == bars
  {
    Seqs.FilterNone(image, IsFill);
    Seqs.FilterKeepsAll(bars, IsFill);
    Seqs.FilterNone(timeline, IsFill);
    Seqs.FilterConcat(image, bars, IsFill);
    assert Seqs.Filter(image + bars, IsFill) == bars;
    Seqs.FilterConcat(image + bars, timeline, IsFill);
  }

  /**
   * The triggers one run creates, in creation order: the section-scale
   * trigger first, the image trigger next when the image is mounted, the
   * timeline trigger last when there is one, and the fills, in bar order,
   * in between.
   */
  function Plan(refs: Refs, tab: Tab): (specs: seq<Spec>)
    ensures 1 <= |specs| && specs[0] == Spec(Some(refs.section), SectionScale)
    ensures |specs| == 1 + (if refs.image.Some? then 1 else 0) + |FillsOf(refs, tab)| + (if HasTimeline(refs, tab) then 1 else 0)
    ensures refs.image.Some? ==> specs[1] == Spec(refs.image, ImageReveal)
    ensures HasTimeline(refs, tab) ==> specs[|specs| - 1] == Spec(refs.timelineItems[0], TimelineReveal)
    ensures var first := if refs.image.Some? then 2 else 1;
      specs[first..first + |FillsOf(refs, tab)|] == FillsOf(refs, tab)
    ensures specs[1..] == Extras(refs, tab)
  {
    var extras := Extras(refs, tab);
    var first := if refs.image.Some? then 1 else 0;
    ConsSlice(Spec(Some(refs.section), SectionScale), extras, first, first + |FillsOf(refs, tab)|);
    [Spec(Some(refs.section), SectionScale)] + extras
  }

  /** Putting one element in front shifts every position and slice by one. */
  lemma ConsSlice<T>(x: T, e: seq<T>, i: nat, j: nat)
    requires i <= j <= |e|
    ensures |[x] + e| == 1 + |e| && ([x] + e)[0] == x && ([x] + e)[1..] == e
    ensures forall k :: 0 <= k < |e| ==> ([x] + e)[k + 1] == e[k]
    ensures ([x] + e)[i + 1..j + 1] == e[i..j]
  {
  }

  /** ScrollTrigger's registry: the live triggers and the next id it hands out. */
  datatype Registry = Registry(live: seq<Trigger>, nextId: nat)

  /** Every live trigger has an id below the next one handed out. */
  predicate Fresh(reg: Registry) {
    forall t :: t in reg.live ==> t.id < reg.nextId
  }

  /** `ScrollTrigger.create` for each spec, with consecutive ids from `nextId`. */
  function Create(specs: seq<Spec>, nextId: nat): (made: seq<Trigger>)
    ensures |made| == |specs|
    ensures forall j :: 0 <= j < |made| ==>
      made[j] == Trigger(nextId + j, specs[j].element, specs[j].role)
  {
    seq(|specs|, j requires 0 <= j < |specs| => Trigger(nextId + j, specs[j].element, specs[j].role))
  }

  /** One effect run: teardown, then creation. Returns the new registry and the run's own list. */
  function Effect(reg: Registry, refs: Refs, tab: Tab): (r: (Registry, seq<Trigger>))
    requires Fresh(reg)
    ensures Fresh(r.0)
    ensures forall t :: t in reg.live ==> (t in r.0.live <==> !Owned(t, refs))
    ensures forall t :: t in r.1 ==> t in r.0.live && t !in reg.live
    ensures forall t :: t in r.0.live ==> t in r.1 || t in reg.live
    ensures r.1 == Create(Plan(refs, tab), reg.nextId)
  {
    var kept := Teardown(reg.live, refs);
    var made := Create(Plan(refs, tab), reg.nextId);
    (Registry(kept + made, reg.nextId + |made|), made)
  }

  /** The run's cleanup: kill each trigger it created. */
  function Cleanup(reg: Registry, created: seq<Trigger>): (r: Registry)
    ensures forall t :: t in r.live <==> t in reg.live && t !in created
    ensures r.nextId == reg.nextId
    ensures Fresh(reg) ==> Fresh(r)
  {
    Registry(Seqs.Filter(reg.live, t => t !in created), reg.nextId)
  }

  // ---------------------------------------------------------------------
  // At most one section trigger.

  predicate OnSection(t: Trigger) {
    t.element.Some? && t.element.value.domId == SectionId
  }

  /** How many live triggers are bound to the section element. */
  function SectionTriggers(live: seq<Trigger>): nat {
    if |live| == 0 then 0
    else (if OnSection(live[0]) then 1 else 0) + SectionTriggers(live[1..])
  }

  lemma {:induction false} SectionTriggersConcat(a: seq<Trigger>, b: seq<Trigger>)
    ensures SectionTriggers(a + b) == SectionTriggers(a) + SectionTriggers(b)
  {
    if |a| > 0 {
      assert (a + b)[1..] == a[1..] + b;
      SectionTriggersConcat(a[1..], b);
    } else {
      assert a + b == b;
    }
  }

  lemma {:induction false} NoSectionTriggers(live: seq<Trigger>)
    requires forall i :: 0 <= i < |live| ==> !OnSection(live[i])
    ensures SectionTriggers(live) == 0
  {
    if |live| > 0 {
      NoSectionTriggers(live[1..]);
    }
  }

  /** A list whose first trigger, and only that one, is bound to the section. */
  lemma {:induction false} OnlyFirstOnSection(made: seq<Trigger>)
    requires |made| >= 1 && OnSection(made[0])
    requires forall i :: 1 <= i < |made| ==> !OnSection(made[i])
    ensures SectionTriggers(made) == 1
  {
    NoSectionTriggers(made[1..]);
  }

  /** Of the created triggers exactly the first, the section-scale one, is bound to the section. */
  lemma CreatedSectionTriggers(refs: Refs, tab: Tab, nextId: nat)
    requires WellFormed(refs)
    ensures SectionTriggers(Create(Plan(refs, tab), nextId)) == 1
  {
    var specs := Plan(refs, tab);
    var made := Create(specs, nextId);
    forall i | 1 <= i < |made| ensures !OnSection(made[i]) {
      assert specs[i] in specs[1..];
    }
    OnlyFirstOnSection(made);
  }

  /**
   * Whatever was live before, after a run exactly one trigger is bound to
   * the section: the teardown removes the old ones before the new one is made.
   */
  lemma {:induction false} OneSectionTriggerAfterEffect(reg: Registry, refs: Refs, tab: Tab)
    requires Fresh(reg) && WellFormed(refs)
    ensures SectionTriggers(Effect(reg, refs, tab).0.live) == 1
  {
    var kept := Teardown(reg.live, refs);
    var made := Create(Plan(refs, tab), reg.nextId);
    SectionTriggersConcat(kept, made);
    assert forall i :: 0 <= i < |kept| ==> kept[i] in kept;
    NoSectionTriggers(kept);
    CreatedSectionTriggers(refs, tab, reg.nextId);
  }

  /** Every fill spec a run plans is the bar loop's, for a mounted bar. */
  lemma PlannedFillsAreBars(refs: Refs, tab: Tab)
    ensures forall j :: 0 <= j < |Plan(refs, tab)| && Plan(refs, tab)[j].role.SkillBarFill? ==>
      FillFor(refs.skillBars, Plan(refs, tab)[j])
  {
    var specs := Plan(refs, tab);
    var extras := Extras(refs, tab);
    forall j | 0 <= j < |specs| && specs[j].role.SkillBarFill? ensures FillFor(refs.skillBars, specs[j]) {
      assert specs[j] == extras[j - 1];
      assert extras[j - 1] in extras;
    }
  }

  /** Without mounted skill bars (the ref is never assigned in the markup) no fill trigger is made. */
  lemma NoBarsNoFillTriggers(reg: Registry, refs: Refs, tab: Tab)
    requires Fresh(reg) && refs.skillBars == []
    ensures forall t :: t in Effect(reg, refs, tab).1 ==> !t.role.SkillBarFill?
  {
    var specs := Plan(refs, tab);
    var made := Create(specs, reg.nextId);
    assert |BarIndices(refs.skillBars)| == 0;
    assert |FillsOf(refs, tab)| == 0;
    forall j | 0 <= j < |made| ensures !made[j].role.SkillBarFill? {
      assert made[j].role == specs[j].role;
    }
  }

  /** Every trigger a run creates belongs to this section. */
  lemma CreatedNotForeign(refs: Refs, tab: Tab, nextId: nat)
    ensures forall t :: t in Create(Plan(refs, tab), nextId) ==> t.role != Foreign
  {
  }

  // ---------------------------------------------------------------------
  // Tab switching.

  /**
   * The section's effect state: the tab, the registry, the latest run's
   * triggers, and every trigger any run created (the hook's context, which
   * is reverted, and every run's cleanup called, only at unmount).
   */
  datatype Section = Section(tab: Tab, registry: Registry, runTriggers: seq<Trigger>, created: seq<Trigger>)

  /** Every live trigger of this section was created by some run, and the latest run's are live. */
  predicate Tracked(s: Section) {
    && Fresh(s.registry)
    && (forall t :: t in s.registry.live && t.role != Foreign ==> t in s.created)
    && (forall t :: t in s.runTriggers ==> t in s.registry.live && t in s.created)
  }

  /** The only triggers of this section alive are those of the current run, and all of them are. */
  predicate NoStaleTriggers(s: Section) {
    && Fresh(s.registry)
    && (forall t :: t in s.runTriggers ==> t in s.registry.live)
    && (forall t :: t in s.registry.live && t.role != Foreign ==> t in s.runTriggers)
  }

  /** The effect's first run, on the skills tab, over a registry holding only other components' triggers. */
  function Mount(reg: Registry, refs: Refs): (s: Section)
    requires Fresh(reg)
    requires forall t :: t in reg.live ==> t.role == Foreign
    ensures NoStaleTriggers(s) && Tracked(s)
    ensures s.tab == SkillsTab
    ensures s.runTriggers == s.created == Create(Plan(refs, SkillsTab), reg.nextId)
  {
    var (next, made) := Effect(reg, refs, SkillsTab);
    CreatedNotForeign(refs, SkillsTab, reg.nextId);
    Section(SkillsTab, next, made, made)
  }

  /**
   * `setActiveTab` as written: a new tab re-renders and re-runs the effect,
   * but the dependency list without `revertOnUpdate` defers the previous
   * run's cleanup to unmount, so only the teardown loop removes old
   * triggers, and it misses those on elements no ref holds any more. The
   * same tab changes nothing.
   */
  function SetTabAsWritten(s: Section, tab: Tab, refs: Refs): (r: Section)
    requires Tracked(s)
    ensures Tracked(r)
    ensures r.tab == tab
    ensures tab == s.tab ==> r == s
    ensures tab != s.tab ==> forall t :: t in s.registry.live ==> (t in r.registry.live <==> !Owned(t, refs))
    ensures tab != s.tab ==> r.runTriggers == Create(Plan(refs, tab), s.registry.nextId)
    ensures tab != s.tab && WellFormed(refs) ==> SectionTriggers(r.registry.live) == 1
  {
    if tab == s.tab then s
    else
      var (next, made) := Effect(s.registry, refs, tab);
      CreatedNotForeign(refs, tab, s.registry.nextId);
      assert WellFormed(refs) ==> SectionTriggers(next.live) == 1 by {
        if WellFormed(refs) {
          OneSectionTriggerAfterEffect(s.registry, refs, tab);
        }
      }
      Section(tab, next, made, s.created + made)
  }

  /** Refs with the timeline item mounted (`present`) or unmounted (its ref callback stored `null`). */
  function DemoRefs(item: Element, present: bool): Refs {
    Refs(Element(0, SectionId), Some(Element(1, "")), [], [if present then Some(item) else None])
  }

  /** An item element that is neither the section nor the image. */
  predicate ItemElement(item: Element) {
    item.domId != SectionId && item != Element(1, "")
  }

  /** The section after mounting on the skills tab, before any timeline item exists. */
  function DemoMount(): Section {
    Mount(Registry([], 0), Refs(Element(0, SectionId), Some(Element(1, "")), [], []))
  }

  /** The timeline trigger the second run makes, on the first timeline item. */
  function DemoItemTrigger(item: Element): Trigger {
    Trigger(4, Some(item), TimelineReveal)
  }

  /** The second run: the timeline tab, with its first item mounted. */
  function DemoTimeline(item: Element): Section {
    SetTabAsWritten(DemoMount(), TimelineTab, DemoRefs(item, true))
  }

  /** The third run: back on the skills tab, the item's ref callback has stored `null`. */
  function DemoReturn(item: Element): Section {
    SetTabAsWritten(DemoTimeline(item), SkillsTab, DemoRefs(item, false))
  }

  /** The mount run makes two triggers, so the timeline run hands out ids 2, 3 and 4. */
  lemma DemoTimelineRun(item: Element)
    ensures DemoTimeline(item).tab == TimelineTab && Tracked(DemoTimeline(item))
    ensures DemoItemTrigger(item) in DemoTimeline(item).registry.live
  {
    var refs0 := Refs(Element(0, SectionId), Some(Element(1, "")), [], []);
    assert BarSpecs([]) == [];
    assert |Plan(refs0, SkillsTab)| == 2;
    assert DemoMount().registry.nextId == 2;
    var s1 := DemoTimeline(item);
    assert Plan(DemoRefs(item, true), TimelineTab)[2] == Spec(Some(item), TimelineReveal);
    assert s1.runTriggers[2] == DemoItemTrigger(item);
  }

  /** No ref of the third run holds the detached item, so the teardown keeps its trigger. */
  lemma DemoReturnRun(item: Element)
    requires ItemElement(item)
    ensures DemoItemTrigger(item) in DemoReturn(item).registry.live
  {
    DemoTimelineRun(item);
    ReturnKeepsItemTrigger(DemoTimeline(item), item);
  }

  /** From any tracked timeline state holding the item's trigger, returning to skills keeps it. */
  lemma ReturnKeepsItemTrigger(s: Section, item: Element)
    requires ItemElement(item) && Tracked(s) && s.tab == TimelineTab
    requires DemoItemTrigger(item) in s.registry.live
    ensures DemoItemTrigger(item) in SetTabAsWritten(s, SkillsTab, DemoRefs(item, false)).registry.live
  {
    TeardownMissesUnowned(s, SkillsTab, DemoRefs(item, false), DemoItemTrigger(item));
  }

  /** A live trigger that no ref of the new run owns survives a tab change as written. */
  lemma TeardownMissesUnowned(s: Section, tab: Tab, refs: Refs, t: Trigger)
    requires Tracked(s) && tab != s.tab
    requires t in s.registry.live && !Owned(t, refs)
    ensures t in SetTabAsWritten(s, tab, refs).registry.live
  {
  }

  /** The third run, on the skills tab, does not recreate the timeline trigger. */
  lemma DemoReturnMakesNoTimelineTrigger(item: Element)
    ensures DemoItemTrigger(item) !in DemoReturn(item).runTriggers
  {
    DemoTimelineRun(item);
    SkillsRunMakesNoTimelineTrigger(DemoRefs(item, false), DemoTimeline(item).registry.nextId);
  }

  /**
   * Skills, timeline, skills again: the timeline trigger of the second run is
   * bound to an item that has left the tree, so no ref matches it and it
   * stays alive after the third run, outside the latest run's triggers.
   */
  lemma StaleTimelineTriggerSurvives(item: Element)
    requires ItemElement(item)
    ensures DemoItemTrigger(item) in DemoReturn(item).registry.live
    ensures !NoStaleTriggers(DemoReturn(item))
  {
    DemoReturnRun(item);
    DemoReturnMakesNoTimelineTrigger(item);
  }

  /** A run on the skills tab makes no timeline trigger. */
  lemma SkillsRunMakesNoTimelineTrigger(refs: Refs, nextId: nat)
    ensures forall t :: t in Create(Plan(refs, SkillsTab), nextId) ==> t.role != TimelineReveal
  {
    var specs := Plan(refs, SkillsTab);
    var made := Create(specs, nextId);
    forall t | t in made ensures t.role != TimelineReveal {
      var j :| 0 <= j < |made| && made[j] == t;
      assert specs[j] in specs;
    }
  }

  /**
   * `setActiveTab` with the previous run cleaned up first, as
   * `revertOnUpdate: true` would do: only the new run's triggers of this
   * section stay alive.
   */
  function SetTab(s: Section, tab: Tab, refs: Refs): (r: Section)
    requires NoStaleTriggers(s)
    ensures NoStaleTriggers(r)
    ensures Tracked(s) ==> Tracked(r)
    ensures r.tab == tab
    ensures tab == s.tab ==> r == s
    ensures tab != s.tab ==> forall t :: t in s.runTriggers ==> t !in r.registry.live
    ensures tab != s.tab ==> r.runTriggers == Create(Plan(refs, tab), s.registry.nextId)
  {
    if tab == s.tab then s
    else
      var cleaned := Cleanup(s.registry, s.runTriggers);
      var (next, made) := Effect(cleaned, refs, tab);
      CreatedNotForeign(refs, tab, cleaned.nextId);
      Section(tab, next, made, s.created + made)
  }

  /** With the cleanup run on every change, the same three tabs leave no timeline trigger alive. */
  lemma NoTimelineTriggerAfterReturn(item: Element)
    ensures var s2 := SetTab(SetTab(DemoMount(), TimelineTab, DemoRefs(item, true)), SkillsTab, DemoRefs(item, false));
      forall t :: t in s2.registry.live ==> t.role != TimelineReveal
  {
    var s1 := SetTab(DemoMount(), TimelineTab, DemoRefs(item, true));
    SkillsTabLeavesNoTimelineTrigger(s1, DemoRefs(item, false));
  }

  /** Whatever ran before, a corrected change to the skills tab leaves no timeline trigger alive. */
  lemma SkillsTabLeavesNoTimelineTrigger(s: Section, refs: Refs)
    requires NoStaleTriggers(s) && s.tab != SkillsTab
    ensures forall t :: t in SetTab(s, SkillsTab, refs).registry.live ==> t.role != TimelineReveal
  {
    SkillsRunMakesNoTimelineTrigger(refs, s.registry.nextId);
  }

  /** Unmount: the hook's context is reverted, calling every run's cleanup. */
  function Unmount(s: Section): (r: Registry)
    ensures forall t :: t in r.live ==> t in s.registry.live
    ensures Tracked(s) ==> forall t :: t in r.live ==> t.role == Foreign
    ensures Fresh(s.registry) ==> Fresh(r)
  {
    Cleanup(s.registry, s.created)
  }

  /** Which panel the tab shows: exactly one of the two. */
  function Panels(tab: Tab): (shown: (bool, bool))
    ensures shown.0 != shown.1
    ensures shown.0 <==> tab == SkillsTab
  {
    (tab == SkillsTab, tab == TimelineTab)
  }
}
