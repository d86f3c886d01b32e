/**
 * The splash screen's sequencer. A 100 ms interval raises the progress by a
 * random amount below 15 until a tick finds it at 100 or more; that tick
 * snaps it to exactly 100, stops the interval and starts a 500 ms hold,
 * after which `isComplete` is set (starting the exit animation) and an
 * 800 ms timer calls `onComplete`. Each timer firing is an explicit event.
 */
module LoadingScreen {

  /** The bound on one tick's random increment (`Math.random() * 15`). */
  const MaxIncrement: real := 15.0

  datatype Loader = Loader(
    progress: real,
    ticking: bool,        // the interval is still installed
    holdPending: bool,    // the 500 ms timer is scheduled
    isComplete: bool,
    hidePending: bool,    // the 800 ms `onComplete` timer is scheduled
    completions: nat)     // how many times `onComplete` has been called

  datatype Event =
    | Tick(increment: real)   // the interval fired; `increment` is the random draw
    | HoldElapsed
    | HideElapsed

  predicate ValidEvent(e: Event) {
    e.Tick? ==> 0.0 <= e.increment < MaxIncrement
  }

  function Init(): Loader {
    Loader(0.0, true, false, false, false, 0)
  }

  /** One timer firing; a timer that is not scheduled does not fire. */
  function Step(s: Loader, e: Event): (r: Loader)
    requires ValidEvent(e)
    ensures e.Tick? && s.ticking && s.progress < 100.0 ==>
      r == s.(progress := s.progress + e.increment) && s.progress <= r.progress < s.progress + MaxIncrement
    ensures (e.Tick? && !s.ticking) || (e.HoldElapsed? && !s.holdPending) || (e.HideElapsed? && !s.hidePending) ==>
      r == s
    ensures e.Tick? && s.ticking && s.progress >= 100.0 ==>
      r.progress == 100.0 && !r.ticking && r.holdPending
    ensures e.HoldElapsed? && s.holdPending ==>
      r.isComplete && r.hidePending && !r.holdPending && r.progress == s.progress && r.completions == s.completions
    ensures e.HideElapsed? && s.hidePending ==>
      r.completions == s.completions + 1 && !r.hidePending && r.isComplete == s.isComplete
    ensures r.completions == s.completions || (e.HideElapsed? && r.completions == s.completions + 1)
    ensures r.isComplete != s.isComplete ==> e.HoldElapsed? && r.isComplete
  {
    match e
    case Tick(increment) =>
      if !s.ticking then s
      else if s.progress >= 100.0 then s.(progress := 100.0, ticking := false, holdPending := true)
      else s.(progress := s.progress + increment)
    case HoldElapsed =>
      if !s.holdPending then s
      else s.(holdPending := false, isComplete := true, hidePending := true)
    case HideElapsed =>
      if !s.hidePending then s
      else s.(hidePending := false, completions := s.completions + 1)
  }

  /** The phases of the sequencer, as relations between the flags. */
  predicate Inv(s: Loader) {
    && s.progress >= 0.0
    && (s.ticking ==> !s.holdPending && !s.isComplete && s.completions == 0)
    && (!s.ticking ==> s.progress == 100.0)
    && (s.holdPending ==> !s.isComplete)
    && (s.hidePending ==> s.isComplete && s.completions == 0)
    && (!s.isComplete ==> !s.hidePending && s.completions == 0)
    && s.completions <= 1
    && (s.isComplete && !s.hidePending ==> s.completions == 1)
  }

  lemma InitInv()
    ensures Inv(Init())
  {
  }

  lemma StepInv(s: Loader, e: Event)
    requires Inv(s) && ValidEvent(e)
    ensures Inv(Step(s, e))
  {
  }

  function Run(s: Loader, es: seq<Event>): Loader
    requires forall i :: 0 <= i < |es| ==> ValidEvent(es[i])
    decreases |es|
  {
    if |es| == 0 then s else Run(Step(s, es[0]), es[1..])
  }

  /**
   * In every reachable state `onComplete` has been called at most once, only
   * after `isComplete` was set, and `isComplete` implies progress is 100.
   */
  lemma {:induction false} RunInv(s: Loader, es: seq<Event>)
    requires forall i :: 0 <= i < |es| ==> ValidEvent(es[i])
    requires Inv(s)
    ensures Inv(Run(s, es))
    ensures Run(s, es).completions <= 1
    ensures Run(s, es).completions == 1 ==> Run(s, es).isComplete
    ensures Run(s, es).isComplete ==> Run(s, es).progress == 100.0
    decreases |es|
  {
    if |es| > 0 {
      StepInv(s, es[0]);
      RunInv(Step(s, es[0]), es[1..]);
    }
  }

  /** The width and percentage shown: `Math.min(progress, 100)`. */
  function Displayed(s: Loader): (d: real)
    requires s.progress >= 0.0
    ensures 0.0 <= d <= 100.0
    ensures d <= s.progress
    ensures s.progress <= 100.0 ==> d == s.progress
    ensures s.progress >= 100.0 ==> d == 100.0
  {
    if s.progress < 100.0 then s.progress else 100.0
  }

  /** The bar never moves backwards. */
  lemma DisplayedMonotone(s: Loader, e: Event)
    requires Inv(s) && ValidEvent(e)
    ensures Step(s, e).progress >= 0.0
    ensures Displayed(Step(s, e)) >= Displayed(s)
  {
  }

  /** The exit animation is started by the render that sees `isComplete`. */
  predicate ExitAnimationRuns(s: Loader) {
    s.isComplete
  }

  /** The exit animation never starts before progress has been snapped to 100. */
  lemma {:induction false} ExitOnlyAfterFull(es: seq<Event>)
    requires forall i :: 0 <= i < |es| ==> ValidEvent(es[i])
    ensures ExitAnimationRuns(Run(Init(), es)) ==> Run(Init(), es).progress == 100.0 && !Run(Init(), es).ticking
  {
    RunInv(Init(), es);
  }

  lemma {:induction false} RunAppend(s: Loader, es: seq<Event>, e: Event)
    requires forall i :: 0 <= i < |es| ==> ValidEvent(es[i])
    requires ValidEvent(e)
    ensures forall i :: 0 <= i < |es + [e]| ==> ValidEvent((es + [e])[i])
    ensures Run(s, es + [e]) == Step(Run(s, es), e)
    decreases |es|
  {
    if |es| == 0 {
      assert es + [e] == [e];
    } else {
      assert (es + [e])[1..] == es[1..] + [e];
      RunAppend(Step(s, es[0]), es[1..], e);
    }
  }

  /** `n` ticks of 14 from the start, while they stay below 100, add up to 14 n. */
  lemma {:induction false} RunTicksOf14(n: nat)
    requires n <= 8
    ensures Run(Init(), seq(n, _ => Tick(14.0))) == Loader(14.0 * n as real, true, false, false, false, 0)
  {
    if n > 0 {
      var es := seq(n - 1, _ => Tick(14.0));
      assert seq(n, _ => Tick(14.0)) == es + [Tick(14.0)];
      RunTicksOf14(n - 1);
      RunAppend(Init(), es, Tick(14.0));
    }
  }

  /**
   * The raw progress value, unlike the displayed one, can go down: eight
   * ticks of 14 reach 112, and the ninth tick snaps the value back to 100.
   */
  lemma RawProgressCanDecrease()
    ensures var eight := Run(Init(), seq(8, _ => Tick(14.0)));
            && eight.progress == 112.0 && eight.ticking
            && Step(eight, Tick(0.0)).progress == 100.0 < eight.progress
  {
    RunTicksOf14(8);
  }

  /** `onComplete` calls are never taken back. */
  lemma {:induction false} RunCompletionsGrow(s: Loader, es: seq<Event>)
    requires forall i :: 0 <= i < |es| ==> ValidEvent(es[i])
    ensures Run(s, es).completions >= s.completions
    decreases |es|
  {
    if |es| > 0 {
      RunCompletionsGrow(Step(s, es[0]), es[1..]);
    }
  }

  /** Once the hold timer is scheduled, the hold and then the hide timer call `onComplete` exactly once. */
  lemma HoldThenHideCompletes(s: Loader)
    requires Inv(s) && s.holdPending
    ensures var r := Run(s, [HoldElapsed, HideElapsed]);
      r.isComplete && r.completions == 1 && !r.holdPending && !r.hidePending && r.progress == 100.0
  {
    assert [HoldElapsed, HideElapsed][1..] == [HideElapsed];
    StepInv(s, HoldElapsed);
  }

  /** Ticks from the start that reach 100: eight ticks of 14 and one that snaps to 100. */
  function NineTicks(): seq<Event> {
    seq(8, _ => Tick(14.0)) + [Tick(0.0)]
  }

  /** Eight ticks of 14 reach 112, and the ninth tick snaps to 100 and schedules the hold. */
  lemma NineTicksScheduleHold()
    ensures forall i :: 0 <= i < |NineTicks()| ==> ValidEvent(NineTicks()[i])
    ensures Run(Init(), NineTicks()) == Loader(100.0, false, true, false, false, 0)
  {
    var eight := seq(8, _ => Tick(14.0));
    RunTicksOf14(8);
    RunAppend(Init(), eight, Tick(0.0));
  }

  /**
   * A whole run from the start: after nine ticks the hold timer is
   * scheduled, its firing starts the exit, and the hide timer calls
   * `onComplete` once.
   */
  lemma {:induction false} WholeRun()
    ensures forall i :: 0 <= i < |NineTicks()| ==> ValidEvent(NineTicks()[i])
    ensures Run(Init(), NineTicks()) == Loader(100.0, false, true, false, false, 0)
    ensures Run(Init(), NineTicks() + [HoldElapsed]) == Loader(100.0, false, false, true, true, 0)
    ensures Run(Init(), NineTicks() + [HoldElapsed, HideElapsed]) == Loader(100.0, false, false, true, false, 1)
  {
    NineTicksScheduleHold();
    HoldAndHideAfter(NineTicks());
  }

  /** Any events that stop the interval at 100 with the hold scheduled are followed by the exit and one `onComplete`. */
  lemma HoldAndHideAfter(es: seq<Event>)
    requires forall i :: 0 <= i < |es| ==> ValidEvent(es[i])
    requires Run(Init(), es) == Loader(100.0, false, true, false, false, 0)
    ensures Run(Init(), es + [HoldElapsed]) == Loader(100.0, false, false, true, true, 0)
    ensures Run(Init(), es + [HoldElapsed, HideElapsed]) == Loader(100.0, false, false, true, false, 1)
  {
    RunAppend(Init(), es, HoldElapsed);
    RunAppend(Init(), es + [HoldElapsed], HideElapsed);
    assert es + [HoldElapsed] + [HideElapsed] == es + [HoldElapsed, HideElapsed];
  }
}
