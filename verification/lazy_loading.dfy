/**
 * `useLazyLoading`: a one-shot visibility latch. The effect creates an
 * intersection observer with the given threshold, observes the ref'd element
 * if there is one, and disconnects on cleanup; the first intersecting entry
 * sets `isVisible` and disconnects the observer. Observer callbacks and
 * effect re-runs are explicit events.
 */
module LazyLoading {
  import opened Optional

  /** The threshold used when the caller passes none. */
  const DefaultThreshold: real := 0.1

  /** JavaScript default parameters apply only to a missing (undefined) argument. */
  function Threshold(arg: Option<real>): (t: real)
    ensures arg.None? ==> t == DefaultThreshold
    ensures arg.Some? ==> t == arg.value
  {
    arg.GetOr(DefaultThreshold)
  }

  datatype Hook = Hook(
    isVisible: bool,
    connected: bool,   // the current effect's observer has not been disconnected
    observing: bool)   // that observer was given a target

  /** The state after the first effect run, with `ref.current` present or null. */
  function Mount(refPresent: bool): (h: Hook)
    ensures !h.isVisible && h.connected
    ensures h.observing <==> refPresent
  {
    Hook(false, true, refPresent)
  }

  datatype Event =
    | Entry(isIntersecting: bool)    // the observer reports its (first) entry
    | Rerun(refPresent: bool)        // `ref` or `threshold` changed: cleanup, then a new effect run
    | Unmount                        // the final cleanup

  /** Only a connected observer with a target delivers entries. */
  function OnEntry(h: Hook, isIntersecting: bool): (r: Hook)
    ensures h.connected && h.observing && isIntersecting ==> r.isVisible && !r.connected
    ensures !(h.connected && h.observing && isIntersecting) ==> r == h
  {
    if h.connected && h.observing && isIntersecting then Hook(true, false, h.observing) else h
  }

  /** The cleanup: always disconnects; the state keeps its value. */
  function Cleanup(h: Hook): (r: Hook)
    ensures !r.connected && r.isVisible == h.isVisible
  {
    h.(connected := false)
  }

  function Step(h: Hook, e: Event): (r: Hook)
    ensures h.isVisible ==> r.isVisible
    ensures r.isVisible && !h.isVisible ==> e == Entry(true) && h.connected && h.observing
  {
    match e
    case Entry(i) => OnEntry(h, i)
    case Rerun(refPresent) => Mount(refPresent).(isVisible := Cleanup(h).isVisible)
    case Unmount => Cleanup(h)
  }

  function Run(h: Hook, es: seq<Event>): Hook
    decreases |es|
  {
    if |es| == 0 then h else Run(Step(h, es[0]), es[1..])
  }

  /** The latch: once visible, visible after any further events. */
  lemma {:induction false} LatchNeverResets(h: Hook, es: seq<Event>)
    requires h.isVisible
    ensures Run(h, es).isVisible
    decreases |es|
  {
    if |es| > 0 {
      LatchNeverResets(Step(h, es[0]), es[1..]);
    }
  }

  /** Entries and cleanups never give a hook without a target a visible value. */
  predicate NoTargetEvent(e: Event) {
    e.Entry? || e == Unmount || e == Rerun(false)
  }

  /** With a null ref nothing is observed, so the value stays false. */
  lemma {:induction false} NullRefStaysHidden(es: seq<Event>)
    requires forall i :: 0 <= i < |es| ==> NoTargetEvent(es[i])
    ensures !Run(Mount(false), es).isVisible && !Run(Mount(false), es).observing
  {
    NoTargetInvariant(Mount(false), es);
  }

  lemma {:induction false} NoTargetInvariant(h: Hook, es: seq<Event>)
    requires !h.isVisible && !h.observing
    requires forall i :: 0 <= i < |es| ==> NoTargetEvent(es[i])
    ensures !Run(h, es).isVisible && !Run(h, es).observing
    decreases |es|
  {
    if |es| > 0 {
      NoTargetInvariant(Step(h, es[0]), es[1..]);
    }
  }

  /** The first intersecting entry on a mounted element makes the value true and stops observing. */
  lemma FirstIntersectionLatches(es: seq<Event>)
    ensures Run(Mount(true), [Entry(true)] + es).isVisible
    ensures !Step(Mount(true), Entry(true)).connected
  {
    assert ([Entry(true)] + es)[1..] == es;
    LatchNeverResets(Step(Mount(true), Entry(true)), es);
  }
}
