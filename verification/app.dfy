/**
 * The application shell: the `isLoading` latch, which decides whether the
 * splash screen is mounted and whether the main content is faded out, and
 * its coupling to the splash screen's `onComplete` callback.
 */
module App {
  import LoadingScreen

  datatype Shell = Shell(isLoading: bool)

  function Init(): Shell {
    Shell(true)
  }

  /** `handleLoadingComplete`: the only state update, and it always passes `false`. */
  function HandleLoadingComplete(s: Shell): (r: Shell)
    ensures !r.isLoading
  {
    Shell(false)
  }

  /** Calling the completion handler again changes nothing. */
  lemma HandleLoadingCompleteIdempotent(s: Shell)
    ensures HandleLoadingComplete(HandleLoadingComplete(s)) == HandleLoadingComplete(s)
  {
  }

  /** The splash screen is in the tree exactly while loading. */
  predicate LoadingScreenMounted(s: Shell) {
    s.isLoading
  }

  /** The opacity class of `#main-content`. */
  function ContentOpacity(s: Shell): (cls: string)
    ensures cls == "opacity-0" <==> s.isLoading
    ensures cls == "opacity-100" <==> !s.isLoading
  {
    if s.isLoading then "opacity-0" else "opacity-100"
  }

  /** The shell together with the splash screen it mounts. */
  datatype Page = Page(shell: Shell, loader: LoadingScreen.Loader)

  function Start(): Page {
    Page(Init(), LoadingScreen.Init())
  }

  /**
   * A splash-screen timer firing. Once `isLoading` is false the splash screen
   * is unmounted and its timers no longer reach the page; a call of
   * `onComplete` runs `handleLoadingComplete`.
   */
  function Step(p: Page, e: LoadingScreen.Event): (r: Page)
    requires LoadingScreen.ValidEvent(e)
    ensures !p.shell.isLoading ==> r == p
    ensures p.shell.isLoading ==> r.loader == LoadingScreen.Step(p.loader, e)
    ensures p.shell.isLoading ==> (r.shell.isLoading <==> r.loader.completions == p.loader.completions)
  {
    if !LoadingScreenMounted(p.shell) then p
    else
      var loader := LoadingScreen.Step(p.loader, e);
      var shell := if loader.completions > p.loader.completions then HandleLoadingComplete(p.shell) else p.shell;
      Page(shell, loader)
  }

  function Run(p: Page, es: seq<LoadingScreen.Event>): Page
    requires forall i :: 0 <= i < |es| ==> LoadingScreen.ValidEvent(es[i])
    decreases |es|
  {
    if |es| == 0 then p else Run(Step(p, es[0]), es[1..])
  }

  /** The page is loading exactly until the splash screen has called `onComplete`, which it does once. */
  predicate Inv(p: Page) {
    && LoadingScreen.Inv(p.loader)
    && (p.shell.isLoading <==> p.loader.completions == 0)
  }

  /**
   * From the start, `isLoading` is false exactly when the splash screen has
   * completed, and once false it never becomes true again.
   */
  lemma {:induction false} RunInv(p: Page, es: seq<LoadingScreen.Event>)
    requires forall i :: 0 <= i < |es| ==> LoadingScreen.ValidEvent(es[i])
    requires Inv(p)
    ensures Inv(Run(p, es))
    ensures !p.shell.isLoading ==> !Run(p, es).shell.isLoading
    ensures !Run(p, es).shell.isLoading ==> Run(p, es).loader.isComplete && Run(p, es).loader.completions == 1
    decreases |es|
  {
    if |es| > 0 {
      if p.shell.isLoading {
        LoadingScreen.StepInv(p.loader, es[0]);
      }
      RunInv(Step(p, es[0]), es[1..]);
    }
  }

  lemma StartInv()
    ensures Inv(Start())
  {
  }

  lemma {:induction false} RunAppend(p: Page, es: seq<LoadingScreen.Event>, e: LoadingScreen.Event)
    requires forall i :: 0 <= i < |es| ==> LoadingScreen.ValidEvent(es[i])
    requires LoadingScreen.ValidEvent(e)
    ensures forall i :: 0 <= i < |es + [e]| ==> LoadingScreen.ValidEvent((es + [e])[i])
    ensures Run(p, es + [e]) == Step(Run(p, es), e)
    decreases |es|
  {
    if |es| == 0 {
      assert es + [e] == [e];
    } else {
      assert (es + [e])[1..] == es[1..] + [e];
      RunAppend(Step(p, es[0]), es[1..], e);
    }
  }

  /** Until the splash screen calls `onComplete`, the page runs exactly the splash screen's sequencer. */
  lemma {:induction false} RunMirrorsLoader(p: Page, es: seq<LoadingScreen.Event>)
    requires forall i :: 0 <= i < |es| ==> LoadingScreen.ValidEvent(es[i])
    requires p.shell.isLoading
    requires LoadingScreen.Run(p.loader, es).completions == p.loader.completions
    ensures Run(p, es) == Page(p.shell, LoadingScreen.Run(p.loader, es))
    decreases |es|
  {
    if |es| > 0 {
      var next := LoadingScreen.Step(p.loader, es[0]);
      LoadingScreen.RunCompletionsGrow(next, es[1..]);
      assert next.completions == p.loader.completions;
      RunMirrorsLoader(Step(p, es[0]), es[1..]);
    }
  }

  /** Once the hold timer is scheduled, its firing and then the hide timer's end the loading state. */
  lemma HoldThenHideEndsLoading(p: Page)
    requires Inv(p) && p.loader.holdPending
    ensures var r := Run(p, [LoadingScreen.HoldElapsed, LoadingScreen.HideElapsed]);
      !r.shell.isLoading && r.loader.completions == 1 && Inv(r)
  {
    assert [LoadingScreen.HoldElapsed, LoadingScreen.HideElapsed][1..] == [LoadingScreen.HideElapsed];
    LoadingScreen.StepInv(p.loader, LoadingScreen.HoldElapsed);
  }

  /** From the start, nine ticks and the two timers take the page out of the loading state. */
  lemma WholeRunEndsLoading()
    ensures var es := LoadingScreen.NineTicks() + [LoadingScreen.HoldElapsed, LoadingScreen.HideElapsed];
      && (forall i :: 0 <= i < |es| ==> LoadingScreen.ValidEvent(es[i]))
      && !Run(Start(), es).shell.isLoading
      && ContentOpacity(Run(Start(), es).shell) == "opacity-100"
  {
    LoadingScreen.WholeRun();
    HideEndsLoadingAfter(Start(), LoadingScreen.NineTicks());
  }

  /** Once the hold timer has started the loader's exit, the hide timer takes the page out of loading. */
  lemma HideEndsLoadingAfter(p: Page, ticks: seq<LoadingScreen.Event>)
    requires forall i :: 0 <= i < |ticks| ==> LoadingScreen.ValidEvent(ticks[i])
    requires p.shell.isLoading && p.loader.completions == 0
    requires LoadingScreen.Run(p.loader, ticks + [LoadingScreen.HoldElapsed]) ==
      LoadingScreen.Loader(100.0, false, false, true, true, 0)
    ensures var es := ticks + [LoadingScreen.HoldElapsed, LoadingScreen.HideElapsed];
      && (forall i :: 0 <= i < |es| ==> LoadingScreen.ValidEvent(es[i]))
      && !Run(p, es).shell.isLoading
      && ContentOpacity(Run(p, es).shell) == "opacity-100"
  {
    var held := ticks + [LoadingScreen.HoldElapsed];
    RunMirrorsLoader(p, held);
    RunAppend(p, held, LoadingScreen.HideElapsed);
    assert held + [LoadingScreen.HideElapsed] == ticks + [LoadingScreen.HoldElapsed, LoadingScreen.HideElapsed];
  }
}
