/**
 * `LazyImage`: a skeleton until the visibility latch fires, then the
 * `<img>` (with a loading overlay until it has loaded), or a failure message
 * once it has failed. The load and error handlers set their flag and then
 * call the caller's callback; the calls made are recorded in order.
 */
module LazyImage {
  import opened Optional
  import LazyLoading

  /** The overlay shown over a loading image: the caller's placeholder, or the default spinner. */
  datatype Overlay = DefaultSpinner | Custom(node: string)

  datatype Opacity = Transparent | Opaque

  /** What is rendered inside the wrapper. */
  datatype View = View(skeleton: bool, overlay: Option<Overlay>, image: Option<Opacity>, failure: bool)

  /**
   * The render from the three flags; `placeholder` is `None` for every falsy
   * value (`placeholder || <LoadingSpinner/>`).
   */
  function Render(isVisible: bool, isLoaded: bool, hasError: bool, placeholder: Option<string>): (v: View)
    ensures v.skeleton <==> !isVisible
    ensures v.image.Some? <==> isVisible && !hasError
    ensures v.overlay.Some? <==> isVisible && !hasError && !isLoaded
    ensures v.overlay.Some? ==> (v.overlay == Some(DefaultSpinner) <==> placeholder.None?)
    ensures v.overlay.Some? && placeholder.Some? ==> v.overlay == Some(Custom(placeholder.value))
    ensures v.image.Some? ==> (v.image.value == Opaque <==> isLoaded)
    ensures v.failure <==> hasError
  {
    var overlay := if placeholder.Some? then Custom(placeholder.value) else DefaultSpinner;
    View(
      !isVisible,
      if isVisible && !hasError && !isLoaded then Some(overlay) else None,
      if isVisible && !hasError then Some(if isLoaded then Opaque else Transparent) else None,
      hasError)
  }

  /** The image's class list: the caller's classes, the transition, and the opacity class. */
  function ImageClass(className: string, isLoaded: bool): (cls: string)
    ensures |className| <= |cls| && cls[..|className|] == className
    ensures isLoaded ==> |cls| >= 11 && cls[|cls| - 11..] == "opacity-100"
    ensures !isLoaded ==> |cls| >= 9 && cls[|cls| - 9..] == "opacity-0"
    ensures cls == className + " transition-opacity duration-300 " + "opacity-100" <==> isLoaded
  {
    className + " transition-opacity duration-300 " + (if isLoaded then "opacity-100" else "opacity-0")
  }

  /** The caller's callbacks, as calls made. */
  datatype Call = OnLoad | OnError

  datatype Image = Image(hook: LazyLoading.Hook, isLoaded: bool, hasError: bool, calls: seq<Call>)

  function Mount(refPresent: bool): Image {
    Image(LazyLoading.Mount(refPresent), false, false, [])
  }

  function ViewOf(s: Image, placeholder: Option<string>): View {
    Render(s.hook.isVisible, s.isLoaded, s.hasError, placeholder)
  }

  /** The image's class agrees with the rendered opacity: `opacity-100` exactly on an opaque image. */
  lemma ImageClassMatchesView(s: Image, placeholder: Option<string>, className: string)
    requires ImgMounted(s)
    ensures var cls := ImageClass(className, s.isLoaded);
      cls[|cls| - 11..] == "opacity-100" <==> ViewOf(s, placeholder).image == Some(Opaque)
  {
    var cls := ImageClass(className, s.isLoaded);
    if !s.isLoaded {
      assert cls[|cls| - 1] == '0' && cls[|cls| - 3] == 'y';
    }
  }

  /** The `<img>` element exists, so its load and error events can fire. */
  predicate ImgMounted(s: Image) {
    s.hook.isVisible && !s.hasError
  }

  /** `handleLoad`: set `isLoaded`, then call `onLoad`. */
  function HandleLoad(s: Image): (r: Image)
    requires ImgMounted(s)
    ensures r.isLoaded && r.hasError == s.hasError && r.hook == s.hook
    ensures r.calls == s.calls + [OnLoad]
  {
    s.(isLoaded := true, calls := s.calls + [OnLoad])
  }

  /** `handleError`: set `hasError`, then call `onError`. */
  function HandleError(s: Image): (r: Image)
    requires ImgMounted(s)
    ensures r.hasError && r.isLoaded == s.isLoaded && r.hook == s.hook
    ensures r.calls == s.calls + [OnError]
  {
    s.(hasError := true, calls := s.calls + [OnError])
  }

  datatype Event = Visibility(e: LazyLoading.Event) | ImgLoad | ImgError

  /** An event; the image's own events fire only while the `<img>` is in the tree. */
  function Step(s: Image, e: Event): (r: Image)
    ensures s.hasError ==> r.hasError
    ensures s.isLoaded ==> r.isLoaded
    ensures s.hook.isVisible ==> r.hook.isVisible
    ensures |s.calls| <= |r.calls| && r.calls[..|s.calls|] == s.calls
    ensures e.ImgLoad? && ImgMounted(s) ==> r.isLoaded && r.calls == s.calls + [OnLoad]
    ensures e.ImgError? && ImgMounted(s) ==> r.hasError && r.calls == s.calls + [OnError]
    ensures !e.Visibility? && !ImgMounted(s) ==> r == s
    ensures e.Visibility? ==> r.calls == s.calls && r.isLoaded == s.isLoaded && r.hasError == s.hasError
  {
    match e
    case Visibility(ev) => s.(hook := LazyLoading.Step(s.hook, ev))
    case ImgLoad => if ImgMounted(s) then HandleLoad(s) else s
    case ImgError => if ImgMounted(s) then HandleError(s) else s
  }

  function Run(s: Image, es: seq<Event>): Image
    decreases |es|
  {
    if |es| == 0 then s else Run(Step(s, es[0]), es[1..])
  }

  /** An error needs a rendered image, so it implies visibility; `onError` is called at most once. */
  predicate Inv(s: Image) {
    && (s.hasError ==> s.hook.isVisible)
    && (OnError in s.calls <==> s.hasError)
    && (forall i, j :: 0 <= i < j < |s.calls| && s.calls[i] == OnError ==> s.calls[j] != OnError)
  }

  lemma StepInv(s: Image, e: Event)
    requires Inv(s)
    ensures Inv(Step(s, e))
  {
  }

  lemma {:induction false} RunInv(s: Image, es: seq<Event>)
    requires Inv(s)
    ensures Inv(Run(s, es))
    ensures s.hasError ==> Run(s, es).hasError
    decreases |es|
  {
    if |es| > 0 {
      StepInv(s, es[0]);
      RunInv(Step(s, es[0]), es[1..]);
    }
  }

  /** In every reachable state exactly one of skeleton, image and failure message is rendered. */
  lemma ExactlyOneShown(s: Image, placeholder: Option<string>)
    requires Inv(s)
    ensures var v := ViewOf(s, placeholder);
      (if v.skeleton then 1 else 0) + (if v.image.Some? then 1 else 0) + (if v.failure then 1 else 0) == 1
  {
  }

  lemma MountInv(refPresent: bool)
    ensures Inv(Mount(refPresent))
  {
  }

  /** Once failed, only the failure message shows, whatever happens next. */
  lemma {:induction false} FailureIsFinal(s: Image, es: seq<Event>, placeholder: Option<string>)
    requires Inv(s) && s.hasError
    ensures var v := ViewOf(Run(s, es), placeholder);
      v.failure && v.image.None? && v.overlay.None? && !v.skeleton
  {
    RunInv(s, es);
  }
}
