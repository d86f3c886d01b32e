# Portfolio site UI logic, modelled in Dafny

This project models the logic behind a React portfolio site. It covers:

- the project list's technology filter and hover preview;
- the navigation bar: scroll progress, burger visibility, active section, and the menu's open/close timelines;
- the skills marquee: empty-data guard, keyword-based icon choice, three-copy strip, click-to-select and name splitting;
- the loading splash screen's sequencer and the application shell's `isLoading` latch;
- the about section's scroll-trigger teardown and re-creation on tab changes;
- the contact form's per-field updates and simulated submission;
- the services cards' sticky layout arithmetic and item numbering;
- the lazily loaded image with its one-shot visibility hook;
- the `useErrorBoundary` hook around an async call.

Each component's state is an immutable datatype. Each handler, timer firing or observer callback is a pure function on that state. Lemmas relate several steps (`Run` folds a sequence of events).

Modules: `Optional`, `Seqs` (order-preserving filter and subsequences), `Text` (ASCII lower-casing, substring search, decimal text, split/join on one character), `Projects`, `Navbar`, `Skills`, `LoadingScreen`, `App`, `About`, `Contact`, `Services`, `LazyLoading`, `LazyImage`, `ErrorHook`.

Three places where one might expect more than the code does; the model follows the code:

- **Scroll progress.** One might expect a value clamped to 0–100. The code divides by `scrollHeight - innerHeight` with no clamp and no zero guard. `Navbar.ScrollProgress` yields `NonFinite` (NaN or an infinity) when the page is no taller than the viewport. The value is within 0–100 only while the offset is within 0 and the scrollable range.
- **Loading progress.** One might expect it never to decrease. The raw `progress` value can go down: an overshoot such as 112 is snapped back to 100 (`LoadingScreen.RawProgressCanDecrease`). Only the displayed value `Math.min(progress, 100)` is monotone (`LoadingScreen.DisplayedMonotone`).
- **Technology list.** A framework literally named "all" would be listed twice, once as the leading entry and once among the distinct names. `Projects.Technologies` states the uniqueness only after the leading entry.

## Model

| member | source | states |
|---|---|---|
| Projects.Technologies | src/sections/Projects.jsx:21-25 | The list starts with "all". Every framework name of every project follows it, each one used by some project, none repeated, in order of first occurrence over projects and then frameworks. |
| Projects.Distinct | src/sections/Projects.jsx:21-25 | The `Set` de-duplication keeps exactly the same names, with no repeats, ordered by each name's first occurrence. |
| Projects.FilterProjects | src/sections/Projects.jsx:125-135 | "all" gives the project list unchanged. Any other technology gives exactly the projects with a framework of exactly that name, each as often as in the input, in their original relative order. |
| Projects.ListedTechnologyMatches | src/sections/Projects.jsx:125-135 | Every technology button after "all" selects at least one project. |
| Projects.Step | src/sections/Projects.jsx:67-97 | Below 768 px, hover events change nothing. On wider windows, entering sets the hover index and leaving clears it. A filter change sets the selected filter and the visible list and keeps the hover index. |
| Projects.RunKeepsConsistent | src/sections/Projects.jsx:125-135 | After any sequence of events, the visible list is the filter of the selected technology. |
| Projects.SelectedIsLastFilter | src/sections/Projects.jsx:125-126 | The selected filter is the technology of the last filter change, or "all" before any. |
| Projects.Preview | src/sections/Projects.jsx:268 | The floating preview shows a project exactly when the hover index is set and within the visible list, and then shows the project at that index. |
| Projects.StaleHoverHidesPreview | src/sections/Projects.jsx:268 | A hover index left past the end of a shortened list hides the preview instead of reading out of range. |
| Navbar.ActiveSection | src/sections/Navbar.jsx:88-101 | The active id is always one of the five section ids. It is "home" when no mounted section straddles the viewport midpoint (both ends inclusive). Otherwise it is the last straddling section in document order. |
| Navbar.ScanActiveSection | src/sections/Navbar.jsx:91-99 | The forward loop that overwrites its running choice computes the same id as the last-straddler definition. |
| Navbar.ScrollProgress | src/sections/Navbar.jsx:80-82 | The result is finite exactly when the scrollable range is not zero. A finite result times the range is 100 times the offset, i.e. it is the offset as a percentage of the range. It lies within 0–100 while the offset is within the range, and is 100 at the bottom. |
| Navbar.ProgressMonotone | src/sections/Navbar.jsx:80-82 | Over a positive scrollable range, a larger offset never shows less progress. |
| Navbar.OnScroll | src/sections/Navbar.jsx:79-103 | The burger shows exactly when the offset did not grow or is below 10. The stored last offset becomes the current one. The active id is the midpoint rule's choice and the progress is the scroll percentage for this event's measurements. The menu is untouched. |
| Navbar.BurgerFollowsDirection | src/sections/Navbar.jsx:84 | Scrolling down past the top zone hides the burger, and scrolling up or staying put shows it. |
| Navbar.ToggleMenu | src/sections/Navbar.jsx:109-118 | `isOpen` flips. Both timelines are reversed when the menu was open and played when it was closed, so the panel and the flag agree. Burger visibility, active id, progress and last offset are unchanged. |
| Navbar.ToggleTwice | src/sections/Navbar.jsx:109-118 | Two toggles from a started, in-sync state restore it. |
| Navbar.KeyDown | src/sections/Navbar.jsx:122-126 | Escape on an open menu does what the burger does: it closes the menu and reverses both timelines. Any other key, or Escape on a closed menu, changes nothing. |
| Navbar.LinkClickAsWritten | src/sections/Navbar.jsx:160 | A link click clears `isOpen` and changes nothing else: both timelines, burger visibility, active id, progress and last offset stay as they were. |
| Navbar.LinkClickLeavesPanelOpen | src/sections/Navbar.jsx:160 | After opening the menu and clicking a link, the panel is still played while `isOpen` is false. The next burger click plays it again rather than closing it. |
| Navbar.LinkClick | src/sections/Navbar.jsx:160 | The corrected link click closes an open menu by reversing both timelines, keeping panel and flag in sync. On a closed menu it changes nothing. The scroll fields are never touched. |
| Navbar.RunStaysInSync | src/sections/Navbar.jsx:109-126 | With the corrected link click, the panel, the icon and `isOpen` agree after every event sequence, and the active id stays a section id. |
| Skills.Show | src/components/Skills3DFallback.jsx:14-20 | A missing, non-array or empty `skills` renders only the placeholder. Otherwise it renders exactly the three-copy strip of the skills, three cards per skill. |
| Skills.Classify | src/components/Skills3DFallback.jsx:23-46 | The brand is that of the first rule with a keyword in the lower-cased name. It is the code-tags default exactly when no rule has one. |
| Skills.SkillIcon | src/components/Skills3DFallback.jsx:23-46 | The icon is the code-tags icon exactly when no rule has a keyword in the lower-cased name. It is rule i's brand icon exactly when rule i is the first rule with a keyword in the name. |
| Skills.ClassifyIgnoresCase | src/components/Skills3DFallback.jsx:23-24 | A name and its lower-cased form get the same icon. |
| Skills.ReactKeywordWins | src/components/Skills3DFallback.jsx:26-28 | A name containing "react", in any case, shows the React logo whatever later keywords it also contains. |
| Skills.Strip | src/components/Skills3DFallback.jsx:179-190 | Three copies of the skill list in order. Position p holds skill p mod n of copy p div n. |
| Skills.StripCoversEachPairOnce | src/components/Skills3DFallback.jsx:179-190 | Every (skill, copy) pair is rendered, and no pair twice. |
| Skills.StripShiftByOneCopy | src/components/Skills3DFallback.jsx:179-181 | Moving one copy's width along the strip lands on the same skill in the next copy. |
| Skills.CardKeyInjective | src/components/Skills3DFallback.jsx:128-131 | Distinct cards get distinct selection keys `skillIndex-copyIndex`. |
| Skills.ClickCard | src/components/Skills3DFallback.jsx:128-131 | A click clears the selection when the clicked card is the selected one, and selects the clicked card's key otherwise. |
| Skills.ClickTwice | src/components/Skills3DFallback.jsx:128-131 | Clicking the same card twice restores an empty selection or that card's selection. |
| Skills.AtMostOneSelected | src/components/Skills3DFallback.jsx:184 | After a click, at most one card of the strip is highlighted, and it is the clicked card. |
| Skills.CloseDetails | src/components/Skills3DFallback.jsx:293-302 | The details panel's close button clears the selection. The panel is hidden and no card is highlighted. |
| Skills.ClickAfterClose | src/components/Skills3DFallback.jsx:128-131 | After the panel is closed, a click highlights exactly the clicked card. |
| Skills.Title | src/components/Skills3DFallback.jsx:219 | The title is the name up to its first '/', or the whole name when it has none. |
| Skills.Subtitle | src/components/Skills3DFallback.jsx:221-224 | A subtitle exists exactly when the name has a '/'. It is the text between the first and the second '/' (or the end). |
| LoadingScreen.Step | src/components/LoadingScreen.jsx:11-39 | A tick below 100 adds the random increment and changes nothing else, so the progress stays below 15 more than before. A tick at or above 100 snaps to 100, stops the interval and schedules the hold. A scheduled hold timer sets `isComplete` and schedules the hide timer. A scheduled hide timer calls `onComplete` once. `onComplete` is called only by the hide timer, and `isComplete` is set only by the hold timer. A timer that is not scheduled changes nothing: a tick after the interval stopped, a hold or a hide that is not pending. |
| LoadingScreen.HoldThenHideCompletes | src/components/LoadingScreen.jsx:16-39 | Once the hold is scheduled, the hold and hide timers set `isComplete` and call `onComplete` exactly once. |
| LoadingScreen.NineTicksScheduleHold | src/components/LoadingScreen.jsx:11-23 | From the start, eight ticks of 14 and a ninth tick stop the interval at exactly 100 and schedule the hold, with `isComplete` still false. |
| LoadingScreen.HoldAndHideAfter | src/components/LoadingScreen.jsx:15-18 | After any events that stop the interval at 100 with the hold scheduled, the hold timer starts the exit and the hide timer then calls `onComplete` once. |
| LoadingScreen.WholeRun | src/components/LoadingScreen.jsx:11-39 | From the start, eight ticks of 14 and one more tick schedule the hold at progress 100. The hold timer starts the exit, and the hide timer calls `onComplete` once. |
| LoadingScreen.RunInv | src/components/LoadingScreen.jsx:11-23 | In every reachable state `onComplete` has been called at most once, only after `isComplete`, and `isComplete` implies progress is exactly 100. |
| LoadingScreen.Displayed | src/components/LoadingScreen.jsx:79 | The width shown is within 0–100 and never above the raw value. It equals the raw value up to 100 and is 100 from there on. |
| LoadingScreen.DisplayedMonotone | src/components/LoadingScreen.jsx:79 | The displayed progress never decreases from one timer firing to the next. |
| LoadingScreen.ExitOnlyAfterFull | src/components/LoadingScreen.jsx:28-39 | The exit animation starts only once progress is 100 and the interval is stopped. |
| LoadingScreen.RawProgressCanDecrease | src/components/LoadingScreen.jsx:12-21 | Eight ticks of 14 reach 112, and the next tick snaps the raw value down to 100. |
| App.HandleLoadingComplete | src/App.jsx:18-20 | The completion handler always leaves `isLoading` false. |
| App.HandleLoadingCompleteIdempotent | src/App.jsx:18-20 | Calling it again changes nothing. |
| App.ContentOpacity | src/App.jsx:33-35 | The main content is `opacity-0` exactly while loading and `opacity-100` exactly after. |
| App.Step | src/App.jsx:18-27 | While loading, a splash-screen timer advances the splash screen, and loading ends exactly when that firing called `onComplete`. After loading the splash screen is unmounted and nothing changes. |
| App.RunMirrorsLoader | src/App.jsx:18-27 | Until `onComplete` is called, the page runs exactly the splash screen's sequencer and stays loading. |
| App.HoldThenHideEndsLoading | src/App.jsx:18-27 | Once the splash screen's hold is scheduled, its hold and hide timers end the loading state. |
| App.HideEndsLoadingAfter | src/App.jsx:16-35 | Once the splash screen's hold timer has started its exit, the hide timer ends the loading state and the content fades in. |
| App.WholeRunEndsLoading | src/App.jsx:16-35 | From the start, nine ticks and the two timers end the loading state and fade the content in. |
| App.RunInv | src/App.jsx:16-27 | `isLoading` is false exactly when the splash screen has called `onComplete`, which it does at most once. Once false it stays false, and then the splash screen had finished. |
| About.Teardown | src/sections/About.jsx:45-54 | Exactly the triggers bound to the section, the image, a skill bar or a timeline item are killed. The others survive in order. |
| About.BarIndices | src/sections/About.jsx:91-92 | The bar loop's indices are exactly those with a mounted bar and a skill entry, strictly increasing, so each appears once. |
| About.BarSpecs | src/sections/About.jsx:89-109 | The j-th fill trigger is bound to the bar at the j-th eligible index, at that skill's level. So there is one fill trigger per index with a mounted bar and a skill entry, in index order, and no other. |
| About.Extras | src/sections/About.jsx:72-125 | The specs after the section trigger, laid out by position: the image spec first when the image is mounted, then the bar loop's fill specs in bar order, then the timeline spec last when the timeline tab has items. The length is exactly the sum of these parts. Fills appear only on the skills tab and the timeline spec only on the timeline tab with items. None is bound to the section element. |
| About.ExtrasCounts | src/sections/About.jsx:72-125 | The image spec occurs once when the image is mounted and never otherwise. The timeline spec occurs once when there is one. Filtering out the fills gives exactly the bar loop's specs in order. |
| About.Plan | src/sections/About.jsx:58-125 | A run creates the section-scale trigger first. Then comes the image trigger when the image is mounted, then the fills in bar order, then the timeline trigger last when there is one. The count is one more than those parts. |
| About.Create | src/sections/About.jsx:58-125 | The j-th created trigger gets id `nextId + j` and the j-th planned element and role. |
| About.Effect | src/sections/About.jsx:43-131 | A run kills exactly the owned live triggers, keeps the rest, and adds its own triggers with fresh ids. |
| About.Cleanup | src/sections/About.jsx:127-130 | The cleanup kills exactly the given triggers and keeps the others. |
| About.CreatedSectionTriggers | src/sections/About.jsx:58-125 | Of a run's triggers exactly one, the section-scale trigger, is bound to the section. |
| About.OneSectionTriggerAfterEffect | src/sections/About.jsx:45-70 | Whatever was live before, after a run exactly one trigger is bound to the section. |
| About.PlannedFillsAreBars | src/sections/About.jsx:89-109 | Every fill spec a run plans is bound to a mounted bar at an index with a skill entry, at that skill's level. |
| About.NoBarsNoFillTriggers | src/sections/About.jsx:89-109 | With no skill-bar elements collected, a run creates no fill trigger. |
| About.Mount | src/sections/About.jsx:43-131 | The first run, on the skills tab, leaves exactly its own triggers of this section alive. |
| About.SetTabAsWritten | src/sections/About.jsx:43-131 | As written, a tab change re-runs the effect without the previous run's cleanup. The teardown kills exactly the live triggers the refs own, and the section has exactly one section trigger. Choosing the current tab changes nothing. |
| About.StaleTimelineTriggerSurvives | src/sections/About.jsx:49-51 | Skills, timeline, then skills again, for any timeline item element other than the section and the image: the timeline trigger bound to the unmounted item survives outside the latest run. |
| About.ReturnKeepsItemTrigger | src/sections/About.jsx:45-54 | From any tracked state on the timeline tab, a change to the skills tab as written keeps the live trigger of an item whose ref slot is now `null`. |
| About.SetTab | src/sections/About.jsx:43-131 | The corrected tab change cleans up the previous run first. It kills that run's triggers, and only the new run's triggers of this section stay alive. Choosing the current tab changes nothing. |
| About.NoTimelineTriggerAfterReturn | src/sections/About.jsx:112-125 | With the corrected tab change, skills, timeline, then skills again leaves no timeline trigger alive, for any timeline item element. |
| About.SkillsTabLeavesNoTimelineTrigger | src/sections/About.jsx:112-130 | From any state without stale triggers on another tab, the corrected change to the skills tab leaves no timeline trigger alive. |
| About.Unmount | src/sections/About.jsx:127-131 | Unmounting calls every run's cleanup, after which only other components' triggers remain. |
| About.Panels | src/sections/About.jsx:194-204 | Exactly one of the two tab panels is shown. |
| Contact.InputChange | src/sections/Contact.jsx:30-35 | An input change sets the named field to the new value, and the other three fields are unchanged. |
| Contact.InputChangeLaws | src/sections/Contact.jsx:30-35 | Writing back a field's value changes nothing, and a second write to a field overrides the first. |
| Contact.OnSubmit | src/sections/Contact.jsx:37-40 | A submit of a filled form while idle sets `isSubmitting` and schedules one send. A submit while sending or with an empty field does nothing. The fields, the status and the pending reset timers are never touched. |
| Contact.OnSendElapsed | src/sections/Contact.jsx:42-49 | The completion sets the status to success, clears `isSubmitting` and all four fields, and schedules the status reset. |
| Contact.OnResetElapsed | src/sections/Contact.jsx:48 | The reset timer returns the status to null and changes nothing else. |
| Contact.RunInv | src/sections/Contact.jsx:37-49 | At most one send is in flight, exactly while `isSubmitting`, and a success status always has a reset pending. |
| Contact.TypingDuringSendIsCleared | src/sections/Contact.jsx:45 | Text typed while a send is under way is discarded when the send completes. |
| Contact.SubmitThenSend | src/sections/Contact.jsx:37-49 | Submit and then the completion leave a cleared, enabled form showing success. |
| Contact.Button | src/sections/Contact.jsx:188-204 | The button reads "Sending..." and is disabled exactly while submitting, and reads "Send Message" otherwise. |
| Contact.BannerFollowsSend | src/sections/Contact.jsx:206-211 | The success banner appears only through a completed send, and the button is enabled again when it does. |
| Services.Style | src/sections/Services.jsx:50-57 | On desktop, card i's top is 5·i em below 10vh and its margin is 5·(n − i − 1) rem. On mobile the style is flat. |
| Services.TopCss | src/sections/Services.jsx:53 | The mobile `top` is "0". The desktop value is `calc(10vh + …em)` whose digits read back as the card's em offset. |
| Services.MarginCss | src/sections/Services.jsx:54 | There is a margin exactly on desktop. Its digits before "rem" read back as the card's margin. |
| Services.StackGeometry | src/sections/Services.jsx:53-54 | Offset plus margin is 5·(n − 1) for every card. Margins drop by 5 per index and offsets grow by 5, and the last card's margin is 0. |
| Services.DistinctOffsets | src/sections/Services.jsx:53 | Distinct desktop cards get distinct `top` values. |
| Services.ItemLabel | src/sections/Services.jsx:73 | A label is a "0" followed by digits, at least two characters. |
| Services.TenthLabel | src/sections/Services.jsx:73 | The tenth item's label is "010". |
| Services.ItemLabelsDistinct | src/sections/Services.jsx:73 | Labels are equal exactly for equal indices, and the digits after the "0" read back as the one-based position. |
| Services.ItemRows | src/sections/Services.jsx:69-81 | Item i carries label i and is followed by a divider exactly when it is not the last. |
| Services.DividerCount | src/sections/Services.jsx:77-79 | A card with n items draws n − 1 dividers. |
| Services.AnimatedCards | src/sections/Services.jsx:16-29 | Every mounted card element, and only those, gets an entrance animation, in card order. |
| Services.AllMountedAllAnimated | src/sections/Services.jsx:17-18 | With every card mounted, every card is animated, in card order. |
| LazyLoading.Threshold | src/hooks/usePerformanceMonitor.js:53 | The threshold is 0.1 when the argument is missing, and the argument otherwise. |
| LazyLoading.Mount | src/hooks/usePerformanceMonitor.js:54-69 | The value starts false with a connected observer, which observes a target exactly when the ref is set. |
| LazyLoading.OnEntry | src/hooks/usePerformanceMonitor.js:58-63 | An intersecting entry on an observed target sets the value and disconnects. Any other entry changes nothing. |
| LazyLoading.Cleanup | src/hooks/usePerformanceMonitor.js:71 | The cleanup always disconnects and keeps the value. |
| LazyLoading.Step | src/hooks/usePerformanceMonitor.js:56-72 | The value never goes back to false. It becomes true only through an intersecting entry on a connected, observing observer. |
| LazyLoading.LatchNeverResets | src/hooks/usePerformanceMonitor.js:58-62 | Once true, the value stays true after any events. |
| LazyLoading.NullRefStaysHidden | src/hooks/usePerformanceMonitor.js:67-69 | With a null ref nothing is observed, and the value stays false. |
| LazyImage.Render | src/components/LazyImage.jsx:31-59 | The skeleton shows exactly while not visible. The image shows exactly when visible without error, with the overlay exactly while not loaded (the caller's placeholder if given, else the spinner) and opaque exactly when loaded. The failure message shows exactly on error. |
| LazyImage.ImageClass | src/components/LazyImage.jsx:45-47 | The class list starts with the caller's classes. It ends in `opacity-100` when loaded and in `opacity-0` otherwise. |
| LazyImage.ImageClassMatchesView | src/components/LazyImage.jsx:45-47 | While the image is rendered, its class ends in `opacity-100` exactly when the rendered image is opaque. |
| LazyImage.HandleLoad | src/components/LazyImage.jsx:19-22 | The load handler sets `isLoaded` and then calls `onLoad` once. |
| LazyImage.HandleError | src/components/LazyImage.jsx:24-27 | The error handler sets `hasError` and then calls `onError` once. |
| LazyImage.Step | src/components/LazyImage.jsx:19-27 | Load and error only fire while the image is rendered. A load sets `isLoaded` and appends one `onLoad` call, and an error sets `hasError` and appends one `onError` call. Flags never reset and earlier calls are kept. |
| LazyImage.RunInv | src/components/LazyImage.jsx:17-27 | An error implies visibility, `onError` has been called exactly when there is an error and at most once, and nothing resets the error. |
| LazyImage.ExactlyOneShown | src/components/LazyImage.jsx:31-59 | In every reachable state exactly one of skeleton, image and failure message renders. |
| LazyImage.FailureIsFinal | src/components/LazyImage.jsx:35-59 | After an error only the failure message renders, whatever happens next. |
| ErrorHook.Init | src/hooks/useErrorBoundary.js:4-5 | The hook starts with no error and not loading. |
| ErrorHook.ResetError | src/hooks/useErrorBoundary.js:7-9 | `resetError` clears the error and leaves `isLoading` unchanged. |
| ErrorHook.Begin | src/hooks/useErrorBoundary.js:13-14 | Before awaiting, `isLoading` is true and the error is cleared. |
| ErrorHook.ErrorText | src/hooks/useErrorBoundary.js:18 | The recorded text is the reason's message when that is a non-empty string, and the default text otherwise; it is never empty. |
| ErrorHook.SettleAsWritten | src/hooks/useErrorBoundary.js:15-22 | As written, `isLoading` ends false, but a nullish reason records nothing and a TypeError propagates instead. |
| ErrorHook.NullishRejectionRecordsNothing | src/hooks/useErrorBoundary.js:18 | A call rejected with `undefined` ends in the initial state, with a TypeError thrown. |
| ErrorHook.Settle | src/hooks/useErrorBoundary.js:15-22 | The corrected completion returns a resolved value with the error untouched. A rejection records its message or the default, and rethrows the original reason. `isLoading` ends false either way. |
| ErrorHook.SettleAgreesOffNullish | src/hooks/useErrorBoundary.js:15-22 | The corrected and as-written completions agree on every outcome except a nullish rejection. |
| ErrorHook.HandleAsyncOutcomes | src/hooks/useErrorBoundary.js:11-23 | A call never leaves `isLoading` true. It leaves no error exactly when it resolved, and then returns the value. A rejection records a non-empty message and rethrows the reason. |
| ErrorHook.ResetAfterCall | src/hooks/useErrorBoundary.js:7-9 | Resetting after any call gives the initial state. |
| ErrorHook.OverlappingCallsLowerFlagEarly | src/hooks/useErrorBoundary.js:13-21 | With two calls in flight, the first to settle lowers `isLoading` while the other is still awaiting. |

## Findings

| source | as written | input that shows it | evidently intended | confidence | as-written member | corrected member |
|---|---|---|---|---|---|---|
| src/sections/Navbar.jsx:160 | A navigation link's click sets `isOpen` to false but neither reverses the panel timeline nor the burger-icon timeline. | Open the menu with the burger, then click any link. The panel stays slid in while the state says closed, and the next burger click plays the finished timeline again instead of closing it. | Close the menu the way `toggleMenu` does, by reversing both timelines. | not executed; high | Navbar.LinkClickAsWritten | Navbar.LinkClick |
| src/hooks/useErrorBoundary.js:18 | The catch block reads `err.message` on whatever was thrown. | An async function that rejects with `undefined`, e.g. `() => Promise.reject()`. Reading the message throws a TypeError, so no error is recorded and the TypeError replaces the original reason. | Record the default message and rethrow the original reason. | not executed; medium | ErrorHook.SettleAsWritten | ErrorHook.Settle |
| src/sections/About.jsx:43-131 | The effect's cleanup is returned from a `useGSAP` call with the dependency list `[activeTab]` and default settings, so it runs only at unmount, not on a tab change. The teardown loop only catches triggers on elements the refs still hold. | Switch to the timeline tab and back to skills. The timeline items unmount, their ref slots become `null`, and the trigger on the first item is never killed. Every visit to the timeline tab adds one more. | Kill the previous run's triggers on every tab change (`revertOnUpdate: true`). | not executed; medium | About.SetTabAsWritten | About.SetTab |

`Navbar.LinkClickLeavesPanelOpen` exhibits the first discrepancy, and `Navbar.RunStaysInSync` proves the corrected behaviour. `ErrorHook.NullishRejectionRecordsNothing` exhibits the second, and `ErrorHook.HandleAsyncOutcomes` proves the corrected behaviour. `About.StaleTimelineTriggerSurvives` exhibits the third, and `About.SetTab`'s `NoStaleTriggers` postcondition proves the corrected behaviour. `Navbar.Step` uses the corrected link click, and `ErrorHook.HandleAsync` uses the corrected completion.

## Left out

- GSAP tweens, timelines and ScrollTrigger internals: easings, durations, staggers, clip paths, `quickTo` and the marquee's time scale. Only the existence of triggers and the play/reverse direction of the menu timelines are modelled, because the rest is a third-party animation engine.
- DOM and browser APIs:
  - `getBoundingClientRect`, `scrollY`, `innerHeight` and `innerWidth` are inputs to the events;
  - intersection observer geometry is reduced to the `isIntersecting` flag of an entry;
  - smooth scrolling, focus handling and the media query's evaluation are not modelled.
- Timers and intervals: each firing is an explicit event, and wall-clock delays are not modelled.
- `Math.random`: the loading increment is a parameter of each tick in [0, 15).
- LoadingScreen.Step: termination of the loading sequence is not proved, because an increment of 0 is possible.
- Navbar.ScrollProgress: real arithmetic stands in for double-precision floating point, and NaN and the infinities are one `NonFinite` value.
- LoadingScreen.Displayed: the percentage text's `Math.round` is not modelled; the bar width is.
- Text.Lower: only ASCII letters are lower-cased, whereas `toLowerCase` also folds other scripts. Skill names are compared under this approximation.
- Contact.OnSubmit: the browser's `type="email"` format check is not modelled; only the `required` non-empty check gates submission.
- Contact: the fixed `isAvailable` flag, the social links and the marquee are static content. They are not modelled.
- Skills: pause-on-hover, the loading animation flag and the text of the selected-skill detail panel are presentation. They are not modelled. The React `key` built from the skill name is not modelled; the selection key is.
- Projects: `handleMouseMove` and the preview's position only feed the animation engine. They are not modelled.
- About: the CV modal and the text content are not modelled, because they hold no logic. The cleanup's timing follows the documented defaults of `useGSAP` from `@gsap/react`, which is not part of this model.
- usePerformanceMonitor.js: only `useLazyLoading` is modelled. The metrics collection reads `performance` timing and memory, which are browser APIs.
- Hero.jsx, SkipToContent.jsx, ErrorBoundary.jsx, LoadingSpinner.jsx and constants/index.js are pure presentation, lifecycle plumbing or static data. They are not part of this model. AnimatedHeaderSection, AnimatedTextLines, Marquee, ServiceSummary and ContactSummary are not part of this model either.
