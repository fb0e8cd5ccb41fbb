# Stills carousel and inspection deterrent, modelled in Dafny

This project models the two pieces of client-side logic of a marketing site.

- **The mobile stills carousel** (`carousel.dfy`, module `Carousel`). It is the class
  `StillsCarousel`, with the fields of `MobileStillsCarousel` in carasoul.js:
  - `currentIndex`, the fixed `totalItems`, `isAnimating` and `isMobile`;
  - the rendered state the page shows: whether the mobile wrapper exists, the strip's
    `translateX` transform, the active flag of every indicator dot (an `array<bool>`), and
    whether the prev/next buttons are dimmed.

  It models these parts of `MobileStillsCarousel`: `CheckMobile`, the resize listener
  (`OnResize`), `SetupMobileCarousel`, `UpdateCarousel`, `NextSlide`, `PrevSlide`, `GoToSlide`,
  `ResetDesktopLayout`, `HandleSwipe` (which the touchend listener calls) and the keydown
  listener (`KeyDown`). The constructor folds in `init`; `setupEventListeners`,
  `addTouchSupport` and `addKeyboardSupport` only register listeners and are left out. The 350 ms cooldown timer becomes a counter of scheduled callbacks,
  `pendingTimers`, and an explicit `AnimationDone` transition that may run only while one
  is pending. `Valid()` keeps the index in `[0, totalItems)` and the dot array as long as
  the wrapper's dot row. It also keeps `isAnimating ==> pendingTimers > 0`, so the
  navigation guard is always released eventually. `Synced()` (wrapper present exactly in
  mobile mode) holds after construction, and every resize preserves it.
  The index arithmetic (`NextIndex`, `PrevIndex`, `Advance`), the swipe and arrow-key
  decisions (`SwipeCommand`, `ArrowCommand`) and the render state (`SlideOffset`,
  `DotStates`) are pure functions. The methods are proved against them.
- **The inspection deterrent** (`anti_inspect.dfy`, module `AntiInspect`): the decision of
  the keydown handler (F12, Ctrl+Shift+I/J, Ctrl+U/S, with the key-code fallback) and the
  context-menu handler's fixed result, as pure functions.

Two behaviours of the code are kept as written:
- `goToSlide` has no range check in the code. An index outside `[0, totalItems)` would be
  stored as is; it is not rejected. Its only callers are the dots, which pass their own
  position, so `GoToSlide` requires an index in range.
- The swipe's vertical limit is the same 50 px as the horizontal threshold.

## Model

| member | source | states |
|---|---|---|
| Carousel.MobileWidthBoundary | carasoul.js:23-25 | mobile mode holds for every width at or below the breakpoint and none above; 768 is mobile and 769 is not |
| Carousel.StillsCarousel.CheckMobile | carasoul.js:23-25 | the mobile flag becomes exactly "width ≤ 768", and no other field changes |
| Carousel.StillsCarousel.constructor | carasoul.js:2-21 | starts at index 0 and not animating; the mobile flag is set from the width; in mobile mode the wrapper is built and slide 0 is rendered with the cooldown armed; otherwise nothing is transformed |
| Carousel.StillsCarousel.OnResize | carasoul.js:29-40 | acts only when the mobile flag flips. Entering mobile builds the wrapper if absent and renders the current slide. Leaving mobile removes the wrapper, resets the index to 0 and clears the transform, and leaves the cooldown flag and button dimming alone. Wrapper-present-iff-mobile is preserved |
| Carousel.StillsCarousel.SetupMobileCarousel | carasoul.js:43-92 | does nothing outside mobile mode. Otherwise it builds a fresh dot row only when no wrapper exists (an existing one is reused), then renders the current slide |
| Carousel.StillsCarousel.UpdateCarousel | carasoul.js:168-196 | does nothing outside mobile mode. Otherwise it sets the cooldown flag and schedules one more callback. It shows the current slide: transform `-index*100`, exactly the dot at the index active, prev dimmed iff at the first item, next dimmed iff at the last. Reapplying it to a slide already shown leaves the rendering unchanged |
| Carousel.StillsCarousel.AnimationDone | carasoul.js:193-195 | the scheduled callback clears the cooldown flag and touches nothing else |
| Carousel.StillsCarousel.NextSlide | carasoul.js:150-154 | during the cooldown or outside mobile mode nothing changes. Otherwise the index becomes `NextIndex` of the old one and that slide is rendered |
| Carousel.StillsCarousel.PrevSlide | carasoul.js:156-160 | during the cooldown or outside mobile mode nothing changes. Otherwise the index becomes `PrevIndex` of the old one and that slide is rendered |
| Carousel.StillsCarousel.GoToSlide | carasoul.js:162-166 | ignored during the cooldown, outside mobile mode, and for the slide already shown (the cooldown is not armed then). Otherwise it moves to the given index and renders it |
| Carousel.StillsCarousel.ResetDesktopLayout | carasoul.js:198-210 | removes the wrapper and its dots, clears the transform, and sets the index to 0. The mobile flag, the cooldown and the last button dimming are left as they were |
| Carousel.StillsCarousel.HandleSwipe | carasoul.js:135-148 | performs exactly the command `SwipeCommand` picks for the touch: at most one navigation |
| Carousel.StillsCarousel.KeyDown | carasoul.js:121-131 | only in mobile mode with focus inside the wrapper: ArrowLeft performs `previous` and ArrowRight `next`, and only those keys have their default prevented. Any other key, or a key outside that mode, changes nothing |
| Carousel.NextIndex | carasoul.js:152 | the index after `next` stays in range. It is the successor, except that the last item wraps to 0 |
| Carousel.PrevIndex | carasoul.js:158 | the index after `previous` stays in range and is the predecessor modulo the item count, so 0 maps to the last item |
| Carousel.PrevUndoesNext | carasoul.js:150-160 | `previous` after `next`, and `next` after `previous`, give back the original index |
| Carousel.Advance | carasoul.js:152 | any number of `next` steps keeps the index in range |
| Carousel.AdvanceWithinRound | carasoul.js:152 | k `next` steps that do not pass the last item add k to the index |
| Carousel.AdvanceSplit | carasoul.js:152 | a + b `next` steps equal a steps followed by b steps |
| Carousel.AdvancePastEnd | carasoul.js:152 | steps that pass the last item continue from item 0 |
| Carousel.FullCycleReturns | carasoul.js:150-154 | exactly `totalItems` `next` steps return to the start, and no smaller positive number of steps does |
| Carousel.SwipeCommand | carasoul.js:135-148 | the touch issues Next iff it moves left by more than 50 with vertical travel under 50. It issues Prev iff it moves right by more than 50 under the same vertical limit |
| Carousel.SwipeAtThresholdIgnored | carasoul.js:141 | a horizontal travel of exactly 50, in either direction, issues nothing |
| Carousel.VerticalScrollIgnored | carasoul.js:138-141 | a vertical travel of 50 or more issues nothing, whatever the horizontal travel |
| Carousel.ArrowCommand | carasoul.js:123-130 | ArrowLeft maps to Prev, ArrowRight maps to Next, and every other key maps to nothing |
| Carousel.SlideOffset | carasoul.js:174 | the strip offset for a valid index is never positive |
| Carousel.OnlyCurrentSlideInView | carasoul.js:174-175 | under the offset of a given index, only the slide at that index sits at the viewport's left edge |
| Carousel.DotStates | carasoul.js:178-181 | one flag per dot, and a dot is active exactly when its position is the index |
| Carousel.ActiveCountOfPrefix | carasoul.js:178-181 | among the first m dots, one is active if the index is below m and none otherwise |
| Carousel.ExactlyOneDotActive | carasoul.js:178-181 | with a valid index, exactly one dot is active |
| Carousel.NextThenPrevRestores | carasoul.js:150-160 | an accepted `next`, its cooldown, then `previous` bring the carousel back to its slide, rendered |
| Carousel.NextAfterCooldown | carasoul.js:150-154 | after the pending cooldown callback runs, `next` is accepted, moves one slide forward and renders it, and the number of pending callbacks is what it was |
| Carousel.CycleThroughAll | carasoul.js:150-154 | from an idle carousel in mobile mode, `totalItems` accepted `next` commands, each followed by its cooldown callback, return to the starting slide, rendered there and idle again with the same number of pending callbacks |
| Carousel.FourStillsOnPhone | carasoul.js:150-166 | with four stills on a phone: three `next`s reach index 3 and a fourth wraps to 0. A `next` during the cooldown leaves the index at 0. A dot click on the shown slide after the cooldown leaves the carousel idle with no callback pending, so it was not accepted |
| Carousel.PhoneToDesktop | carasoul.js:29-40 | for four stills at width 768, from any of the four slides, widening the window to 769 returns to index 0, clears the transform and removes the wrapper |
| AntiInspect.ToUint16 | utils.js:17 | the code unit String.fromCharCode takes is the argument modulo 2^16, and codes below 2^16 are kept |
| AntiInspect.NormalizeKey | utils.js:17 | a non-empty key name is used as is. Otherwise the result is the single UTF-16 code unit congruent to the key code modulo 2^16 |
| AntiInspect.IsBlocked | utils.js:21-25 | F12 by name is always blocked. Ctrl+Shift with I/i/J/j is blocked, and so is Ctrl with U/u/S/s. Without Ctrl only F12 is blocked, and every block is one of these cases |
| AntiInspect.OnKeyDown | utils.js:14-29 | the default is prevented, propagation is stopped and `false` is returned exactly for blocked keystrokes |
| AntiInspect.OnContextMenu | utils.js:9-12 | always prevents the menu and returns `false`, without stopping propagation |
| AntiInspect.F12AlwaysBlocked | utils.js:22 | F12 is blocked whatever the Ctrl and Shift state |
| AntiInspect.DevToolsShortcutsBlocked | utils.js:23 | Ctrl+Shift+I and Ctrl+Shift+J are blocked in either letter case |
| AntiInspect.SourceAndSaveShortcutsBlocked | utils.js:24 | Ctrl+U and Ctrl+S are blocked in either letter case, with or without Shift |
| AntiInspect.DevToolsLettersNeedShift | utils.js:21-25 | Ctrl+I and Ctrl+J without Shift are not blocked |
| AntiInspect.KeyCodeFallback | utils.js:17 | with no key name, key codes 73, 74, 105 and 106 under Ctrl+Shift are blocked as I, J, i and j. Codes 85, 83, 117 and 115 under Ctrl are blocked as U, S, u and s |
| AntiInspect.KeyNameOverridesKeyCode | utils.js:17 | when a key name is present the key code does not affect the decision |
| AntiInspect.F12ByKeyCodeNotBlocked | utils.js:17-22 | F12's key code alone (123, which is "{") is not blocked under any modifiers |
| AntiInspect.NothingButF12WithoutCtrl | utils.js:21-25 | without Ctrl, a key other than F12 passes untouched |

## Left out

- DOM construction and wiring are reduced to the `wrapperExists` flag and the rendered
  fields. This covers creating the wrapper, buttons, aria labels and dots, moving the grid
  into and out of the wrapper, the element lookups, and registering listeners and their
  passive options.
- Listener registration is not modelled. The touch and keydown listeners are registered
  again every time the wrapper is rebuilt, so after repeated resizes one event reaches
  several copies of a listener. The copies after the first find the cooldown flag set, so
  they change nothing; the model gives each event one delivery.
- The keydown listener exists only once a wrapper has been built. Before that the
  mobile flag is false, so `KeyDown` does nothing there as well.
- Real time is not modelled: the 350 ms delay is replaced by the explicit `AnimationDone`
  transition, which can run whenever a callback is pending.
- The opacity strings "0.6" and "1" are the booleans `prevDimmed` and `nextDimmed`.
  A freshly built button has no opacity set, which is modelled as not dimmed.
- The `translateX(...%)` string is the integer percent inside `TranslateX`. The empty
  transform is `Untransformed`.
- Carousel.StillsCarousel.constructor: requires at least one still. With none, the code
  computes `(0 + 1) % 0` (NaN) in `nextSlide` and an index of -1 in `prevSlide`.
- Carousel.StillsCarousel.GoToSlide: requires an index in range, which its only callers
  (the dots) always pass; the code itself would store any index.
- Carousel.SwipeCommand: touch coordinates are exact reals; floating-point rounding of
  the subtraction is not modelled.
- AntiInspect.NormalizeKey: a key code is an integer, and a missing one is 0. NaN and
  fractional codes are not modelled.
- The page-load bootstrap that builds the carousel is not modelled, and neither is the
  menu toggle and scroll shadow script (script.js is not part of this model). Both are
  bare reactions to DOM events.
- Attaching and detaching the deterrent's handlers is not modelled. That covers the
  `readyState` check and the exposed enable/disable object, whose `isEnabled` field is
  never updated. All of this is listener plumbing.
- The deterrent's try/catch, which returns `true` when the host throws, is not modelled;
  it depends on host exceptions.
