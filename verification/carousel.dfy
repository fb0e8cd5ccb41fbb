/** The mobile stills carousel: on narrow viewports the grid of stills becomes a
    one-item-at-a-time slider with prev/next buttons, indicator dots, swipe and
    arrow-key navigation. The DOM is reduced to the few values the page shows:
    whether the wrapper exists, the slide transform, the active flag of each dot
    and the dimming of the two buttons. */
module Carousel {

  /** Widest viewport, in CSS pixels, that is still treated as mobile. */
  const MobileMaxWidth := 768

  /** Horizontal travel a swipe must exceed; vertical travel at or above it cancels the swipe. */
  const SwipeThreshold: real := 50.0

  /** Percentage by which the strip moves per slide. */
  const SlideWidthPercent := 100

  // ---------------------------------------------------------------------------
  // Viewport classifier

  predicate IsMobileWidth(width: int) {
    width <= MobileMaxWidth
  }

  /** Mobile mode is a downward-closed range of widths whose last member is 768. */
  lemma MobileWidthBoundary(narrow: int, wide: int)
    requires narrow <= wide
    ensures IsMobileWidth(wide) ==> IsMobileWidth(narrow)
    ensures IsMobileWidth(768) && !IsMobileWidth(769)
  {
  }

  // ---------------------------------------------------------------------------
  // Navigation commands and the index arithmetic behind them

  datatype Command = Next | Prev | NoCommand

  /** The index after `next`: one step forward, wrapping from the last item to the first. */
  function NextIndex(i: int, n: int): (r: int)
    requires 0 <= i < n
    ensures 0 <= r < n
    ensures r == if i == n - 1 then 0 else i + 1
  {
    (i + 1) % n
  }

  /** The index after `previous`: one step back, wrapping from the first item to the last. */
  function PrevIndex(i: int, n: int): (r: int)
    requires 0 <= i < n
    ensures 0 <= r < n
    ensures r == (i + n - 1) % n
  {
    if i == 0 then n - 1 else i - 1
  }

  /** `previous` and `next` undo each other. */
  lemma PrevUndoesNext(i: int, n: int)
    requires 0 <= i < n
    ensures PrevIndex(NextIndex(i, n), n) == i
    ensures NextIndex(PrevIndex(i, n), n) == i
  {
  }

  /** The index after k accepted `next` commands. */
  function Advance(i: int, n: int, k: nat): (r: int)
    requires 0 <= i < n
    ensures 0 <= r < n
    decreases k
  {
    if k == 0 then i else NextIndex(Advance(i, n, k - 1), n)
  }

  /** Within one round, k accepted `next` commands move the index k places forward. */
  lemma {:induction false} AdvanceWithinRound(i: int, n: int, k: nat)
    requires 0 <= i && i + k < n
    ensures Advance(i, n, k) == i + k
  {
    if k > 0 {
      AdvanceWithinRound(i, n, k - 1);
    }
  }

  /** a + b commands are a commands followed by b more. */
  lemma {:induction false} AdvanceSplit(i: int, n: int, a: nat, b: nat)
    requires 0 <= i < n
    ensures Advance(i, n, a + b) == Advance(Advance(i, n, a), n, b)
  {
    if b > 0 {
      AdvanceSplit(i, n, a, b - 1);
    }
  }

  /** k commands with the last item k' steps ahead pass through the first item. */
  lemma AdvancePastEnd(i: int, n: int, k: nat)
    requires 0 <= i < n && n - 1 - i < k
    ensures Advance(i, n, k) == Advance(0, n, k - (n - i))
  {
    var toLast := n - 1 - i;
    AdvanceWithinRound(i, n, toLast);
    AdvanceSplit(i, n, toLast, k - toLast);
    AdvanceSplit(n - 1, n, 1, k - toLast - 1);
  }

  /** As many accepted `next` commands as there are items bring the carousel back to where it
      started, and no smaller positive number does. */
  lemma FullCycleReturns(i: int, n: int)
    requires 0 <= i < n
    ensures Advance(i, n, n) == i
    ensures forall k: nat :: 0 < k < n ==> Advance(i, n, k) != i
  {
    AdvancePastEnd(i, n, n);
    AdvanceWithinRound(0, n, i);
    forall k: nat | 0 < k < n
      ensures Advance(i, n, k) != i
    {
      if i + k < n {
        AdvanceWithinRound(i, n, k);
      } else {
        AdvancePastEnd(i, n, k);
        AdvanceWithinRound(0, n, k - (n - i));
      }
    }
  }

  // ---------------------------------------------------------------------------
  // Swipe decision

  function Abs(x: real): real {
    if x < 0.0 then -x else x
  }

  /** The command a touch that starts at (startX, startY) and ends at (endX, endY) issues:
      a mostly-horizontal swipe longer than the threshold goes forward when the finger
      moves left and back when it moves right; anything else issues nothing. */
  function SwipeCommand(startX: real, endX: real, startY: real, endY: real): (c: Command)
    ensures c == Next <==> startX - endX > SwipeThreshold && Abs(startY - endY) < SwipeThreshold
    ensures c == Prev <==> endX - startX > SwipeThreshold && Abs(startY - endY) < SwipeThreshold
  {
    var diffX := startX - endX;
    var diffY := Abs(startY - endY);
    if Abs(diffX) > SwipeThreshold && diffY < SwipeThreshold then
      if diffX > 0.0 then Next else Prev
    else
      NoCommand
  }

  /** A horizontal travel of exactly the threshold, either way, is not a swipe. */
  lemma SwipeAtThresholdIgnored(startX: real, startY: real, endY: real)
    ensures SwipeCommand(startX, startX - 50.0, startY, endY) == NoCommand
    ensures SwipeCommand(startX, startX + 50.0, startY, endY) == NoCommand
  {
  }

  /** A touch that travels the threshold or more vertically is a scroll, never a swipe. */
  lemma VerticalScrollIgnored(startX: real, endX: real, startY: real, endY: real)
    requires Abs(startY - endY) >= SwipeThreshold
    ensures SwipeCommand(startX, endX, startY, endY) == NoCommand
  {
  }

  /** The arrow keys the carousel listens to: ArrowLeft goes back, ArrowRight forward. */
  function ArrowCommand(key: string): (c: Command)
    ensures c == Prev <==> key == "ArrowLeft"
    ensures c == Next <==> key == "ArrowRight"
  {
    if key == "ArrowLeft" then Prev
    else if key == "ArrowRight" then Next
    else NoCommand
  }

  // ---------------------------------------------------------------------------
  // Render state as a function of the index

  datatype Transform = Untransformed | TranslateX(percent: int)

  /** The strip's horizontal translation, in percent, that shows slide `index`. */
  function SlideOffset(index: int): (percent: int)
    ensures index >= 0 ==> percent <= 0
  {
    -index * SlideWidthPercent
  }

  /** Under the offset for `index`, slide j sits at the left edge of the viewport exactly when j is `index`. */
  lemma OnlyCurrentSlideInView(index: int, j: int)
    ensures j * SlideWidthPercent + SlideOffset(index) == 0 <==> j == index
  {
  }

  /** The active flags of n dots when slide `index` is shown. */
  function DotStates(index: int, n: nat): (dots: seq<bool>)
    ensures |dots| == n
    ensures forall j :: 0 <= j < n ==> (dots[j] <==> j == index)
  {
    seq(n, j => j == index)
  }

  /** Number of active dots. */
  function ActiveCount(dots: seq<bool>): nat {
    if dots == [] then 0 else ActiveCount(dots[..|dots| - 1]) + (if dots[|dots| - 1] then 1 else 0)
  }

  lemma {:induction false} ActiveCountOfPrefix(index: int, m: nat)
    ensures ActiveCount(DotStates(index, m)) == if 0 <= index < m then 1 else 0
  {
    if m > 0 {
      var dots := DotStates(index, m);
      assert dots[..m - 1] == DotStates(index, m - 1);
      ActiveCountOfPrefix(index, m - 1);
    }
  }

  /** When the shown slide is one of the n items, exactly one dot is active. */
  lemma ExactlyOneDotActive(index: int, n: nat)
    requires 0 <= index < n
    ensures ActiveCount(DotStates(index, n)) == 1
  {
    ActiveCountOfPrefix(index, n);
  }

  /** Everything the carousel renders. */
  datatype Rendering = Rendering(transform: Transform, dots: seq<bool>, prevDimmed: bool, nextDimmed: bool)

  // ---------------------------------------------------------------------------
  // The carousel object

  class StillsCarousel {
    /** Number of still items, fixed when the carousel is built. */
    const totalItems: nat
    var currentIndex: int
    /** Set by every render; cleared by the cooldown callback. */
    var isAnimating: bool
    var isMobile: bool
    /** Cooldown callbacks scheduled and not yet run. */
    var pendingTimers: nat
    /** Whether the mobile wrapper (buttons and dots) is in the page. */
    var wrapperExists: bool
    var transform: Transform
    /** Active flag of each indicator dot in the page; empty when there is no wrapper. */
    var dots: array<bool>
    /** Whether the prev/next buttons are shown at reduced opacity. */
    var prevDimmed: bool
    var nextDimmed: bool

    ghost predicate Valid()
      reads this
    {
      totalItems >= 1 &&
      0 <= currentIndex < totalItems &&
      dots.Length == (if wrapperExists then totalItems else 0) &&
      (isAnimating ==> pendingTimers > 0)
    }

    /** The wrapper is in the page exactly in mobile mode. */
    predicate Synced()
      reads this
    {
      wrapperExists == isMobile
    }

    /** A navigation command issued now would be accepted. */
    predicate Accepting()
      reads this
    {
      isMobile && !isAnimating
    }

    ghost function Rendered(): Rendering
      reads this, dots
    {
      Rendering(transform, dots[..], prevDimmed, nextDimmed)
    }

    /** The page shows slide `currentIndex`: the strip offset, the one active dot,
        and (when the buttons exist) the dimming of the button at each end. */
    ghost predicate ShowsCurrent()
      reads this, dots
    {
      transform == TranslateX(SlideOffset(currentIndex)) &&
      dots[..] == DotStates(currentIndex, dots.Length) &&
      (wrapperExists ==> prevDimmed == (currentIndex == 0) && nextDimmed == (currentIndex == totalItems - 1))
    }

    /** The state after an accepted move to `target`: rendered there, cooldown armed, nothing else touched. */
    twostate predicate MovedTo(target: int)
      reads this, dots
    {
      currentIndex == target && isAnimating && pendingTimers == old(pendingTimers) + 1 &&
      isMobile == old(isMobile) && wrapperExists == old(wrapperExists) && dots == old(dots) &&
      ShowsCurrent() &&
      (!wrapperExists ==> prevDimmed == old(prevDimmed) && nextDimmed == old(nextDimmed))
    }

    /** The effect of issuing command c: nothing unless it is a real command and the carousel
        accepts commands, otherwise a move to the neighbouring index. */
    twostate predicate Performed(c: Command)
      requires old(Valid())
      reads this, dots
    {
      if c == NoCommand || !old(Accepting()) then
        unchanged(this) && unchanged(dots)
      else if c == Next then
        MovedTo(NextIndex(old(currentIndex), totalItems))
      else
        MovedTo(PrevIndex(old(currentIndex), totalItems))
    }

    constructor (width: int, itemCount: nat)
      requires itemCount >= 1
      ensures Valid() && Synced() && fresh(dots)
      ensures totalItems == itemCount && currentIndex == 0
      ensures isMobile == IsMobileWidth(width)
      ensures isMobile ==> isAnimating && pendingTimers == 1 && ShowsCurrent()
      ensures !isMobile ==> !isAnimating && pendingTimers == 0 && transform == Untransformed
    {
      totalItems := itemCount;
      currentIndex := 0;
      isAnimating := false;
      isMobile := false;
      pendingTimers := 0;
      wrapperExists := false;
      transform := Untransformed;
      dots := new bool[0];
      prevDimmed, nextDimmed := false, false;
      new;
      CheckMobile(width);
      if isMobile {
        SetupMobileCarousel();
      }
    }

    method CheckMobile(width: int)
      modifies this`isMobile
      ensures isMobile == IsMobileWidth(width)
    {
      isMobile := width <= MobileMaxWidth;
    }

    /** The resize listener: acts only when the width moves the page into or out of mobile mode. */
    method OnResize(width: int)
      requires Valid()
      modifies this, dots
      ensures Valid()
      ensures isMobile == IsMobileWidth(width)
      ensures isMobile == old(isMobile) ==> unchanged(this) && unchanged(dots)
      ensures !old(isMobile) && isMobile ==>
        wrapperExists && currentIndex == old(currentIndex) &&
        isAnimating && pendingTimers == old(pendingTimers) + 1 && ShowsCurrent() &&
        (old(wrapperExists) ==> dots == old(dots))
      ensures old(isMobile) && !isMobile ==>
        !wrapperExists && currentIndex == 0 && transform == Untransformed &&
        isAnimating == old(isAnimating) && pendingTimers == old(pendingTimers) &&
        prevDimmed == old(prevDimmed) && nextDimmed == old(nextDimmed)
      ensures old(Synced()) ==> Synced()
      ensures dots == old(dots) || fresh(dots)
    {
      var wasMobile := isMobile;
      CheckMobile(width);
      if wasMobile != isMobile {
        if isMobile {
          SetupMobileCarousel();
        } else {
          ResetDesktopLayout();
        }
      }
    }

    /** Builds the wrapper and its dots unless a wrapper is already in the page, then renders. */
    method SetupMobileCarousel()
      requires Valid()
      modifies this, dots
      ensures Valid()
      ensures !old(isMobile) ==> unchanged(this) && unchanged(dots)
      ensures old(isMobile) ==>
        wrapperExists && isAnimating && pendingTimers == old(pendingTimers) + 1 && ShowsCurrent() &&
        (old(wrapperExists) ==> dots == old(dots)) && (!old(wrapperExists) ==> fresh(dots))
      ensures isMobile == old(isMobile) && currentIndex == old(currentIndex)
    {
      if !isMobile {
        return;
      }
      if !wrapperExists {
        // fresh buttons start at full opacity; the first dot starts active
        prevDimmed, nextDimmed := false, false;
        var built := new bool[totalItems];
        var i := 0;
        while i < totalItems
          modifies built
          invariant 0 <= i <= totalItems
          invariant forall j :: 0 <= j < i ==> built[j] == (j == 0)
        {
          built[i] := i == 0;
          i := i + 1;
        }
        dots := built;
        wrapperExists := true;
      }
      UpdateCarousel();
    }

    /** Arms the cooldown and renders slide `currentIndex`; does nothing outside mobile mode. */
    method UpdateCarousel()
      requires Valid()
      modifies this, dots
      ensures Valid()
      ensures !old(isMobile) ==> unchanged(this) && unchanged(dots)
      ensures old(isMobile) ==> MovedTo(old(currentIndex))
      ensures currentIndex == old(currentIndex)
      ensures old(isMobile) && old(ShowsCurrent()) ==> Rendered() == old(Rendered())
    {
      if !isMobile {
        return;
      }
      isAnimating := true;
      transform := TranslateX(SlideOffset(currentIndex));
      var i := 0;
      while i < dots.Length
        modifies dots
        invariant 0 <= i <= dots.Length
        invariant forall j :: 0 <= j < i ==> dots[j] == (j == currentIndex)
        invariant forall j :: i <= j < dots.Length ==> dots[j] == old(dots[j])
      {
        dots[i] := i == currentIndex;
        i := i + 1;
      }
      assert dots[..] == DotStates(currentIndex, dots.Length);
      if wrapperExists {
        prevDimmed := currentIndex == 0;
        nextDimmed := currentIndex == totalItems - 1;
      }
      pendingTimers := pendingTimers + 1;
    }

    /** The cooldown callback scheduled by a render. */
    method AnimationDone()
      requires Valid() && pendingTimers > 0
      modifies this`isAnimating, this`pendingTimers
      ensures Valid()
      ensures !isAnimating && pendingTimers == old(pendingTimers) - 1
    {
      isAnimating := false;
      pendingTimers := pendingTimers - 1;
    }

    method NextSlide()
      requires Valid()
      modifies this, dots
      ensures Valid()
      ensures Performed(Next)
    {
      if isAnimating || !isMobile {
        return;
      }
      currentIndex := (currentIndex + 1) % totalItems;
      UpdateCarousel();
    }

    method PrevSlide()
      requires Valid()
      modifies this, dots
      ensures Valid()
      ensures Performed(Prev)
    {
      if isAnimating || !isMobile {
        return;
      }
      currentIndex := if currentIndex == 0 then totalItems - 1 else currentIndex - 1;
      UpdateCarousel();
    }

    /** A dot click. Going to the slide already shown does nothing, not even arm the cooldown. */
    method GoToSlide(index: int)
      requires Valid()
      requires 0 <= index < totalItems
      modifies this, dots
      ensures Valid()
      ensures !old(Accepting()) || index == old(currentIndex) ==> unchanged(this) && unchanged(dots)
      ensures old(Accepting()) && index != old(currentIndex) ==> MovedTo(index)
    {
      if isAnimating || index == currentIndex || !isMobile {
        return;
      }
      currentIndex := index;
      UpdateCarousel();
    }

    /** Leaving mobile mode: removes the wrapper, clears the transform and returns to the first
        item; a cooldown in progress is left to run out. */
    method ResetDesktopLayout()
      requires Valid()
      modifies this
      ensures Valid()
      ensures !wrapperExists && transform == Untransformed && currentIndex == 0
      ensures isMobile == old(isMobile) && isAnimating == old(isAnimating) && pendingTimers == old(pendingTimers)
      ensures prevDimmed == old(prevDimmed) && nextDimmed == old(nextDimmed)
      ensures !old(wrapperExists) ==> dots == old(dots)
      ensures dots == old(dots) || fresh(dots)
    {
      if wrapperExists {
        wrapperExists := false;
        dots := new bool[0];
      }
      transform := Untransformed;
      currentIndex := 0;
    }

    /** The touchend listener. */
    method HandleSwipe(startX: real, endX: real, startY: real, endY: real)
      requires Valid()
      modifies this, dots
      ensures Valid()
      ensures Performed(SwipeCommand(startX, endX, startY, endY))
    {
      var diffX := startX - endX;
      var diffY := Abs(startY - endY);
      if Abs(diffX) > SwipeThreshold && diffY < SwipeThreshold {
        if diffX > 0.0 {
          NextSlide();
        } else {
          PrevSlide();
        }
      }
    }

    /** The keydown listener: arrow keys navigate while in mobile mode with focus inside the
        wrapper, and only then is the key's default action suppressed. */
    method KeyDown(key: string, focusInWrapper: bool) returns (defaultPrevented: bool)
      requires Valid()
      modifies this, dots
      ensures Valid()
      ensures defaultPrevented <==> old(isMobile) && focusInWrapper && ArrowCommand(key) != NoCommand
      ensures Performed(if old(isMobile) && focusInWrapper then ArrowCommand(key) else NoCommand)
    {
      defaultPrevented := false;
      if isMobile && focusInWrapper {
        if key == "ArrowLeft" {
          defaultPrevented := true;
          PrevSlide();
        }
        if key == "ArrowRight" {
          defaultPrevented := true;
          NextSlide();
        }
      }
    }
  }

  // ---------------------------------------------------------------------------
  // Clients: what callers of the carousel can rely on

  /** An accepted `next`, its cooldown, then `previous` brings the carousel back to its slide. */
  method NextThenPrevRestores(c: StillsCarousel)
    requires c.Valid() && c.Accepting()
    modifies c, c.dots
    ensures c.Valid() && c.currentIndex == old(c.currentIndex) && c.ShowsCurrent()
  {
    c.NextSlide();
    c.AnimationDone();
    c.PrevSlide();
    PrevUndoesNext(old(c.currentIndex), c.totalItems);
  }

  /** The cooldown runs out and a `next` follows: the carousel moves one slide forward. */
  method NextAfterCooldown(c: StillsCarousel)
    requires c.Valid() && c.isMobile && c.pendingTimers > 0
    modifies c, c.dots
    ensures c.Valid() && c.isMobile && c.isAnimating && c.dots == old(c.dots)
    ensures c.pendingTimers == old(c.pendingTimers) && c.ShowsCurrent()
    ensures c.currentIndex == NextIndex(old(c.currentIndex), c.totalItems)
  {
    c.AnimationDone();
    c.NextSlide();
  }

  /** From an idle carousel in mobile mode, as many `next` commands as there are stills, each
      followed by its cooldown callback, return to the starting slide, rendered and idle again. */
  method CycleThroughAll(c: StillsCarousel)
    requires c.Valid() && c.Accepting()
    modifies c, c.dots
    ensures c.Valid() && c.Accepting() && c.ShowsCurrent()
    ensures c.currentIndex == old(c.currentIndex) && c.pendingTimers == old(c.pendingTimers)
  {
    var k := 0;
    while k < c.totalItems
      invariant 0 <= k <= c.totalItems
      invariant c.Valid() && c.Accepting() && c.dots == old(c.dots)
      invariant c.pendingTimers == old(c.pendingTimers)
      invariant c.currentIndex == Advance(old(c.currentIndex), c.totalItems, k)
      invariant k > 0 ==> c.ShowsCurrent()
    {
      c.NextSlide();
      c.AnimationDone();
      k := k + 1;
    }
    FullCycleReturns(old(c.currentIndex), c.totalItems);
  }

  /** Four stills on a phone: three `next` commands reach the last one and a fourth wraps to the
      first; a `next` during the cooldown and a dot click on the shown slide are ignored. */
  method FourStillsOnPhone() returns (seen: seq<int>, animatingAfterClick: bool, pendingAfterClick: nat)
    ensures seen == [0, 1, 2, 3, 0, 0, 0]
    ensures !animatingAfterClick && pendingAfterClick == 0
  {
    var c := new StillsCarousel(375, 4);
    seen := [c.currentIndex];
    NextAfterCooldown(c);
    seen := seen + [c.currentIndex];
    NextAfterCooldown(c);
    seen := seen + [c.currentIndex];
    NextAfterCooldown(c);
    seen := seen + [c.currentIndex];
    NextAfterCooldown(c);
    seen := seen + [c.currentIndex];
    c.NextSlide();
    seen := seen + [c.currentIndex];
    c.AnimationDone();
    c.GoToSlide(0);
    seen := seen + [c.currentIndex];
    animatingAfterClick, pendingAfterClick := c.isAnimating, c.pendingTimers;
  }

  /** Widening the window past the breakpoint returns to the first still and clears the transform. */
  method PhoneToDesktop(start: nat) returns (index: int, transform: Transform, wrapper: bool)
    requires start < 4
    ensures index == 0 && transform == Untransformed && !wrapper
  {
    var c := new StillsCarousel(768, 4);
    c.AnimationDone();
    c.GoToSlide(start);
    c.OnResize(769);
    index, transform, wrapper := c.currentIndex, c.transform, c.wrapperExists;
  }
}
