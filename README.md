# Rotate3dView: a verified model of the paging logic

`Rotate3dView` is an Android `ViewGroup` that shows four child pages and lets a
touch gesture flip between them, vertically or horizontally, with a 3D rotation
about the page edge. Under the host plumbing (measure specs, canvas, camera,
matrix, scroller, velocity tracker) sits a small integer state machine, and
that is what this project models and proves things about:

- **Direction lock.** `mCurrentScrollDir` is NONE, HORIZONTAL or VERTICAL. A
  MOVE picks an axis by comparing the finger's travel on each axis, with a tie
  counting as vertical. It only scrolls when the gesture is unlocked or locked
  to that axis. An UP releases the lock.
- **Four-page recycling window.** When the scroll offset leaves the strip of
  four pages, `addPrePage`/`addNextPage` move one child from one end of the
  child list to the other. While the gesture is locked to an axis they shift
  the offset on it by one page, so what is on screen does not move and paging
  looks circular and endless. A gesture's first MOVE, however, recycles
  before the lock is set, so the children are reordered with no offset
  compensation (`RecycleShiftsOnePage`) and the page under the finger can
  change (`FirstMoveRecyclesWithoutCompensation`).
- **Settling.** On UP, the distance to a page boundary is handed to the
  scroller. For a non-negative offset it is the nearest boundary; for a
  negative one the computation as written can miss every boundary (see
  Findings).
- **Layout and drawing.** Child *i* gets the slot `[i·page, (i+1)·page)`.
  `drawPage` decides whether a page is visible and at which integer angle it is
  turned.

Files:

- `wrappers.dfy`: `Option`.
- `page_math.dfy` (module `PageMath`): the pure integer expressions.
  - Java's truncating `/`.
  - The settle value.
  - `drawPage`'s visibility test, rotation degree and rotation centre.
  - The frames of the layout.
- `scroll_state.dfy` (module `ScrollState`): the widget's state as a value
  (`ViewState`). It holds one function per operation and the lemmas about them.
  `ViewAt` names the child shown at a given distance into the viewport. It is
  what states that recycling does not change what is on screen.
- `rotate3d_view.dfy` (module `Rotate3d`): the class `Rotate3dView`.
  - Its fields are updated in place, like the widget's.
  - The child list is reordered with `RemoveViewAt`/`AddView`, like the widget
    does.
  - `AddPrePage`, `AddNextPage`, `Down`, `Move` and `Up` are each proved to
    have exactly the effect of the `ScrollState` function of the same name.
  - `RecycleViewHorizontal` and `RecycleViewVertical` are proved to have
    exactly the effect of `ScrollState.RecycleHorizontal` and
    `ScrollState.RecycleVertical`.
  - The host operations `RemoveViewAt`, `AddView` and `ScrollBy`, and
    `MovePageHorizontal`/`MovePageVertical`, state their effect on the fields
    directly.
  - The layout methods loop over the four children.
  - `DragPastLastPage` models no part of the widget. It is a client that
    checks the class's contracts compose: it drives a drag past the last page
    using those contracts alone.

Integer details:

- Java's `/` truncates toward zero and Dafny's does not. The rotation degree
  `90 * (scrollY - index * height) / height` has a numerator that can be
  negative, so it goes through `TruncDiv`.
- The `%` of the settle computation is taken of `Math.abs(...)` and a positive
  page size. There Java's and Dafny's remainders agree.
- Touch coordinates are integers. So the `(int)` casts of the deltas are the
  identity.

## Model

| member | source | states |
|---|---|---|
| `PageMath.TruncDiv` | app/src/main/java/com/zhengzs/rotate3dview/Rotate3dView.java:114 | Java integer division by a positive divisor: the remainder lies in `[0, b)` for a non-negative dividend and in `(-b, 0]` for a negative one, which fixes the quotient uniquely |
| `PageMath.SettleValue` | app/src/main/java/com/zhengzs/rotate3dview/Rotate3dView.java:182-187 | the settle distance takes the offset onto a page boundary (`(scroll + r) % page == 0`) and is at most half a page; an exact tie goes back to the lower boundary |
| `PageMath.SettleValueAsWritten` | app/src/main/java/com/zhengzs/rotate3dview/Rotate3dView.java:182-187 | the release computation exactly as written (`Math.abs(scroll) % page`) agrees with `SettleValue` for every non-negative offset |
| `PageMath.SettleIsNearest` | app/src/main/java/com/zhengzs/rotate3dview/Rotate3dView.java:182-187 | no page boundary `k * page` is closer to the offset than the one the settle value reaches |
| `PageMath.SettleAsWrittenMissesBoundary` | app/src/main/java/com/zhengzs/rotate3dview/Rotate3dView.java:182-183 | at offset -20 with height 100 the code as written settles by -20 to -40, which is not a page boundary, while `SettleValue` settles by +20 to 0 |
| `PageMath.DrawPage` | app/src/main/java/com/zhengzs/rotate3dview/Rotate3dView.java:103-116 | a page is skipped exactly when `scrollY > (index+1)*height` or `scrollY + height < index*height`. A drawn page turns by a degree in [-90, 90]. It turns about its top or bottom edge, whichever lies inside the viewport. The rotation's x centre is half the width |
| `PageMath.QuarterTurn` | app/src/main/java/com/zhengzs/rotate3dview/Rotate3dView.java:114 | for a visible page (`-height <= d <= height`, `d` the scroll past its top), the truncated degree `90*d/height` lies in [-90, 90]. It is ±90 exactly at `d == ±height` and has the sign of `d` |
| `PageMath.SettledPageIsFlat` | app/src/main/java/com/zhengzs/rotate3dview/Rotate3dView.java:103-116 | with the offset at rest on page k's top, page k is drawn flat (degree 0), page k-1 at 90 and page k+1 at -90, each about the edge it shares with the viewport |
| `PageMath.StackedSlot` | app/src/main/java/com/zhengzs/rotate3dview/Rotate3dView.java:75-93 | in four frames stacked end to end from the origin, child i's frame is `(0, i*h, w, (i+1)*h)` vertically and `(i*w, 0, (i+1)*w, h)` horizontally |
| `ScrollState.ViewAt` | app/src/main/java/com/zhengzs/rotate3dview/Rotate3dView.java:75-93 | the child shown at a point of the viewport on the locked axis; there is one exactly when the point lies in the strip `[0, 4*page)` |
| `ScrollState.ViewAtIsLaidOutChild` | app/src/main/java/com/zhengzs/rotate3dview/Rotate3dView.java:75-93 | in the stacked layout, `ViewAt` names child i wherever child i's frame covers the point on the locked axis, and where `ViewAt` names no child no frame covers the point; so the `…KeepsView` lemmas speak of the frames the layout methods produce |
| `ScrollState.AddPrePage` | app/src/main/java/com/zhengzs/rotate3dview/Rotate3dView.java:223-232 | `[a,b,c,d]` becomes `[d,a,b,c]`, still four children |
| `ScrollState.AddNextPage` | app/src/main/java/com/zhengzs/rotate3dview/Rotate3dView.java:234-243 | `[a,b,c,d]` becomes `[b,c,d,a]`, still four children |
| `ScrollState.RecycleHorizontal` | app/src/main/java/com/zhengzs/rotate3dview/Rotate3dView.java:207-213 | keeps the four-page window. `RecycleOnlyOutsideStrip` reads back its three branches; what recycling achieves is proved by `RecycleKeepsOffsetInStrip` and the `…KeepsView` lemmas |
| `ScrollState.RecycleVertical` | app/src/main/java/com/zhengzs/rotate3dview/Rotate3dView.java:215-221 | keeps the four-page window. `RecycleOnlyOutsideStrip` reads back its three branches; what recycling achieves is proved by `RecycleKeepsOffsetInStrip` and the `…KeepsView` lemmas |
| `ScrollState.Down` | app/src/main/java/com/zhengzs/rotate3dview/Rotate3dView.java:140-142 | DOWN records the touch position and changes nothing else |
| `ScrollState.Move` | app/src/main/java/com/zhengzs/rotate3dview/Rotate3dView.java:150-177 | a MOVE keeps the four-page window. `MoveWithoutTravelIsNoOp`, `MoveAcrossLockOnlyTracks` and `MoveScrollsLockedAxis` read back its branches case by case. `MoveKeepsLock` and `MoveKeepsOffsetNearStrip` state the invariants it preserves |
| `ScrollState.Up` | app/src/main/java/com/zhengzs/rotate3dview/Rotate3dView.java:178-202 | UP always leaves the gesture unlocked; what it starts is stated by `UpSettlesOnBoundary` |
| `ScrollState.PagesRoundTrip` | app/src/main/java/com/zhengzs/rotate3dview/Rotate3dView.java:223-243 | under the same lock, `addPrePage` then `addNextPage`, and the reverse, restore the child order and both offsets |
| `ScrollState.RecycleShiftsOnePage` | app/src/main/java/com/zhengzs/rotate3dview/Rotate3dView.java:223-243 | `addNextPage` lowers the locked axis's offset by exactly one page and `addPrePage` raises it by one. The other offset is unchanged. Unlocked, neither offset changes. Nothing but children and offsets changes |
| `ScrollState.NextPageKeepsView` | app/src/main/java/com/zhengzs/rotate3dview/Rotate3dView.java:234-243 | after `addNextPage` every point of the viewport that showed page 1, 2 or 3 shows the same child. The point one page past the old end now shows the old page 0, so the paging is circular |
| `ScrollState.PrePageKeepsView` | app/src/main/java/com/zhengzs/rotate3dview/Rotate3dView.java:223-232 | after `addPrePage` every point of the viewport that showed page 0, 1 or 2 shows the same child. The point one page before the old start now shows the old page 3 |
| `ScrollState.RecycleOnlyOutsideStrip` | app/src/main/java/com/zhengzs/rotate3dview/Rotate3dView.java:207-221 | vertical recycling calls `addPrePage` exactly when `scrollY < 0` and `addNextPage` exactly when `scrollY > 3*height`; otherwise the state is untouched. The horizontal one does the same with `scrollX` and the width |
| `ScrollState.RecycleKeepsOffsetInStrip` | app/src/main/java/com/zhengzs/rotate3dview/Rotate3dView.java:207-243 | with a locked axis and an offset at most one page outside `[0, 3*page]`, recycling brings it into `[0, 3*page]` |
| `ScrollState.MoveWithoutTravelIsNoOp` | app/src/main/java/com/zhengzs/rotate3dview/Rotate3dView.java:151-155 | a MOVE with no travel changes nothing, including the remembered touch position |
| `ScrollState.MoveAcrossLockOnlyTracks` | app/src/main/java/com/zhengzs/rotate3dview/Rotate3dView.java:156-176 | a MOVE whose dominant axis differs from the locked one only updates the remembered touch position (a tie is vertical) |
| `ScrollState.MoveKeepsLock` | app/src/main/java/com/zhengzs/rotate3dview/Rotate3dView.java:156-174 | a locked gesture keeps its axis. An unlocked one is locked by its first MOVE that travels: horizontally exactly when `|dx| > |dy|`, otherwise vertically, so ties go vertical |
| `ScrollState.MoveScrollsLockedAxis` | app/src/main/java/com/zhengzs/rotate3dview/Rotate3dView.java:156-176 | an accepted vertical MOVE recycles first, then locks vertically, zeroes `scrollX`, adds `dy` to `scrollY` and records the touch. The horizontal case is the mirror image |
| `ScrollState.MoveKeepsOffsetNearStrip` | app/src/main/java/com/zhengzs/rotate3dview/Rotate3dView.java:150-221 | during a locked gesture whose moves travel at most one page each, the offset stays within one page of the strip |
| `ScrollState.UpSettlesOnBoundary` | app/src/main/java/com/zhengzs/rotate3dview/Rotate3dView.java:178-202 | UP after a locked gesture starts a 1000 ms animation from the current offset on the locked axis. The animation ends on a page boundary at most half a page away. UP after an unlocked gesture starts nothing. Nothing else changes |
| `ScrollState.FirstMoveRecyclesWithoutCompensation` | app/src/main/java/com/zhengzs/rotate3dview/Rotate3dView.java:158-169 | after a release at offset -20 (height 100), the next gesture's first vertical MOVE runs `addPrePage` while still unlocked. The children become `[d,a,b,c]` and the offset is not shifted, so the point 50 into the viewport shows `d` instead of `a` |
| `ScrollState.ReleaseBelowStripIsReachable` | app/src/main/java/com/zhengzs/rotate3dview/Rotate3dView.java:163-187 | a locked vertical MOVE can leave `scrollY` negative (10 to -20). There the code as written would settle to -40, and the model settles to 0 |
| `Rotate3d.Rotate3dView.constructor` | app/src/main/java/com/zhengzs/rotate3dview/Rotate3dView.java:16-41 | a new container is unscrolled and unlocked, with no settle animation started |
| `Rotate3d.Rotate3dView.AddPrePage` | app/src/main/java/com/zhengzs/rotate3dview/Rotate3dView.java:223-232 | moving child 3 to index 0 and scrolling on the locked axis has exactly the effect of `ScrollState.AddPrePage` |
| `Rotate3d.Rotate3dView.AddNextPage` | app/src/main/java/com/zhengzs/rotate3dview/Rotate3dView.java:234-243 | moving child 0 to index 3 and scrolling back on the locked axis has exactly the effect of `ScrollState.AddNextPage` |
| `Rotate3d.Rotate3dView.RecycleViewHorizontal` | app/src/main/java/com/zhengzs/rotate3dview/Rotate3dView.java:207-213 | updates the fields exactly as `ScrollState.RecycleHorizontal` says |
| `Rotate3d.Rotate3dView.RecycleViewVertical` | app/src/main/java/com/zhengzs/rotate3dview/Rotate3dView.java:215-221 | updates the fields exactly as `ScrollState.RecycleVertical` says |
| `Rotate3d.Rotate3dView.Down` | app/src/main/java/com/zhengzs/rotate3dview/Rotate3dView.java:140-142 | updates the fields exactly as `ScrollState.Down` says |
| `Rotate3d.Rotate3dView.Move` | app/src/main/java/com/zhengzs/rotate3dview/Rotate3dView.java:150-177 | updates the fields exactly as `ScrollState.Move` says and keeps four children |
| `Rotate3d.Rotate3dView.Up` | app/src/main/java/com/zhengzs/rotate3dview/Rotate3dView.java:178-202 | updates the fields exactly as `ScrollState.Up` says |
| `Rotate3d.Rotate3dView.MovePageHorizontal` | app/src/main/java/com/zhengzs/rotate3dview/Rotate3dView.java:245-248 | records a 1000 ms animation from `(scrollX, 0)` by `(scrollValue, 0)` |
| `Rotate3d.Rotate3dView.MovePageVertical` | app/src/main/java/com/zhengzs/rotate3dview/Rotate3dView.java:250-253 | records a 1000 ms animation from `(0, scrollY)` by `(0, scrollValue)` |
| `Rotate3d.Rotate3dView.OnLayout` | app/src/main/java/com/zhengzs/rotate3dview/Rotate3dView.java:63-73 | unlocked, only child 0 is placed, at `(0, 0, width, height)`; locked, the four children are stacked along the locked axis |
| `Rotate3d.Rotate3dView.OnLayoutHorizontal` | app/src/main/java/com/zhengzs/rotate3dview/Rotate3dView.java:75-83 | four frames of the container's size, the first at the origin, each starting at the right edge of the previous one |
| `Rotate3d.Rotate3dView.OnLayoutVertical` | app/src/main/java/com/zhengzs/rotate3dview/Rotate3dView.java:85-93 | four frames of the container's size, the first at the origin, each starting at the bottom edge of the previous one |

## Left out

- `onMeasure` (lines 51-61) only copies the parent's size. The size is a constructor argument (`width`, `height` as naturals), and measuring the children is not modelled.
- The camera, matrix and canvas calls of `drawPage` are float 3D transforms in the host's graphics library. `DrawPage` returns the integer degree and rotation centre that would be handed to them.
- `dispatchDraw` is commented out (lines 96-101), so the widget never calls `drawPage`. `DrawPage` models the function as written and nothing calls it.
- The scroller is not modelled: `computeScroll`, the animation's progress, `invalidate`, `postInvalidate` and `requestLayout`. Starting a settle animation only records its parameters in `settle`, and the offsets do not move towards the target.
- The velocity tracker and the DOWN branch that aborts a running animation (lines 137-138, 143-148). Both are float-valued host animation state. `Down` only records the touch position.
- Touch coordinates are floats in the widget. Here they are integers, so a sub-pixel move is not modelled: the widget sees it as non-zero travel that scrolls by the truncated amount 0.
- Java `int` overflow, including `Math.abs(Integer.MIN_VALUE)`, is not modelled. Offsets and sizes are unbounded integers.
- The `HORIZONTAL_ARRAY`/`VERTICAL_ARRAY` tables (lines 30-35) are never read. The commented-out velocity-biased settle (lines 191-199) is not live code.
- Views themselves are an opaque type parameter `V`. The host's `getChildAt`, `removeViewAt` and `addView` are modelled as operations on the child sequence.
- The widget with fewer than four children is not modelled: `getChildAt(3)` would fail there. Every operation that recycles or lays out requires exactly four children.
- `ScrollState.Up`: for a negative offset it settles with `SettleValue` rather than with the computation as written. See Findings.
- `Rotate3d.Rotate3dView.Up`: for a negative offset it settles with `SettleValue`, not with `Math.abs(scroll) % page` as written. See Findings.

## Findings

| source | as written | input that shows it | evidently intended | confidence | as-written member | corrected member |
|---|---|---|---|---|---|---|
| app/src/main/java/com/zhengzs/rotate3dview/Rotate3dView.java:182-187 | the distance past the last boundary is `Math.abs(scroll) % page`, which misses every boundary for a negative offset whose distance past a boundary is neither 0 nor exactly half a page (at -50 on 100 it still reaches -100) | vertical gesture locked at `scrollY = 10`, `height = 100`; the finger moves 30 px down (offset -20, since a MOVE scrolls after recycling), then UP: settle value -20, target -40 | the settle target is the nearest page boundary: `(scroll + value) % page == 0` and `|value| <= page/2` (here +20, target 0) | medium, not executed | `PageMath.SettleAsWrittenMissesBoundary` | `PageMath.SettleValue` |

The horizontal branch (lines 186-187) has the same defect. `ScrollState.Up` and
`Rotate3d.Rotate3dView.Up` use the corrected `SettleValue`. On every
non-negative offset it agrees with the code as written (`PageMath.SettleValueAsWritten`).
