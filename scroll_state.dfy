/**
 The scrolling state of the page container as a value, and the effect of each
 touch event and each recycling step on it. The class Rotate3dView updates the
 same state in place; its methods AddPrePage, AddNextPage, Down, Move and Up
 are each proved to have exactly the effect of the function of the same name
 here, and RecycleViewHorizontal and RecycleViewVertical that of
 RecycleHorizontal and RecycleVertical.

 Vocabulary: the container holds four child pages laid end to end along the
 locked axis, page i occupying [i * page, (i + 1) * page) where `page` is the
 container's height (vertical) or width (horizontal). The scroll offset on that
 axis says which part of the strip the viewport shows. When the offset leaves
 the strip, one page is moved from one end to the other and the offset is
 shifted by one page, so that scrolling never runs out of pages.
 */
module ScrollState {
  import opened Wrappers
  import opened PageMath

  /** The axis a gesture is locked to: mCurrentScrollDir. */
  datatype ScrollDir = NoneScroll | Horizontal | Vertical

  /** Length in milliseconds of the settle animation started on release. */
  const SETTLE_DURATION := 1000

  /** A settle animation handed to the scroller: start position, distance
      and duration. */
  datatype Settle = Settle(startX: int, startY: int, dx: int, dy: int, duration: int)

  datatype ViewState<V> = ViewState(
    children: seq<V>,      // child pages in index order
    width: nat,            // mWidth
    height: nat,           // mHeight
    scrollX: int,
    scrollY: int,
    dir: ScrollDir,        // mCurrentScrollDir
    downX: int,            // last touch position (mDownX, mDownY)
    downY: int,
    settle: Option<Settle> // the last settle animation started
  )

  /** The recycling window: exactly four child pages. */
  predicate Window<V>(s: ViewState<V>)
  {
    |s.children| == 4
  }

  /** Page size and scroll offset along the axis a gesture is locked to. */
  function PageSize<V>(s: ViewState<V>): int
    requires s.dir != NoneScroll
  {
    if s.dir == Vertical then s.height else s.width
  }

  function Offset<V>(s: ViewState<V>): int
    requires s.dir != NoneScroll
  {
    if s.dir == Vertical then s.scrollY else s.scrollX
  }

  /** The child shown at distance `t` from the viewport's leading edge along
      the locked axis, or None where the viewport lies beyond the strip of
      four pages. */
  function ViewAt<V>(s: ViewState<V>, t: int): (v: Option<V>)
    requires Window(s) && s.dir != NoneScroll && PageSize(s) > 0
    ensures v.Some? <==> 0 <= Offset(s) + t < 4 * PageSize(s)
  {
    var p := Offset(s) + t;
    if 0 <= p < 4 * PageSize(s) then
      DivBelow(p, PageSize(s), 4);
      Some(s.children[p / PageSize(s)])
    else None
  }

  /** A point `p` of the scroll axis lies inside frame `r` along that axis. */
  predicate Spans(r: Rect, p: int, vertical: bool)
  {
    if vertical then r.top <= p < r.bottom else r.left <= p < r.right
  }

  /** ViewAt names the child whose frame, in the stacked layout the container
      gives its children while a gesture is locked, covers the point of the
      viewport; where ViewAt names no child, no frame covers the point. */
  lemma ViewAtIsLaidOutChild<V>(s: ViewState<V>, frames: seq<Rect>, t: int, i: nat)
    requires Window(s) && s.dir != NoneScroll && PageSize(s) > 0
    requires Stacked(frames, s.width, s.height, s.dir == Vertical)
    requires i < 4
    ensures Spans(frames[i], Offset(s) + t, s.dir == Vertical) ==> ViewAt(s, t) == Some(s.children[i])
    ensures ViewAt(s, t).None? ==> !Spans(frames[i], Offset(s) + t, s.dir == Vertical)
  {
    var page, p, vertical := PageSize(s), Offset(s) + t, s.dir == Vertical;
    StackedSlot(frames, s.width, s.height, vertical, i);
    assert (i + 1) * page == i * page + page;
    if Spans(frames[i], p, vertical) {
      assert i * page <= p < i * page + page;
      ModUnique(p, page, i, p - i * page);
      MulMonotone(i + 1, 4, page);
    } else if ViewAt(s, t).None? {
      MulMonotone(0, i, page);
      MulMonotone(i + 1, 4, page);
    }
  }

  lemma DivBelow(p: int, page: int, n: int)
    requires page > 0 && 0 <= p < n * page
    ensures 0 <= p / page < n
  {
    if p / page >= n {
      MulMonotone(n, p / page, page);
    }
  }

  function ScrollBy<V>(s: ViewState<V>, dx: int, dy: int): ViewState<V>
  {
    s.(scrollX := s.scrollX + dx, scrollY := s.scrollY + dy)
  }

  // ---------------------------------------------------------------------
  // Recycling
  // ---------------------------------------------------------------------

  /** addPrePage: the last child moves to the front, and the offset on the
      locked axis grows by one page so that the pages already shown stay
      where they were. */
  function AddPrePage<V>(s: ViewState<V>): (r: ViewState<V>)
    requires Window(s)
    ensures Window(r)
    ensures r.children == [s.children[3], s.children[0], s.children[1], s.children[2]]
  {
    var moved := s.children[3];
    var rest := s.children[..3];
    var s' := s.(children := [moved] + rest);
    if s.dir == Vertical then ScrollBy(s', 0, s.height)
    else if s.dir == Horizontal then ScrollBy(s', s.width, 0)
    else s'
  }

  /** addNextPage: the first child moves to the back, and the offset on the
      locked axis shrinks by one page. */
  function AddNextPage<V>(s: ViewState<V>): (r: ViewState<V>)
    requires Window(s)
    ensures Window(r)
    ensures r.children == [s.children[1], s.children[2], s.children[3], s.children[0]]
  {
    var moved := s.children[0];
    var rest := s.children[1..];
    var s' := s.(children := rest + [moved]);
    if s.dir == Vertical then ScrollBy(s', 0, -(s.height as int))
    else if s.dir == Horizontal then ScrollBy(s', -(s.width as int), 0)
    else s'
  }

  function RecycleHorizontal<V>(s: ViewState<V>): (r: ViewState<V>)
    requires Window(s)
    ensures Window(r)
  {
    if s.scrollX < 0 then AddPrePage(s)
    else if s.scrollX > 3 * s.width then AddNextPage(s)
    else s
  }

  function RecycleVertical<V>(s: ViewState<V>): (r: ViewState<V>)
    requires Window(s)
    ensures Window(r)
  {
    if s.scrollY < 0 then AddPrePage(s)
    else if s.scrollY > 3 * s.height then AddNextPage(s)
    else s
  }

  // ---------------------------------------------------------------------
  // Touch events
  // ---------------------------------------------------------------------

  /** ACTION_DOWN: remember where the finger went down. */
  function Down<V>(s: ViewState<V>, x: int, y: int): (r: ViewState<V>)
    ensures r.downX == x && r.downY == y
    ensures r.(downX := s.downX, downY := s.downY) == s
  {
    s.(downX := x, downY := y)
  }

  /** ACTION_MOVE to (x, y). The finger's travel since the last event picks
      an axis (a tie counts as vertical); the gesture scrolls only if it is
      not yet locked or is locked to that axis, in which case the window is
      recycled first, the gesture is locked to the axis, the other offset
      is reset and the travel is added to the offset. */
  function Move<V>(s: ViewState<V>, x: int, y: int): (r: ViewState<V>)
    requires Window(s)
    ensures Window(r)
  {
    var dx := s.downX - x;
    var dy := s.downY - y;
    if dx == 0 && dy == 0 then s
    else
      var s' :=
        if Abs(dx) > Abs(dy) then
          if s.dir == NoneScroll || s.dir == Horizontal then
            var c := RecycleHorizontal(s).(dir := Horizontal, scrollY := 0);
            ScrollBy(c, dx, 0)
          else s
        else
          if s.dir == NoneScroll || s.dir == Vertical then
            var c := RecycleVertical(s).(dir := Vertical, scrollX := 0);
            ScrollBy(c, 0, dy)
          else s;
      s'.(downX := x, downY := y)
  }

  /** ACTION_UP: on a locked gesture start the animation to the nearest page
      boundary; the lock is released in every case. */
  function Up<V>(s: ViewState<V>): (r: ViewState<V>)
    requires s.dir == Vertical ==> s.height > 0
    requires s.dir == Horizontal ==> s.width > 0
    ensures r.dir == NoneScroll
  {
    var s' :=
      if s.dir == Vertical then
        s.(settle := Some(Settle(0, s.scrollY, 0, SettleValue(s.scrollY, s.height), SETTLE_DURATION)))
      else if s.dir == Horizontal then
        s.(settle := Some(Settle(s.scrollX, 0, SettleValue(s.scrollX, s.width), 0, SETTLE_DURATION)))
      else s;
    s'.(dir := NoneScroll)
  }

  // ---------------------------------------------------------------------
  // Properties of recycling
  // ---------------------------------------------------------------------

  /** Moving a page to the front and then back to the end, or the other way
      round, under the same lock, restores the children and both offsets. */
  lemma PagesRoundTrip<V>(s: ViewState<V>)
    requires Window(s)
    ensures AddNextPage(AddPrePage(s)) == s
    ensures AddPrePage(AddNextPage(s)) == s
  {
    assert AddNextPage(AddPrePage(s)).children == s.children;
    assert AddPrePage(AddNextPage(s)).children == s.children;
  }

  /** The scroll compensation of addNextPage and addPrePage: exactly one page
      on the locked axis, nothing on the other, nothing at all when unlocked;
      touch position, lock and settle animation are untouched. */
  lemma RecycleShiftsOnePage<V>(s: ViewState<V>)
    requires Window(s)
    ensures var n, p := AddNextPage(s), AddPrePage(s);
      && n.(children := s.children, scrollX := s.scrollX, scrollY := s.scrollY) == s
      && p.(children := s.children, scrollX := s.scrollX, scrollY := s.scrollY) == s
      && (s.dir == Vertical ==>
            n.scrollY == s.scrollY - s.height && n.scrollX == s.scrollX &&
            p.scrollY == s.scrollY + s.height && p.scrollX == s.scrollX)
      && (s.dir == Horizontal ==>
            n.scrollX == s.scrollX - s.width && n.scrollY == s.scrollY &&
            p.scrollX == s.scrollX + s.width && p.scrollY == s.scrollY)
      && (s.dir == NoneScroll ==> n.scrollX == p.scrollX == s.scrollX && n.scrollY == p.scrollY == s.scrollY)
  {
  }

  /** addNextPage leaves what the viewport shows unchanged wherever it shows
      page 1, 2 or 3, and puts the old page 0 just past the old end of the
      strip: scrolling on past the last page shows the first one again. */
  lemma NextPageKeepsView<V>(s: ViewState<V>, t: int)
    requires Window(s) && s.dir != NoneScroll && PageSize(s) > 0
    ensures var r, page, p := AddNextPage(s), PageSize(s), Offset(s) + t;
      && (page <= p < 4 * page ==> ViewAt(r, t) == ViewAt(s, t))
      && (4 * page <= p < 5 * page ==> ViewAt(r, t) == Some(s.children[0]))
  {
    var r, page, p := AddNextPage(s), PageSize(s), Offset(s) + t;
    assert PageSize(r) == page && Offset(r) + t == p - page;
    if page <= p < 4 * page {
      PageIndexBounds(p, page, 1, 4);
      DivShift(p, page);
      assert ViewAt(r, t) == Some(r.children[p / page - 1]);
    } else if 4 * page <= p < 5 * page {
      PageIndexBounds(p, page, 4, 5);
      DivShift(p, page);
      assert ViewAt(r, t) == Some(r.children[3]);
    }
  }

  /** addPrePage leaves what the viewport shows unchanged wherever it shows
      page 0, 1 or 2, and puts the old page 3 just before the old start of
      the strip: scrolling back past the first page shows the last one. */
  lemma PrePageKeepsView<V>(s: ViewState<V>, t: int)
    requires Window(s) && s.dir != NoneScroll && PageSize(s) > 0
    ensures var r, page, p := AddPrePage(s), PageSize(s), Offset(s) + t;
      && (0 <= p < 3 * page ==> ViewAt(r, t) == ViewAt(s, t))
      && (-page <= p < 0 ==> ViewAt(r, t) == Some(s.children[3]))
  {
    var r, page, p := AddPrePage(s), PageSize(s), Offset(s) + t;
    assert PageSize(r) == page && Offset(r) + t == p + page;
    if 0 <= p < 3 * page {
      PageIndexBounds(p, page, 0, 3);
      DivShift(p + page, page);
      assert ViewAt(r, t) == Some(r.children[p / page + 1]);
    } else if -page <= p < 0 {
      PageIndexBounds(p + page, page, 0, 1);
      assert ViewAt(r, t) == Some(r.children[0]);
    }
  }

  /** An offset between n and m pages lies on a page with index in [n, m). */
  lemma PageIndexBounds(p: int, page: int, n: int, m: int)
    requires page > 0 && n * page <= p < m * page
    ensures n <= p / page < m
  {
    var q := p / page;
    assert p == q * page + p % page;
    if q < n {
      MulMonotone(q, n - 1, page);
    }
    if q >= m {
      MulMonotone(m, q, page);
    }
  }

  /** Shifting an offset by one page shifts its page index by one. */
  lemma DivShift(p: int, page: int)
    requires page > 0
    ensures (p - page) / page == p / page - 1
  {
    var q, r := p / page, p % page;
    assert p - page == (q - 1) * page + r;
    ModUnique(p - page, page, q - 1, r);
  }

  /** Division is determined by the remainder's range. */
  lemma ModUnique(a: int, page: int, q: int, r: int)
    requires page > 0 && 0 <= r < page && a == q * page + r
    ensures a / page == q
  {
    var q0 := a / page;
    assert (q - q0) * page == a % page - r;
    if q - q0 >= 1 {
      MulMonotone(1, q - q0, page);
    } else if q - q0 <= -1 {
      MulMonotone(q - q0, -1, page);
    }
  }

  /** Recycling keeps a locked offset inside the strip: if the offset is at
      most one page outside [0, 3 * page] on the locked axis, it is inside
      it afterwards. */
  lemma RecycleKeepsOffsetInStrip<V>(s: ViewState<V>)
    requires Window(s) && s.dir != NoneScroll
    requires -PageSize(s) <= Offset(s) <= 4 * PageSize(s)
    ensures var r := if s.dir == Vertical then RecycleVertical(s) else RecycleHorizontal(s);
      0 <= Offset(r) <= 3 * PageSize(r)
  {
  }

  /** recycleViewVertical moves the last page to the front only when the
      vertical offset is negative, the first page to the back only when the
      offset is past three pages, and otherwise changes nothing;
      recycleViewHorizontal does the same on the horizontal offset. */
  lemma RecycleOnlyOutsideStrip<V>(s: ViewState<V>)
    requires Window(s)
    ensures s.scrollY < 0 ==> RecycleVertical(s) == AddPrePage(s)
    ensures s.scrollY > 3 * s.height ==> RecycleVertical(s) == AddNextPage(s)
    ensures 0 <= s.scrollY <= 3 * s.height ==> RecycleVertical(s) == s
    ensures s.scrollX < 0 ==> RecycleHorizontal(s) == AddPrePage(s)
    ensures s.scrollX > 3 * s.width ==> RecycleHorizontal(s) == AddNextPage(s)
    ensures 0 <= s.scrollX <= 3 * s.width ==> RecycleHorizontal(s) == s
  {
  }

  // ---------------------------------------------------------------------
  // Properties of the touch events
  // ---------------------------------------------------------------------

  /** A move that did not travel changes nothing, not even the remembered
      touch position. */
  lemma MoveWithoutTravelIsNoOp<V>(s: ViewState<V>)
    requires Window(s)
    ensures Move(s, s.downX, s.downY) == s
  {
  }

  /** A move along the other axis than the one the gesture is locked to only
      updates the remembered touch position. */
  lemma MoveAcrossLockOnlyTracks<V>(s: ViewState<V>, x: int, y: int)
    requires Window(s)
    requires || (s.dir == Vertical && Abs(s.downX - x) > Abs(s.downY - y))
             || (s.dir == Horizontal && Abs(s.downX - x) <= Abs(s.downY - y))
    ensures Move(s, x, y) == s.(downX := x, downY := y)
  {
  }

  /** Once locked, a gesture keeps its axis until the finger is lifted; an
      unlocked gesture is locked by its first move that travels, to the
      horizontal axis exactly when it travelled strictly further
      horizontally than vertically. */
  lemma MoveKeepsLock<V>(s: ViewState<V>, x: int, y: int)
    requires Window(s)
    ensures s.dir != NoneScroll ==> Move(s, x, y).dir == s.dir
    ensures s.dir == NoneScroll && (x, y) != (s.downX, s.downY) ==>
      Move(s, x, y).dir == (if Abs(s.downX - x) > Abs(s.downY - y) then Horizontal else Vertical)
  {
  }

  /** An accepted vertical move: recycle, lock vertically, reset the
      horizontal offset, add the vertical travel. A horizontal move is the
      mirror image. */
  lemma MoveScrollsLockedAxis<V>(s: ViewState<V>, x: int, y: int)
    requires Window(s)
    ensures var dx, dy, r := s.downX - x, s.downY - y, Move(s, x, y);
      && ((dx, dy) != (0, 0) && Abs(dx) <= Abs(dy) && s.dir != Horizontal ==>
            var c := RecycleVertical(s);
            r == c.(dir := Vertical, scrollX := 0, scrollY := c.scrollY + dy, downX := x, downY := y))
      && (Abs(dx) > Abs(dy) && s.dir != Vertical ==>
            var c := RecycleHorizontal(s);
            r == c.(dir := Horizontal, scrollY := 0, scrollX := c.scrollX + dx, downX := x, downY := y))
  {
  }

  /** While a gesture stays locked, a move that travels at most one page keeps
      the offset within one page of the strip, which is the range in which a
      single recycling step restores it (RecycleKeepsOffsetInStrip). */
  lemma MoveKeepsOffsetNearStrip<V>(s: ViewState<V>, x: int, y: int)
    requires Window(s) && s.dir != NoneScroll
    requires -PageSize(s) <= Offset(s) <= 4 * PageSize(s)
    requires Abs(s.downX - x) <= PageSize(s) && Abs(s.downY - y) <= PageSize(s)
    ensures var r := Move(s, x, y);
      -PageSize(r) <= Offset(r) <= 4 * PageSize(r)
  {
    RecycleKeepsOffsetInStrip(s);
  }

  /** Lifting the finger after a locked gesture asks the scroller to move
      the locked offset to the nearest page boundary, leaving the other
      offset where it is; after an unlocked one it starts nothing. In both
      cases the lock is released and nothing else changes. */
  lemma UpSettlesOnBoundary<V>(s: ViewState<V>)
    requires s.dir == Vertical ==> s.height > 0
    requires s.dir == Horizontal ==> s.width > 0
    ensures var r := Up(s);
      && r.(dir := s.dir, settle := s.settle) == s
      && (s.dir == NoneScroll ==> r.settle == s.settle)
      && (s.dir != NoneScroll ==>
            && r.settle.Some?
            && var a := r.settle.value;
            && a.duration == SETTLE_DURATION
            && (s.dir == Vertical ==>
                  a.startX == 0 && a.dx == 0 && a.startY == s.scrollY
                  && (a.startY + a.dy) % s.height == 0 && Abs(a.dy) <= s.height / 2)
            && (s.dir == Horizontal ==>
                  a.startY == 0 && a.dy == 0 && a.startX == s.scrollX
                  && (a.startX + a.dx) % s.width == 0 && Abs(a.dx) <= s.width / 2))
  {
  }

  /** A locked vertical gesture can be released with a negative offset,
      because a move scrolls after it has recycled: a finger moving 30 pixels
      down from offset 10 leaves the offset at -20. There the release branch as written
      would settle by a further -20, to -40, while SettleValue goes to 0. */
  lemma ReleaseBelowStripIsReachable<V>(s: ViewState<V>)
    requires Window(s) && s.dir == Vertical && s.scrollY == 10 && s.height == 100
    ensures var r := Move(s, s.downX, s.downY + 30);
      && r.dir == Vertical && r.scrollY == -20
      && -20 + SettleValueAsWritten(r.scrollY, r.height) == -40
      && Up(r).settle == Some(Settle(0, -20, 0, 20, SETTLE_DURATION))
  {
    SettleAsWrittenMissesBoundary();
  }

  /** The first move of a gesture recycles before it locks the axis, so
      addPrePage then runs unlocked and does not shift the offset: after a
      release at -20 on pages of height 100, a one-pixel upward drag makes
      the point 50 into the viewport show the old last page instead of the
      old first page. */
  lemma FirstMoveRecyclesWithoutCompensation<V>(s: ViewState<V>)
    requires Window(s) && s.dir == Vertical && s.height == 100 && s.scrollY == -20
    ensures var r := Move(Up(s), s.downX, s.downY - 1);
      && r.dir == Vertical && r.scrollY == -19
      && r.children == [s.children[3], s.children[0], s.children[1], s.children[2]]
      && ViewAt(s, 50) == Some(s.children[0])
      && ViewAt(r, 50) == Some(s.children[3])
  {
    var r := Move(Up(s), s.downX, s.downY - 1);
    assert Offset(s) + 50 == 30 && Offset(r) + 50 == 31;
  }
}
