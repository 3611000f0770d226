/**
 The page container itself: a view group of four child pages that a touch
 gesture scrolls along one axis at a time, recycling a page from one end of
 the strip to the other whenever the scroll offset leaves it.

 The object's fields are updated in place, as the widget does; State() reads
 them as a ScrollState.ViewState. AddPrePage, AddNextPage, Down, Move and Up
 are proved to have the effect of the ScrollState function of the same name,
 and RecycleViewHorizontal and RecycleViewVertical that of
 ScrollState.RecycleHorizontal and ScrollState.RecycleVertical; the properties
 of those effects are proved there. The host operations (RemoveViewAt, AddView,
 ScrollBy) and MovePageHorizontal and MovePageVertical state their effect on
 the fields directly.
 */
module Rotate3d {
  import opened Wrappers
  import opened PageMath
  import opened ScrollState

  class Rotate3dView<V> {
    var children: seq<V>
    var width: nat
    var height: nat
    var scrollX: int
    var scrollY: int
    var dir: ScrollDir
    var downX: int
    var downY: int
    var settle: Option<Settle>

    /** The recycling window always holds four pages. */
    ghost predicate Valid()
      reads this
    {
      |children| == 4
    }

    function State(): ViewState<V>
      reads this
    {
      ViewState(children, width, height, scrollX, scrollY, dir, downX, downY, settle)
    }

    /** A container with the given four pages, measured at the given size,
        unscrolled and with no gesture in progress. */
    constructor (pages: seq<V>, width: nat, height: nat)
      requires |pages| == 4
      ensures Valid()
      ensures State() == ViewState(pages, width, height, 0, 0, NoneScroll, 0, 0, None)
    {
      children := pages;
      this.width := width;
      this.height := height;
      scrollX, scrollY := 0, 0;
      dir := NoneScroll;
      downX, downY := 0, 0;
      settle := None;
    }

    // -------------------------------------------------------------------
    // The host's child list and scroll position
    // -------------------------------------------------------------------

    method RemoveViewAt(i: nat)
      requires i < |children|
      modifies this`children
      ensures children == old(children[..i] + children[i + 1..])
    {
      children := children[..i] + children[i + 1..];
    }

    method AddView(child: V, i: nat)
      requires i <= |children|
      modifies this`children
      ensures children == old(children[..i]) + [child] + old(children[i..])
    {
      children := children[..i] + [child] + children[i..];
    }

    method ScrollBy(dx: int, dy: int)
      modifies this`scrollX, this`scrollY
      ensures scrollX == old(scrollX) + dx && scrollY == old(scrollY) + dy
    {
      scrollX, scrollY := scrollX + dx, scrollY + dy;
    }

    // -------------------------------------------------------------------
    // Recycling
    // -------------------------------------------------------------------

    method AddPrePage()
      requires Valid()
      modifies this
      ensures Valid()
      ensures State() == ScrollState.AddPrePage(old(State()))
    {
      var child := children[3];
      RemoveViewAt(3);
      AddView(child, 0);
      if dir == Vertical {
        ScrollBy(0, height);
      } else if dir == Horizontal {
        ScrollBy(width, 0);
      }
    }

    method AddNextPage()
      requires Valid()
      modifies this
      ensures Valid()
      ensures State() == ScrollState.AddNextPage(old(State()))
    {
      var child := children[0];
      RemoveViewAt(0);
      AddView(child, 3);
      if dir == Vertical {
        ScrollBy(0, -(height as int));
      } else if dir == Horizontal {
        ScrollBy(-(width as int), 0);
      }
    }

    method RecycleViewHorizontal()
      requires Valid()
      modifies this
      ensures Valid()
      ensures State() == ScrollState.RecycleHorizontal(old(State()))
    {
      if scrollX < 0 {
        AddPrePage();
      } else if scrollX > 3 * width {
        AddNextPage();
      }
    }

    method RecycleViewVertical()
      requires Valid()
      modifies this
      ensures Valid()
      ensures State() == ScrollState.RecycleVertical(old(State()))
    {
      if scrollY < 0 {
        AddPrePage();
      } else if scrollY > 3 * height {
        AddNextPage();
      }
    }

    // -------------------------------------------------------------------
    // Touch events
    // -------------------------------------------------------------------

    method Down(x: int, y: int)
      requires Valid()
      modifies this`downX, this`downY
      ensures Valid()
      ensures State() == ScrollState.Down(old(State()), x, y)
    {
      downX, downY := x, y;
    }

    method Move(x: int, y: int)
      requires Valid()
      modifies this
      ensures Valid()
      ensures State() == ScrollState.Move(old(State()), x, y)
    {
      var deltaX := downX - x;
      var deltaY := downY - y;
      if deltaX == 0 && deltaY == 0 {
        return;
      }
      if Abs(deltaX) > Abs(deltaY) {
        if dir == NoneScroll || dir == Horizontal {
          RecycleViewHorizontal();
          dir := Horizontal;
          scrollY := 0;
          ScrollBy(deltaX, 0);
        }
      } else {
        if dir == NoneScroll || dir == Vertical {
          RecycleViewVertical();
          dir := Vertical;
          scrollX := 0;
          ScrollBy(0, deltaY);
        }
      }
      downX, downY := x, y;
    }

    method Up()
      requires Valid()
      requires dir == Vertical ==> height > 0
      requires dir == Horizontal ==> width > 0
      modifies this
      ensures Valid()
      ensures State() == ScrollState.Up(old(State()))
    {
      if dir == Vertical {
        var scrollValue := SettleValue(scrollY, height);
        MovePageVertical(scrollValue);
      } else if dir == Horizontal {
        var scrollValue := SettleValue(scrollX, width);
        MovePageHorizontal(scrollValue);
      }
      dir := NoneScroll;
    }

    /** Start the settle animation: only its parameters are recorded. */
    method MovePageHorizontal(scrollValue: int)
      modifies this`settle
      ensures settle == Some(Settle(scrollX, 0, scrollValue, 0, SETTLE_DURATION))
    {
      settle := Some(Settle(scrollX, 0, scrollValue, 0, SETTLE_DURATION));
    }

    method MovePageVertical(scrollValue: int)
      modifies this`settle
      ensures settle == Some(Settle(0, scrollY, 0, scrollValue, SETTLE_DURATION))
    {
      settle := Some(Settle(0, scrollY, 0, scrollValue, SETTLE_DURATION));
    }

    // -------------------------------------------------------------------
    // Layout: frames[i] is the frame given to children[i]
    // -------------------------------------------------------------------

    /** Unlocked, only the first page is placed, filling the container;
        locked, the four pages are stacked along the locked axis. */
    method OnLayout() returns (frames: seq<Rect>)
      requires Valid()
      ensures dir == NoneScroll ==> frames == [Rect(0, 0, width, height)]
      ensures dir == Vertical ==> Stacked(frames, width, height, true)
      ensures dir == Horizontal ==> Stacked(frames, width, height, false)
    {
      if dir == NoneScroll {
        frames := [Rect(0, 0, width, height)];
      } else if dir == Vertical {
        frames := OnLayoutVertical();
      } else {
        frames := OnLayoutHorizontal();
      }
    }

    method OnLayoutHorizontal() returns (frames: seq<Rect>)
      requires Valid()
      ensures Stacked(frames, width, height, false)
    {
      frames := [];
      for i := 0 to 4
        invariant |frames| == i
        invariant forall k :: 0 <= k < i ==> frames[k] == Rect(k * width, 0, k * width + width, height)
      {
        var top := 0;
        var left := i * width;
        frames := frames + [Rect(left, top, left + width, top + height)];
      }
      forall k | 0 < k < 4
        ensures frames[k].left == frames[k - 1].right
      {
        assert k * width == (k - 1) * width + width;
      }
    }

    method OnLayoutVertical() returns (frames: seq<Rect>)
      requires Valid()
      ensures Stacked(frames, width, height, true)
    {
      frames := [];
      for i := 0 to 4
        invariant |frames| == i
        invariant forall k :: 0 <= k < i ==> frames[k] == Rect(0, k * height, width, k * height + height)
      {
        var top := i * height;
        var left := 0;
        frames := frames + [Rect(left, top, left + width, top + height)];
      }
      forall k | 0 < k < 4
        ensures frames[k].top == frames[k - 1].bottom
      {
        assert k * height == (k - 1) * height + height;
      }
    }
  }

  /** A client of the class, not part of the widget: a vertical drag of more
      than three pages, one page per move, checked against the methods'
      contracts alone. The last move runs past the end of the strip, so the
      first page is recycled to the back and the offset drops back by one
      page. */
  method DragPastLastPage<V>(pages: seq<V>)
    requires |pages| == 4
  {
    var view := new Rotate3dView(pages, 300, 100);
    view.Down(0, 1000);
    view.Move(0, 900);
    view.Move(0, 800);
    view.Move(0, 700);
    assert view.scrollY == 300 && view.dir == Vertical;
    view.Move(0, 650);
    assert view.scrollY == 350 && view.children == pages;
    view.Move(0, 600);
    assert view.children == [pages[1], pages[2], pages[3], pages[0]];
    assert view.scrollY == 300;
    view.Move(10, 600);
    assert view.scrollY == 300 && view.dir == Vertical;
    view.Up();
    assert view.dir == NoneScroll && view.settle == Some(Settle(0, 300, 0, 0, SETTLE_DURATION));
  }
}
