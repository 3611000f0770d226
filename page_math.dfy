/**
 Integer arithmetic of the page container: Java's truncating division, the
 distance to the nearest page boundary computed when a finger is lifted, the
 visibility test and rotation of one page at draw time, and the rectangles
 that lay the four pages end to end.
 */
module PageMath {
  import opened Wrappers

  function Abs(x: int): (r: nat)
    ensures r == x || r == -x
  {
    if x < 0 then -x else x
  }

  /** Java's `a / b` for a positive divisor: the quotient is truncated toward
      zero, so the remainder keeps the sign of the dividend (Dafny's own `/`
      floors instead, which differs when `a` is negative). */
  function TruncDiv(a: int, b: int): (q: int)
    requires b > 0
    ensures a >= 0 ==> 0 <= a - q * b < b
    ensures a < 0 ==> -b < a - q * b <= 0
  {
    if a >= 0 then a / b else -((-a) / b)
  }

  // ---------------------------------------------------------------------
  // Settling on a page boundary (ACTION_UP)
  // ---------------------------------------------------------------------

  /** The signed scroll distance from `scroll` to the nearest multiple of
      `page`; on an exact tie the scroll goes back to the lower boundary.
      This is the value the release branch computes for a non-negative
      offset; unlike that code it also lands on a boundary when `scroll`
      is negative (see SettleValueAsWritten). */
  function SettleValue(scroll: int, page: int): (r: int)
    requires page > 0
    ensures (scroll + r) % page == 0
    ensures -(page / 2) <= r < page - page / 2
  {
    var delta := scroll % page;
    var m := scroll / page;
    assert scroll == m * page + delta;
    if delta > page / 2 then
      assert scroll + (page - delta) == (m + 1) * page;
      ModOfMultiple(m + 1, page);
      page - delta
    else
      ModOfMultiple(m, page);
      -delta
  }

  /** The release branch exactly as written: the remainder is taken of the
      ABSOLUTE offset, `Math.abs(scroll) % page`. */
  function SettleValueAsWritten(scroll: int, page: int): (r: int)
    requires page > 0
    ensures scroll >= 0 ==> r == SettleValue(scroll, page)
  {
    var delta := Abs(scroll) % page;
    if delta > page / 2 then page - delta else -delta
  }

  /** No page boundary is closer to `scroll` than the one SettleValue
      moves it to. */
  lemma SettleIsNearest(scroll: int, page: int, k: int)
    requires page > 0
    ensures Abs(SettleValue(scroll, page)) <= Abs(k * page - scroll)
  {
    var r := SettleValue(scroll, page);
    var m := (scroll + r) / page;
    assert scroll + r == m * page;
    if k < m {
      MulMonotone(k, m - 1, page);
      assert k * page <= m * page - page;
    } else if k > m {
      MulMonotone(m + 1, k, page);
      assert k * page >= m * page + page;
    }
  }

  /** With a negative offset whose distance past a boundary is neither 0 nor
      exactly half a page, the release branch as written misses every
      boundary: at offset -20 on pages of height 100 it asks for a further
      -20, ending at -40. */
  lemma SettleAsWrittenMissesBoundary()
    ensures SettleValueAsWritten(-20, 100) == -20
    ensures (-20 + SettleValueAsWritten(-20, 100)) % 100 != 0
    ensures SettleValue(-20, 100) == 20
  {
  }

  lemma MulMonotone(a: int, b: int, c: int)
    requires a <= b && c >= 0
    ensures a * c <= b * c
  {
  }

  /** `n * page` is a whole number of pages. */
  lemma ModOfMultiple(n: int, page: int)
    requires page > 0
    ensures (n * page) % page == 0
  {
    var q, r := (n * page) / page, (n * page) % page;
    assert (n - q) * page == r;
    if n - q >= 1 {
      MulMonotone(1, n - q, page);
    } else if n - q <= -1 {
      MulMonotone(n - q, -1, page);
    }
  }

  // ---------------------------------------------------------------------
  // Drawing one page (drawPage)
  // ---------------------------------------------------------------------

  /** What drawPage hands to the camera: a rotation about the horizontal
      axis through (centerX, centerY). */
  datatype PageTransform = PageTransform(degree: int, centerX: int, centerY: int)

  /** The page with the given index occupies [index * height, (index + 1) * height)
      on the vertical axis; it is skipped when the viewport starting at
      `scrollY` does not touch it, and otherwise turned by an angle
      proportional to how far the viewport has scrolled past its top. */
  function DrawPage(scrollY: int, index: int, width: nat, height: int): (t: Option<PageTransform>)
    requires height > 0
    ensures t.None? <==> scrollY > (index + 1) * height || scrollY + height < index * height
    ensures t.Some? ==> -90 <= t.value.degree <= 90
    // the page turns about one of its two horizontal edges, the one inside the viewport
    ensures t.Some? ==> t.value.centerY in {index * height, (index + 1) * height}
    ensures t.Some? ==> scrollY <= t.value.centerY <= scrollY + height
    ensures t.Some? ==> t.value.centerX * 2 <= width < t.value.centerX * 2 + 2
  {
    var top := index * height;
    var bottom := (index + 1) * height;
    if scrollY > bottom || scrollY + height < top then None
    else
      assert bottom == top + height;
      QuarterTurn(scrollY - top, height);
      var degree := TruncDiv(90 * (scrollY - index * height), height);
      var centerX := width / 2;
      var centerY := if scrollY > index * height then (index + 1) * height else index * height;
      Some(PageTransform(degree, centerX, centerY))
  }

  /** The rotation of a drawn page, as a function of how far `d` the viewport
      has scrolled past the page's top: it never exceeds a quarter turn either
      way, it is a full quarter turn exactly when the viewport sits on one of
      the page's outer edges, and it has the sign of `d`. */
  lemma QuarterTurn(d: int, height: int)
    requires height > 0
    requires -height <= d <= height
    ensures var degree := TruncDiv(90 * d, height);
      && -90 <= degree <= 90
      && (degree == 90 <==> d == height)
      && (degree == -90 <==> d == -height)
      && (d >= 0 ==> degree >= 0)
      && (d <= 0 ==> degree <= 0)
  {
    if d >= 0 {
      QuarterTurnForward(d, height);
    } else {
      QuarterTurnForward(-d, height);
      assert TruncDiv(90 * d, height) == -TruncDiv(90 * -d, height);
    }
  }

  lemma QuarterTurnForward(d: int, height: int)
    requires height > 0
    requires 0 <= d <= height
    ensures var degree := TruncDiv(90 * d, height);
      && 0 <= degree <= 90
      && (degree == 90 <==> d == height)
      && (d == 0 ==> degree == 0)
  {
    var q := TruncDiv(90 * d, height);
    assert 0 <= 90 * d - q * height < height;
    if q < 0 {
      MulMonotone(q, -1, height);
    }
    if q > 90 {
      MulMonotone(91, q, height);
    }
    if d == height && q < 90 {
      MulMonotone(q, 89, height);
    }
    if d == 0 && q > 0 {
      MulMonotone(1, q, height);
    }
  }

  /** Once the scroll offset rests on the boundary of page k, that page is
      drawn flat and its neighbours stand edge-on. */
  lemma SettledPageIsFlat(k: int, width: nat, height: int)
    requires height > 0
    ensures DrawPage(k * height, k, width, height) == Some(PageTransform(0, width / 2, k * height))
    ensures DrawPage(k * height, k - 1, width, height) == Some(PageTransform(90, width / 2, k * height))
    ensures DrawPage(k * height, k + 1, width, height) == Some(PageTransform(-90, width / 2, (k + 1) * height))
  {
    assert (k - 1) * height == k * height - height;
    assert (k + 1) * height == k * height + height;
    QuarterTurn(0, height);
    QuarterTurn(height, height);
    QuarterTurn(-height, height);
  }

  // ---------------------------------------------------------------------
  // Laying the pages out (onLayout)
  // ---------------------------------------------------------------------

  /** A child's frame in the container's coordinates. */
  datatype Rect = Rect(left: int, top: int, right: int, bottom: int)

  /** Four frames of the container's size, the first at the origin, each
      starting where the previous one ends along the given axis. */
  ghost predicate Stacked(frames: seq<Rect>, width: int, height: int, vertical: bool)
  {
    && |frames| == 4
    && frames[0].left == 0 && frames[0].top == 0
    && (forall i :: 0 <= i < 4 ==>
          frames[i].right == frames[i].left + width && frames[i].bottom == frames[i].top + height)
    && (forall i :: 0 < i < 4 ==>
          if vertical then frames[i].top == frames[i - 1].bottom && frames[i].left == 0
          else frames[i].left == frames[i - 1].right && frames[i].top == 0)
  }

  /** In a stacked layout child i owns exactly the slot [i * page, (i + 1) * page)
      of the scroll axis. */
  lemma {:induction false} StackedSlot(frames: seq<Rect>, width: int, height: int, vertical: bool, i: nat)
    requires Stacked(frames, width, height, vertical)
    requires i < 4
    ensures vertical ==> frames[i] == Rect(0, i * height, width, (i + 1) * height)
    ensures !vertical ==> frames[i] == Rect(i * width, 0, (i + 1) * width, height)
  {
    if i > 0 {
      StackedSlot(frames, width, height, vertical, i - 1);
    }
  }
}
