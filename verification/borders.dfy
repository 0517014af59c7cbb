/**
 * The border-rectangle generator of kitty's window manager (kitty/borders.py).
 *
 * Every frame the generator appends to a shared backend buffer: a zero sentinel,
 * the blank regions in background colour, then for every window a border ring and
 * a padding ring; it then submits the buffer. Later rectangles overdraw earlier ones,
 * so the order is part of the behaviour.
 *
 * Coordinates are pixels; a rectangle (left, top, right, bottom) covers the pixels
 * (x, y) with left <= x < right and top <= y < bottom.
 */
module Borders {

  /** A pixel box without colour: a window geometry or a blank region. */
  datatype Box = Box(left: int, top: int, right: int, bottom: int)

  /** One coloured rectangle, as handed to the backend buffer. */
  datatype Rect = Rect(left: int, top: int, right: int, bottom: int, color: int)

  /** One submission to the renderer: the accumulated rectangles and the viewport size. */
  datatype Submission = Submission(rects: seq<Rect>, viewportWidth: int, viewportHeight: int)

  /** The part of the current layout that the generator reads. */
  datatype Layout = Layout(blankRects: seq<Box>)

  /** The zero rectangle appended first on every frame. */
  const Sentinel := Rect(0, 0, 0, 0, 0)

  function Expand(b: Box, d: int): Box
  {
    Box(b.left - d, b.top - d, b.right + d, b.bottom + d)
  }

  /** The box `b` painted in `color`. */
  function Fill(b: Box, color: int): Rect
  {
    Rect(b.left, b.top, b.right, b.bottom, color)
  }

  predicate InBox(b: Box, x: int, y: int)
  {
    b.left <= x < b.right && b.top <= y < b.bottom
  }

  predicate Covers(r: Rect, x: int, y: int)
  {
    r.left <= x < r.right && r.top <= y < r.bottom
  }

  /** Some rectangle of `rs` paints the pixel (x, y). */
  predicate CoveredBy(rs: seq<Rect>, x: int, y: int)
  {
    exists i :: 0 <= i < |rs| && Covers(rs[i], x, y)
  }

  /** `r` lies entirely on one side of `b`, so no pixel of `b` is painted by `r`. */
  predicate Disjoint(r: Rect, b: Box)
  {
    r.right <= b.left || b.right <= r.left || r.bottom <= b.top || b.bottom <= r.top
  }

  lemma AppendAssoc(a: seq<Rect>, b: seq<Rect>, c: seq<Rect>)
    ensures (a + b) + c == a + (b + c)
  {
  }

  lemma SplitThree(r: seq<Rect>, x: Rect, p: seq<Rect>, q: seq<Rect>, rest: seq<Rect>)
    requires r == [x] + (p + q) + rest
    ensures r[1..1 + |p|] == p && r[1 + |p|..1 + |p| + |q|] == q && r[1 + |p| + |q|..] == rest
  {
  }

  // ---------------------------------------------------------------------------
  // The backend buffer (add_borders_rect / send_borders_rects)
  // ---------------------------------------------------------------------------

  /**
   * The shared rectangle buffer of the rendering backend: `rects` is what has been
   * appended, `submissions` what has been sent for drawing.
   */
  class RectBuffer {
    var rects: seq<Rect>
    var submissions: seq<Submission>

    constructor ()
      ensures rects == [] && submissions == []
    {
      rects := [];
      submissions := [];
    }

    method AddRect(left: int, top: int, right: int, bottom: int, color: int)
      modifies this
      ensures rects == old(rects) + [Rect(left, top, right, bottom, color)]
      ensures submissions == old(submissions)
    {
      rects := rects + [Rect(left, top, right, bottom, color)];
    }

    method Send(viewportWidth: int, viewportHeight: int)
      modifies this
      ensures rects == old(rects)
      ensures submissions == old(submissions) + [Submission(rects, viewportWidth, viewportHeight)]
    {
      submissions := submissions + [Submission(rects, viewportWidth, viewportHeight)];
    }
  }

  // ---------------------------------------------------------------------------
  // Edges and rings
  // ---------------------------------------------------------------------------

  /** A vertical strip `width` wide from `top` to `bottom`, starting at column `left`. */
  method VerticalEdge(buf: RectBuffer, color: int, width: int, top: int, bottom: int, left: int)
    modifies buf
    ensures buf.rects == old(buf.rects) + [Rect(left, top, left + width, bottom, color)]
    ensures buf.submissions == old(buf.submissions)
  {
    buf.AddRect(left, top, left + width, bottom, color);
  }

  /** A horizontal strip `height` high from `left` to `right`, starting at row `top`. */
  method HorizontalEdge(buf: RectBuffer, color: int, height: int, left: int, right: int, top: int)
    modifies buf
    ensures buf.rects == old(buf.rects) + [Rect(left, top, right, top + height, color)]
    ensures buf.submissions == old(buf.submissions)
  {
    buf.AddRect(left, top, right, top + height, color);
  }

  /**
   * The ring of stroke `sz` just inside the outer box (left, top, right, bottom):
   * top edge, bottom edge, left edge, right edge, all in one colour.
   */
  function Ring(color: int, sz: int, left: int, top: int, right: int, bottom: int): (r: seq<Rect>)
    ensures |r| == 4
    ensures forall i :: 0 <= i < |r| ==> r[i].color == color
  {
    [ Rect(left, top, right, top + sz, color),
      Rect(left, bottom - sz, right, bottom, color),
      Rect(left, top, left + sz, bottom, color),
      Rect(right - sz, top, right, bottom, color) ]
  }

  /** Appends one ring: exactly the four rectangles of `Ring`, in its order, and nothing else. */
  method Border(buf: RectBuffer, color: int, sz: int, left: int, top: int, right: int, bottom: int)
    modifies buf
    ensures buf.rects == old(buf.rects) + Ring(color, sz, left, top, right, bottom)
    ensures buf.submissions == old(buf.submissions)
  {
    HorizontalEdge(buf, color, sz, left, right, top);
    HorizontalEdge(buf, color, sz, left, right, bottom - sz);
    VerticalEdge(buf, color, sz, top, bottom, left);
    VerticalEdge(buf, color, sz, top, bottom, right - sz);
  }

  /**
   * A ring paints exactly the outer box minus the inner box shrunk by the stroke:
   * no gap, and nothing outside the outer box.
   */
  lemma RingCoverage(color: int, sz: int, left: int, top: int, right: int, bottom: int, x: int, y: int)
    requires 0 <= sz <= right - left && sz <= bottom - top
    ensures CoveredBy(Ring(color, sz, left, top, right, bottom), x, y) <==>
              InBox(Box(left, top, right, bottom), x, y) &&
              !InBox(Box(left + sz, top + sz, right - sz, bottom - sz), x, y)
  {
    var r := Ring(color, sz, left, top, right, bottom);
    if InBox(Box(left, top, right, bottom), x, y) && !InBox(Box(left + sz, top + sz, right - sz, bottom - sz), x, y) {
      if y < top + sz {
        assert Covers(r[0], x, y);
      } else if bottom - sz <= y {
        assert Covers(r[1], x, y);
      } else if x < left + sz {
        assert Covers(r[2], x, y);
      } else {
        assert Covers(r[3], x, y);
      }
    }
  }

  /**
   * When the stroke fits twice across the box, two different rectangles of one ring
   * share a pixel only inside one of the four corner squares of side `sz`.
   */
  lemma RingOverlapsOnlyAtCorners(color: int, sz: int, left: int, top: int, right: int, bottom: int,
                                  i: int, j: int, x: int, y: int)
    requires 0 <= sz && 2 * sz <= right - left && 2 * sz <= bottom - top
    requires 0 <= i < j < 4
    requires Covers(Ring(color, sz, left, top, right, bottom)[i], x, y)
    requires Covers(Ring(color, sz, left, top, right, bottom)[j], x, y)
    ensures x < left + sz || right - sz <= x
    ensures y < top + sz || bottom - sz <= y
  {
  }

  /** Every rectangle of a ring avoids the inner box, whatever the stroke. */
  lemma RingOutsideInner(color: int, sz: int, left: int, top: int, right: int, bottom: int)
    ensures forall i :: 0 <= i < 4 ==>
              Disjoint(Ring(color, sz, left, top, right, bottom)[i], Box(left + sz, top + sz, right - sz, bottom - sz))
  {
  }

  // ---------------------------------------------------------------------------
  // Blank regions
  // ---------------------------------------------------------------------------

  /** The boxes `bs`, each painted in `color`, in their order. */
  function Painted(bs: seq<Box>, color: int): (r: seq<Rect>)
    ensures |r| == |bs|
    ensures forall i :: 0 <= i < |bs| ==> r[i] == Fill(bs[i], color)
    decreases |bs|
  {
    if bs == [] then [] else Painted(bs[..|bs| - 1], color) + [Fill(bs[|bs| - 1], color)]
  }

  /** Painting two runs of boxes is painting their concatenation. */
  lemma PaintedAppend(a: seq<Box>, b: seq<Box>, color: int)
    ensures Painted(a + b, color) == Painted(a, color) + Painted(b, color)
  {
    var l, r := Painted(a + b, color), Painted(a, color) + Painted(b, color);
    forall i | 0 <= i < |l|
      ensures l[i] == r[i]
    {
      if i >= |a| {
        assert (a + b)[i] == b[i - |a|];
      }
    }
  }

  /** A run of `r` that equals `Painted(bs, color)` holds each box of `bs` in turn. */
  lemma PaintedAt(r: seq<Rect>, offset: nat, bs: seq<Box>, color: int)
    requires offset + |bs| <= |r| && r[offset..offset + |bs|] == Painted(bs, color)
    ensures forall i :: 0 <= i < |bs| ==> r[offset + i] == Fill(bs[i], color)
  {
    forall i | 0 <= i < |bs|
      ensures r[offset + i] == Fill(bs[i], color)
    {
      assert r[offset + i] == r[offset..offset + |bs|][i];
    }
  }

  // ---------------------------------------------------------------------------
  // Windows and the generator
  // ---------------------------------------------------------------------------

  /** A window handle: compared by identity, it carries the geometry of its content area. */
  class Window {
    const geometry: Box

    constructor (geometry: Box)
      ensures this.geometry == geometry
    {
      this.geometry := geometry;
    }
  }

  /** The generator with its pixel widths and packed colours, fixed at construction. */
  class Borders {
    const borderWidth: nat
    const paddingWidth: nat
    const background: int
    const activeBorder: int
    const inactiveBorder: int

    constructor (borderWidth: nat, paddingWidth: nat, background: int, activeBorder: int, inactiveBorder: int)
      ensures this.borderWidth == borderWidth && this.paddingWidth == paddingWidth
      ensures this.background == background
      ensures this.activeBorder == activeBorder && this.inactiveBorder == inactiveBorder
    {
      this.borderWidth := borderWidth;
      this.paddingWidth := paddingWidth;
      this.background := background;
      this.activeBorder := activeBorder;
      this.inactiveBorder := inactiveBorder;
    }

    /** Distance from a window's content edge to the outside of its border. */
    function FrameWidth(): nat
    {
      borderWidth + paddingWidth
    }

    /** The border colour of `w`: chosen by identity with the active window, not by geometry. */
    function BorderColor(w: Window, active: Window?): (c: int)
      ensures w == active ==> c == activeBorder
      ensures w != active ==> c == inactiveBorder
    {
      if w == active then activeBorder else inactiveBorder
    }

    /** Rectangles per window: four for the border ring, four for the padding ring. */
    function RectsPerWindow(drawWindowBorders: bool): nat
    {
      (if borderWidth > 0 && drawWindowBorders then 4 else 0) + (if paddingWidth > 0 then 4 else 0)
    }

    /** What one window contributes: its border ring (if drawn), then its padding ring (if any). */
    function WindowRects(w: Window, active: Window?, drawWindowBorders: bool): (r: seq<Rect>)
      ensures |r| == RectsPerWindow(drawWindowBorders)
    {
      var g, fw, pw := w.geometry, FrameWidth(), paddingWidth;
      (if borderWidth > 0 && drawWindowBorders
       then Ring(BorderColor(w, active), borderWidth, g.left - fw, g.top - fw, g.right + fw, g.bottom + fw)
       else [])
      +
      (if pw > 0
       then Ring(background, pw, g.left - pw, g.top - pw, g.right + pw, g.bottom + pw)
       else [])
    }

    /** What the windows `ws` contribute, window after window: the same count for each. */
    function WindowsRects(ws: seq<Window>, active: Window?, drawWindowBorders: bool): (r: seq<Rect>)
      ensures |r| == |ws| * RectsPerWindow(drawWindowBorders)
      decreases |ws|
    {
      if ws == [] then []
      else WindowsRects(ws[..|ws| - 1], active, drawWindowBorders) + WindowRects(ws[|ws| - 1], active, drawWindowBorders)
    }

    /** Everything one frame appends to the buffer, in order. */
    function FrameRects(windows: seq<Window>, active: Window?, layout: Layout, extraBlankRects: seq<Box>,
                        drawWindowBorders: bool): (r: seq<Rect>)
      ensures |r| >= 1 + |layout.blankRects| + |extraBlankRects| && r[0] == Sentinel
    {
      [Sentinel]
      + Painted(layout.blankRects + extraBlankRects, background)
      + (if FrameWidth() > 0 then WindowsRects(windows, active, drawWindowBorders) else [])
    }

    /** The rings of one window (the body of the per-window loop of the frame). */
    method DrawWindow(buf: RectBuffer, w: Window, active: Window?, drawWindowBorders: bool)
      modifies buf
      ensures buf.rects == old(buf.rects) + WindowRects(w, active, drawWindowBorders)
      ensures buf.submissions == old(buf.submissions)
    {
      var bw, pw := borderWidth, paddingWidth;
      var fw := bw + pw;
      var g := w.geometry;
      if bw > 0 && drawWindowBorders {
        var color := BorderColor(w, active);
        Border(buf, color, bw, g.left - fw, g.top - fw, g.right + fw, g.bottom + fw);
      }
      if pw > 0 {
        var color := background;
        Border(buf, color, pw, g.left - pw, g.top - pw, g.right + pw, g.bottom + pw);
      }
    }

    /** The blank regions, each painted in the background colour, in order. */
    method DrawBlanks(buf: RectBuffer, blanks: seq<Box>)
      modifies buf
      ensures buf.rects == old(buf.rects) + Painted(blanks, background)
      ensures buf.submissions == old(buf.submissions)
    {
      for i := 0 to |blanks|
        invariant buf.rects == old(buf.rects) + Painted(blanks[..i], background)
        invariant buf.submissions == old(buf.submissions)
      {
        var br := blanks[i];
        buf.AddRect(br.left, br.top, br.right, br.bottom, background);
        assert blanks[..i + 1][..i] == blanks[..i];
      }
      assert blanks[..|blanks|] == blanks;
    }

    /** Drawing the first i + 1 windows is drawing the first i, then window i. */
    lemma WindowsRectsStep(ws: seq<Window>, active: Window?, drawWindowBorders: bool, i: int)
      requires 0 <= i < |ws|
      ensures WindowsRects(ws[..i + 1], active, drawWindowBorders) ==
                WindowsRects(ws[..i], active, drawWindowBorders) + WindowRects(ws[i], active, drawWindowBorders)
    {
      assert ws[..i + 1][..i] == ws[..i];
    }

    /** The rings of every window, window after window. */
    method DrawWindows(buf: RectBuffer, windows: seq<Window>, active: Window?, drawWindowBorders: bool)
      modifies buf
      ensures buf.rects == old(buf.rects) + WindowsRects(windows, active, drawWindowBorders)
      ensures buf.submissions == old(buf.submissions)
    {
      assert windows[..0] == [];
      for i := 0 to |windows|
        invariant buf.rects == old(buf.rects) + WindowsRects(windows[..i], active, drawWindowBorders)
        invariant buf.submissions == old(buf.submissions)
      {
        DrawWindow(buf, windows[i], active, drawWindowBorders);
        WindowsRectsStep(windows, active, drawWindowBorders, i);
        AppendAssoc(old(buf.rects), WindowsRects(windows[..i], active, drawWindowBorders),
                    WindowRects(windows[i], active, drawWindowBorders));
      }
      assert windows[..|windows|] == windows;
    }

    /**
     * One frame: the sentinel, the layout's blank rectangles then the extra ones in
     * background colour, the rings of every window when the frame width is positive,
     * then one submission with the viewport size. The viewport size is a parameter here.
     */
    method Draw(buf: RectBuffer, windows: seq<Window>, active: Window?, layout: Layout,
                extraBlankRects: seq<Box>, viewportWidth: int, viewportHeight: int,
                drawWindowBorders: bool := true)
      modifies buf
      ensures buf.rects == old(buf.rects) + FrameRects(windows, active, layout, extraBlankRects, drawWindowBorders)
      ensures buf.submissions == old(buf.submissions) + [Submission(buf.rects, viewportWidth, viewportHeight)]
    {
      buf.AddRect(0, 0, 0, 0, 0);
      DrawBlanks(buf, layout.blankRects + extraBlankRects);
      ghost var painted := Painted(layout.blankRects + extraBlankRects, background);
      ghost var blanked := buf.rects;
      var bw, pw := borderWidth, paddingWidth;
      var fw := bw + pw;
      if fw > 0 {
        DrawWindows(buf, windows, active, drawWindowBorders);
      }
      ghost var windowPart := if fw > 0 then WindowsRects(windows, active, drawWindowBorders) else [];
      assert buf.rects == blanked + windowPart;
      AppendAssoc(old(buf.rects), [Sentinel], painted);
      AppendAssoc(old(buf.rects), [Sentinel] + painted, windowPart);
      buf.Send(viewportWidth, viewportHeight);
    }

    // -------------------------------------------------------------------------
    // Properties of a frame
    // -------------------------------------------------------------------------

    /**
     * A frame is the sentinel, then the painted layout blanks, then the painted extra
     * blanks, then the window part (empty when the frame width is 0).
     */
    lemma FrameParts(windows: seq<Window>, active: Window?, layout: Layout, extraBlankRects: seq<Box>,
                     drawWindowBorders: bool)
      ensures var r, lb, eb := FrameRects(windows, active, layout, extraBlankRects, drawWindowBorders),
                               layout.blankRects, extraBlankRects;
              r[1..1 + |lb|] == Painted(lb, background) &&
              r[1 + |lb|..1 + |lb| + |eb|] == Painted(eb, background) &&
              r[1 + |lb| + |eb|..] == (if FrameWidth() > 0 then WindowsRects(windows, active, drawWindowBorders) else [])
    {
      var lb, eb := layout.blankRects, extraBlankRects;
      var r := FrameRects(windows, active, layout, extraBlankRects, drawWindowBorders);
      var rest := if FrameWidth() > 0 then WindowsRects(windows, active, drawWindowBorders) else [];
      PaintedAppend(lb, eb, background);
      SplitThree(r, Sentinel, Painted(lb, background), Painted(eb, background), rest);
    }

    /**
     * The blank regions come right after the sentinel: first every rectangle of the
     * layout, then every extra rectangle, each once, in order, in background colour.
     */
    lemma BlanksFollowSentinel(windows: seq<Window>, active: Window?, layout: Layout, extraBlankRects: seq<Box>,
                               drawWindowBorders: bool)
      ensures var r, lb, eb := FrameRects(windows, active, layout, extraBlankRects, drawWindowBorders),
                               layout.blankRects, extraBlankRects;
              |r| >= 1 + |lb| + |eb| &&
              (forall i :: 0 <= i < |lb| ==> r[1 + i] == Fill(lb[i], background)) &&
              (forall i :: 0 <= i < |eb| ==> r[1 + |lb| + i] == Fill(eb[i], background))
    {
      var lb, eb := layout.blankRects, extraBlankRects;
      var r := FrameRects(windows, active, layout, extraBlankRects, drawWindowBorders);
      FrameParts(windows, active, layout, extraBlankRects, drawWindowBorders);
      PaintedAt(r, 1, lb, background);
      PaintedAt(r, 1 + |lb|, eb, background);
    }

    /** With neither border nor padding, nothing follows the blank regions. */
    lemma ZeroFrameWidth(windows: seq<Window>, active: Window?, layout: Layout, extraBlankRects: seq<Box>,
                         drawWindowBorders: bool)
      requires borderWidth + paddingWidth == 0
      ensures FrameRects(windows, active, layout, extraBlankRects, drawWindowBorders) ==
                [Sentinel] + Painted(layout.blankRects + extraBlankRects, background)
      ensures |FrameRects(windows, active, layout, extraBlankRects, drawWindowBorders)| ==
                1 + |layout.blankRects| + |extraBlankRects|
    {
    }

    /** The last window of `a + b` is the last window of `b`. */
    lemma WindowsRectsSnoc(a: seq<Window>, b: seq<Window>, active: Window?, drawWindowBorders: bool)
      requires b != []
      ensures WindowsRects(a + b, active, drawWindowBorders) ==
                WindowsRects(a + b[..|b| - 1], active, drawWindowBorders) + WindowRects(b[|b| - 1], active, drawWindowBorders)
    {
      var ab := a + b;
      assert ab[..|ab| - 1] == a + b[..|b| - 1];
    }

    /** Drawing two runs of windows is drawing their concatenation. */
    lemma {:induction false} WindowsRectsAppend(a: seq<Window>, b: seq<Window>, active: Window?, drawWindowBorders: bool)
      ensures WindowsRects(a + b, active, drawWindowBorders) ==
                WindowsRects(a, active, drawWindowBorders) + WindowsRects(b, active, drawWindowBorders)
      decreases |b|
    {
      if b == [] {
        assert a + b == a;
      } else {
        var m := |b| - 1;
        var last := WindowRects(b[m], active, drawWindowBorders);
        WindowsRectsSnoc(a, b, active, drawWindowBorders);
        WindowsRectsAppend(a, b[..m], active, drawWindowBorders);
        assert WindowsRects(b, active, drawWindowBorders) == WindowsRects(b[..m], active, drawWindowBorders) + last;
        AppendAssoc(WindowsRects(a, active, drawWindowBorders), WindowsRects(b[..m], active, drawWindowBorders), last);
      }
    }

    /**
     * Window `k` contributes its own rings right after those of the windows before it
     * and right before those of the windows after it; they start at position k*n of
     * the window part, n being the rectangles per window.
     */
    lemma WindowsRectsAt(ws: seq<Window>, active: Window?, drawWindowBorders: bool, k: int)
      requires 0 <= k < |ws|
      ensures WindowsRects(ws, active, drawWindowBorders) ==
                WindowsRects(ws[..k], active, drawWindowBorders) + WindowRects(ws[k], active, drawWindowBorders)
                + WindowsRects(ws[k + 1..], active, drawWindowBorders)
      ensures |WindowsRects(ws[..k], active, drawWindowBorders)| == k * RectsPerWindow(drawWindowBorders)
    {
      assert ws == ws[..k] + [ws[k]] + ws[k + 1..];
      WindowsRectsAppend(ws[..k] + [ws[k]], ws[k + 1..], active, drawWindowBorders);
      WindowsRectsAppend(ws[..k], [ws[k]], active, drawWindowBorders);
      assert [ws[k]][..0] == [];
    }

    /** A frame holds the sentinel, every blank region, and n rectangles per window. */
    lemma FrameCount(windows: seq<Window>, active: Window?, layout: Layout, extraBlankRects: seq<Box>,
                     drawWindowBorders: bool)
      ensures |FrameRects(windows, active, layout, extraBlankRects, drawWindowBorders)| ==
                1 + |layout.blankRects| + |extraBlankRects| + |windows| * RectsPerWindow(drawWindowBorders)
    {
    }

    /**
     * The border ring of a window has the active colour exactly when the window is the
     * active one (by identity) and the inactive colour otherwise; the padding ring has
     * the background colour. The border ring precedes the padding ring.
     */
    lemma WindowRingColors(w: Window, active: Window?, drawWindowBorders: bool)
      ensures var r := WindowRects(w, active, drawWindowBorders);
              var b := if borderWidth > 0 && drawWindowBorders then 4 else 0;
              (forall i :: 0 <= i < b ==> r[i].color == (if w == active then activeBorder else inactiveBorder)) &&
              (forall i :: b <= i < |r| ==> r[i].color == background)
    {
    }

    /**
     * Two windows with the same geometry but different identities get the same
     * rectangles, except that the active one's border is in the active colour and the
     * other's in the inactive colour.
     */
    lemma IdentityNotGeometry(w1: Window, w2: Window, drawWindowBorders: bool)
      requires w1 != w2 && w1.geometry == w2.geometry
      requires borderWidth > 0 && drawWindowBorders
      ensures var r1, r2 := WindowRects(w1, w1, drawWindowBorders), WindowRects(w2, w1, drawWindowBorders);
              |r1| == |r2| &&
              (forall i :: 0 <= i < |r1| ==> r1[i].(color := r2[i].color) == r2[i]) &&
              r1[0].color == activeBorder && r2[0].color == inactiveBorder
    {
    }

    /** When the two border colours differ, identity alone tells the two windows' rings apart. */
    lemma IdentityDistinguishesRings(w1: Window, w2: Window, drawWindowBorders: bool)
      requires w1 != w2 && w1.geometry == w2.geometry
      requires borderWidth > 0 && drawWindowBorders
      requires activeBorder != inactiveBorder
      ensures WindowRects(w1, w1, drawWindowBorders) != WindowRects(w2, w1, drawWindowBorders)
    {
      IdentityNotGeometry(w1, w2, drawWindowBorders);
    }

    /**
     * Without window borders only padding rings are drawn: every window rectangle is
     * in background colour, four per window when there is padding and none otherwise.
     */
    lemma {:induction false} NoBordersKeepsPadding(ws: seq<Window>, active: Window?)
      ensures var r := WindowsRects(ws, active, false);
              |r| == |ws| * (if paddingWidth > 0 then 4 else 0) &&
              forall i :: 0 <= i < |r| ==> r[i].color == background
      decreases |ws|
    {
      if ws != [] {
        var m := |ws| - 1;
        NoBordersKeepsPadding(ws[..m], active);
        WindowRingColors(ws[m], active, false);
        var front: seq<Rect> := WindowsRects(ws[..m], active, false);
        var last: seq<Rect> := WindowRects(ws[m], active, false);
        assert WindowsRects(ws, active, false) == front + last;
        forall i | 0 <= i < |front| + |last|
          ensures (front + last)[i].color == background
        {
          if i >= |front| {
            assert (front + last)[i] == last[i - |front|];
          }
        }
      }
    }

    /**
     * Nothing a window contributes paints its content area, and its border ring also
     * leaves the padding box (the geometry expanded by the padding width) alone.
     */
    lemma WindowRectsOutsideContent(w: Window, active: Window?, drawWindowBorders: bool)
      ensures var r := WindowRects(w, active, drawWindowBorders);
              (forall i :: 0 <= i < |r| ==> Disjoint(r[i], w.geometry)) &&
              (borderWidth > 0 && drawWindowBorders ==>
                 forall i :: 0 <= i < 4 ==> Disjoint(r[i], Expand(w.geometry, paddingWidth)))
    {
    }

    /**
     * Within one well-formed window the border ring and the padding ring share no
     * pixel, so the order in which the two are appended is invisible.
     */
    lemma WindowRingsDisjoint(w: Window, active: Window?, x: int, y: int)
      requires w.geometry.left <= w.geometry.right && w.geometry.top <= w.geometry.bottom
      requires borderWidth > 0
      ensures var r := WindowRects(w, active, true);
              !(CoveredBy(r[..4], x, y) && CoveredBy(r[4..], x, y))
    {
      var r, g, pw := WindowRects(w, active, true), w.geometry, paddingWidth;
      if CoveredBy(r[4..], x, y) {
        assert r[4..] == Ring(background, pw, g.left - pw, g.top - pw, g.right + pw, g.bottom + pw);
        RingCoverage(background, pw, g.left - pw, g.top - pw, g.right + pw, g.bottom + pw, x, y);
        assert InBox(Expand(g, pw), x, y);
        WindowRectsOutsideContent(w, active, true);
        forall i | 0 <= i < 4
          ensures !Covers(r[..4][i], x, y)
        {
          assert Disjoint(r[i], Expand(g, pw));
        }
      }
    }

    /**
     * Across windows the rings can overlap: with border 1 and padding 2, the right
     * edge of one window's border ring and the left edge of the next window's padding
     * ring, three pixels to the right, both paint the pixel (12, 0).
     */
    lemma NeighbourPaddingOverdrawsBorder(w1: Window, w2: Window, active: Window?)
      requires borderWidth == 1 && paddingWidth == 2
      requires w1.geometry == Box(0, 0, 10, 10) && w2.geometry == Box(13, 0, 23, 10)
      ensures var r1, r2 := WindowRects(w1, active, true), WindowRects(w2, active, true);
              Covers(r1[3], 12, 0) && r1[3].color == BorderColor(w1, active) &&
              Covers(r2[6], 12, 0) && r2[6].color == background
    {
    }

    /**
     * The window part of a frame never paints a window's own content: rectangle j of
     * window k is disjoint from the geometry of window k.
     */
    lemma WindowsOutsideContent(ws: seq<Window>, active: Window?, drawWindowBorders: bool, k: int, j: int)
      requires 0 <= k < |ws| && 0 <= j < RectsPerWindow(drawWindowBorders)
      ensures var n := RectsPerWindow(drawWindowBorders);
              k * n + j < |WindowsRects(ws, active, drawWindowBorders)| &&
              Disjoint(WindowsRects(ws, active, drawWindowBorders)[k * n + j], ws[k].geometry)
    {
      var n := RectsPerWindow(drawWindowBorders);
      WindowsRectsAt(ws, active, drawWindowBorders, k);
      WindowRectsOutsideContent(ws[k], active, drawWindowBorders);
      var before := WindowsRects(ws[..k], active, drawWindowBorders);
      var mine := WindowRects(ws[k], active, drawWindowBorders);
      var after := WindowsRects(ws[k + 1..], active, drawWindowBorders);
      assert (before + mine + after)[|before| + j] == mine[j];
    }

    /**
     * One inactive window at (10, 10, 50, 50) with a 2-pixel border and no padding:
     * the sentinel, then a ring around (8, 8, 52, 52) of stroke 2 in the inactive colour.
     */
    lemma SingleWindowFrame(w: Window, active: Window?)
      requires borderWidth == 2 && paddingWidth == 0
      requires w.geometry == Box(10, 10, 50, 50) && w != active
      ensures FrameRects([w], active, Layout([]), [], true) ==
                [ Sentinel,
                  Rect(8, 8, 52, 10, inactiveBorder), Rect(8, 50, 52, 52, inactiveBorder),
                  Rect(8, 8, 10, 52, inactiveBorder), Rect(50, 8, 52, 52, inactiveBorder) ]
    {
      assert [w][..0] == [];
      assert WindowsRects([w], active, true) == Ring(inactiveBorder, 2, 8, 8, 52, 52);
      assert Painted([] + [], background) == [];
    }
  }
}
