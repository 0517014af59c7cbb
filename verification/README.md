# kitty window borders, modelled in Dafny

This project models the border-rectangle generator of the kitty terminal
(`kitty/borders.py`). On every redraw, `Borders.__call__` appends an ordered list
of coloured rectangles to a buffer shared with the rendering backend. The list
starts with a zero sentinel rectangle. Next come the layout's blank regions and
the extra blank regions, painted in the background colour. Then, for every window,
it holds a border ring and a padding ring. Finally the buffer is submitted with the
viewport size. Later rectangles overdraw earlier ones, so the order is part of the
behaviour.

Everything lives in `borders.dfy`, in module `Borders`:

- `Box`, `Rect`, `Layout` and `Submission` are values. A rectangle `(l, t, r, b)`
  paints the pixels `l <= x < r`, `t <= y < b`.
- `Window` is a class with a constant `geometry`. The test `w is active_window`
  becomes reference equality `w == active`, with `active: Window?` (`null` stands
  for Python's `None`). Two windows with the same geometry are therefore still
  different windows.
- `RectBuffer` is the shared backend buffer. `rects` holds what `add_borders_rect`
  appended. `submissions` records each `send_borders_rects` call as a snapshot of
  the buffer plus the viewport size.
- `VerticalEdge`, `HorizontalEdge` and `Border` are methods that append to that
  buffer, as the Python functions do. `Ring` is the pure function that specifies
  what `Border` appends.
- `Borders` is a class whose `const` fields are the pixel widths and packed colours
  fixed by `__init__`. `Draw` is `__call__`. Its two `for` loops are the methods
  `DrawBlanks` (lines 55-56) and `DrawWindows` (lines 60-76). The per-window body
  (lines 62-76) is the method `DrawWindow`. Each of these methods is proved to
  append exactly what a specification function says: `Painted`, `WindowsRects`,
  `WindowRects` and `FrameRects`. The lemmas then prove the layering, count,
  colour and geometry properties about those functions.

Because `Draw` appends exactly `FrameRects(...)` of its inputs, two calls with the
same inputs append identical rectangle sequences.

Each window's border ring is appended before its padding ring (lines 63-76). For a
window whose geometry is well formed (left <= right, top <= bottom),
`WindowRingsDisjoint` shows that the two rings of that one window share no pixel, so
within a window this order is invisible. Across windows the order is visible. A later
window's padding ring can overdraw an earlier window's border ring. For example, take
border 1 and padding 2, with windows at (0,0,10,10) and (13,0,23,10). Pixel (12,0) then
lies in the right edge of the first window's border ring and in the left edge of the
second window's padding ring (`NeighbourPaddingOverdrawsBorder`).

`Draw` takes `drawWindowBorders` with the default value `true`, as the Python call does
(line 52).

## Model

| member | source | states |
|---|---|---|
| `Borders.VerticalEdge` | kitty/borders.py:16-17 | appends exactly one rectangle: the column of the given width from `left`, spanning `top` to `bottom` |
| `Borders.HorizontalEdge` | kitty/borders.py:20-21 | appends exactly one rectangle: the row of the given height from `top`, spanning `left` to `right` |
| `Borders.Ring` | kitty/borders.py:28-32 | a ring is exactly four rectangles, all in the ring's one colour |
| `Borders.Border` | kitty/borders.py:28-32 | appends exactly the four rectangles of `Ring` (top, bottom, left, right edge, in that order) and nothing else; no submission happens |
| `Borders.RingCoverage` | kitty/borders.py:28-32 | when the stroke fits in the box, a pixel is painted by the ring iff it is inside the outer box and outside the outer box shrunk by the stroke (no gaps, nothing outside) |
| `Borders.RingOverlapsOnlyAtCorners` | kitty/borders.py:28-32 | when the stroke fits twice across the box, two different edges of one ring share only pixels in the four corner squares of side `sz` |
| `Borders.RingOutsideInner` | kitty/borders.py:28-32 | for any stroke, every edge of a ring lies entirely outside the inner box |
| `Borders.Painted` | kitty/borders.py:55-56 | blank regions become exactly one rectangle each, in their order, with the same bounds and the given colour |
| `Borders.RectBuffer.AddRect` | kitty/borders.py:9-12 | the backend's append primitive adds exactly one rectangle at the end and submits nothing |
| `Borders.RectBuffer.Send` | kitty/borders.py:77 | submission records the accumulated rectangles with the viewport size and leaves the buffer's contents as they are |
| `Borders.Borders.constructor` | kitty/borders.py:37-44 | stores the two pixel widths and three packed colours unchanged |
| `Borders.Borders.WindowRects` | kitty/borders.py:62-76 | one window yields 4 rectangles for a border ring iff the border width is positive and borders are drawn, plus 4 for a padding ring iff the padding width is positive |
| `Borders.Borders.BorderColor` | kitty/borders.py:65 | a window's border colour is `active_border` when it is the active window by identity and `inactive_border` otherwise |
| `Borders.Borders.WindowsRects` | kitty/borders.py:61-76 | the window part has the same number of rectangles, `RectsPerWindow`, for every window: its length is the window count times that number |
| `Borders.Borders.FrameRects` | kitty/borders.py:54-76 | a frame's first rectangle is the zero sentinel, and its length is at least 1 + blanks + extras |
| `Borders.Borders.DrawBlanks` | kitty/borders.py:55-56 | the blank-region loop appends exactly `Painted(blanks, background)` |
| `Borders.Borders.DrawWindow` | kitty/borders.py:62-76 | one loop iteration appends exactly `WindowRects` of that window: the border ring (geometry expanded by border+padding, stroke = border width, colour by identity) if drawn, then the padding ring (geometry expanded by padding, stroke = padding width, background colour) if any |
| `Borders.Borders.DrawWindows` | kitty/borders.py:60-76 | the window loop appends exactly `WindowsRects(windows)`, window after window |
| `Borders.Borders.Draw` | kitty/borders.py:46-77 | a call appends exactly `FrameRects` of its inputs, then makes one submission of the whole buffer with the viewport size; borders are drawn by default |
| `Borders.PaintedAppend` | kitty/borders.py:55 | painting the chained blank lists is painting the layout's list, then the extra list |
| `Borders.Borders.FrameParts` | kitty/borders.py:54-76 | after the sentinel, a frame is the painted layout blanks, then the painted extra blanks, then the window part (empty when the frame width is 0) |
| `Borders.Borders.BlanksFollowSentinel` | kitty/borders.py:54-56 | right after the sentinel come every layout blank rectangle, then every extra one, each once, in order, in background colour |
| `Borders.Borders.ZeroFrameWidth` | kitty/borders.py:57-60 | with border and padding width both 0, the frame is the sentinel plus the painted blanks only, so it has `1 + blanks + extras` rectangles |
| `Borders.Borders.WindowsRectsAppend` | kitty/borders.py:61 | the rectangles of a concatenation of window lists are those of the first list, then those of the second |
| `Borders.Borders.WindowsRectsAt` | kitty/borders.py:61-76 | window `k`'s rectangles come right after those of windows `0..k-1` (which number `k * RectsPerWindow`) and right before those of the later windows |
| `Borders.Borders.FrameCount` | kitty/borders.py:54-76 | a frame has 1 + blanks + extras + windows × (4·[bw>0 ∧ draw] + 4·[pw>0]) rectangles |
| `Borders.Borders.WindowRingColors` | kitty/borders.py:63-76 | a window's border-ring rectangles are `active_border` exactly when the window is the active one by identity, otherwise `inactive_border`; all later rectangles (its padding ring) are background |
| `Borders.Borders.IdentityNotGeometry` | kitty/borders.py:62-76 | two distinct windows with equal geometry get the same rectangles in the same order, except for colour: with one of them active, its border ring starts in `active_border` and the other's in `inactive_border` |
| `Borders.Borders.IdentityDistinguishesRings` | kitty/borders.py:65 | when the two border colours differ, two distinct windows with equal geometry (one of them active) get different rectangle sequences |
| `Borders.Borders.NoBordersKeepsPadding` | kitty/borders.py:63-76 | with `draw_window_borders` false, every window rectangle is background-coloured padding, 4 per window when padding is positive and none otherwise |
| `Borders.Borders.WindowRectsOutsideContent` | kitty/borders.py:66-76 | no rectangle of a window touches its content geometry, and its border ring also stays outside the padding box (the geometry expanded by the padding width) |
| `Borders.Borders.WindowRingsDisjoint` | kitty/borders.py:63-76 | for a well-formed geometry with a border drawn, no pixel is painted both by the window's border ring and by its padding ring |
| `Borders.Borders.NeighbourPaddingOverdrawsBorder` | kitty/borders.py:61-76 | with border 1 and padding 2, windows at (0,0,10,10) and (13,0,23,10) both paint pixel (12,0): the first in its border colour, the second in the background colour of its padding ring |
| `Borders.Borders.WindowsOutsideContent` | kitty/borders.py:61-76 | in the window part of a frame, rectangle `j` of window `k` never touches window `k`'s content geometry |
| `Borders.Borders.SingleWindowFrame` | kitty/borders.py:54-69 | one inactive window at (10,10,50,50) with border 2 and no padding gives the sentinel, then the ring around (8,8,52,52) of stroke 2 in the inactive colour |

## Left out

- `pt_to_px` (line 38-39): the display-scale conversion is floating point. The widths are taken as given non-negative pixel integers.
- `color_as_int` (lines 42-44): colours are opaque integers.
- `compile_program`, `load_shaders` and `init_borders_program` (lines 40-41): GPU program setup through foreign calls.
- `viewport_size` (line 77): a global read becomes the two parameters of `Draw`.
- The backend side of `add_borders_rect` and `send_borders_rects` is not part of this model. That covers the C code that reads the sentinel as a reset, clears the buffer after drawing, or stores coordinates at a fixed integer width. The buffer here only appends and records submissions, and coordinates are unbounded integers.
- `edge` (lines 24-25): the `functools.partial` mechanics are not modelled. `Border` calls the two edge methods directly with the same arguments.
- Concurrency: the generator and the buffer are single-threaded.
