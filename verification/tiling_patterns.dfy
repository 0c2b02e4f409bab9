/** Tiling patterns and their integer layout computation: master-stack, grid and
  columns, with Custom falling back to grid.

  Pixel quantities are `u32`/`i32` in the source. Here they are unbounded integers.
  The `u32` subtractions that would underflow (and panic) become the precondition
  `Fits`. The `f64` main-area ratio is an exact `real`, and its `as u32` cast
  saturates as Rust's does.
 */
module TilingPatterns {
  import opened Wrappers
  import opened Core
  import opened Text

  datatype LayoutAlgorithm = MasterStack | Grid | Columns | Custom

  /** Stored with a pattern but consulted by no layout computation. */
  datatype ResizeBehavior = Shrink | Stack | Overflow

  datatype TilingPattern = TilingPattern(
    id: Uuid,
    name: string,
    layoutAlgorithm: LayoutAlgorithm,
    mainAreaRatio: real,
    gapSize: nat,
    windowMargin: nat,
    maxWindows: nat,
    resizeBehavior: ResizeBehavior)

  datatype WindowRect = WindowRect(x: int, y: int, width: nat, height: nat)

  datatype ComputedLayout = ComputedLayout(
    windowRects: seq<WindowRect>,
    mainArea: WindowRect,
    overflowArea: Option<WindowRect>)

  datatype TilingPatternError =
    | InvalidMainAreaRatio(ratio: real)
    | InvalidMaxWindows(maxWindows: nat)
    | EmptyName
    | InvalidScreenArea
    | LayoutComputationFailed(message: string)

  // ---------------------------------------------------------------------------
  // Construction and validation
  // ---------------------------------------------------------------------------

  predicate RatioInRange(ratio: real) {
    0.1 <= ratio <= 0.9
  }

  /** `TilingPattern::new`: the ratio is checked before the window limit; the name is
      not checked here. */
  function New(id: Uuid, name: string, algorithm: LayoutAlgorithm, ratio: real, gap: nat,
               margin: nat, maxWindows: nat, behavior: ResizeBehavior)
    : (r: Result<TilingPattern, TilingPatternError>)
    ensures !RatioInRange(ratio) ==> r == Err(InvalidMainAreaRatio(ratio))
    ensures RatioInRange(ratio) && maxWindows == 0 ==> r == Err(InvalidMaxWindows(0))
    ensures r.Ok? <==> RatioInRange(ratio) && maxWindows > 0
    ensures r.Ok? ==> r.value == TilingPattern(id, name, algorithm, ratio, gap, margin, maxWindows, behavior)
  {
    if !RatioInRange(ratio) then Err(InvalidMainAreaRatio(ratio))
    else if maxWindows == 0 then Err(InvalidMaxWindows(maxWindows))
    else Ok(TilingPattern(id, name, algorithm, ratio, gap, margin, maxWindows, behavior))
  }

  /** `TilingPattern::validate`: ratio, then window limit, then a blank name. */
  function Validate(p: TilingPattern): (r: Outcome<TilingPatternError>)
    ensures r.Pass? <==> RatioInRange(p.mainAreaRatio) && p.maxWindows > 0 && !IsBlank(p.name)
    ensures !RatioInRange(p.mainAreaRatio) ==> r == Fail(InvalidMainAreaRatio(p.mainAreaRatio))
    ensures RatioInRange(p.mainAreaRatio) && p.maxWindows == 0 ==> r == Fail(InvalidMaxWindows(0))
  {
    if !RatioInRange(p.mainAreaRatio) then Fail(InvalidMainAreaRatio(p.mainAreaRatio))
    else if p.maxWindows == 0 then Fail(InvalidMaxWindows(p.maxWindows))
    else if IsBlank(p.name) then Fail(EmptyName)
    else Pass
  }

  /** What `new` accepts, `validate` accepts too unless the name is blank. */
  lemma NewThenValidate(id: Uuid, name: string, algorithm: LayoutAlgorithm, ratio: real, gap: nat,
                        margin: nat, maxWindows: nat, behavior: ResizeBehavior)
    requires New(id, name, algorithm, ratio, gap, margin, maxWindows, behavior).Ok?
    ensures Validate(New(id, name, algorithm, ratio, gap, margin, maxWindows, behavior).value).Pass?
            <==> !IsBlank(name)
  {
  }

  /** `TilingPattern::default`. */
  function DefaultPattern(id: Uuid): (p: TilingPattern)
    ensures p.id == id
    ensures RatioInRange(p.mainAreaRatio) && p.maxWindows > 0
  {
    TilingPattern(id, "Default", MasterStack, 0.6, 10, 10, 10, Shrink)
  }

  /** The default pattern passes validation. */
  lemma DefaultPatternIsValid(id: Uuid)
    ensures Validate(DefaultPattern(id)).Pass?
  {
    assert !IsWhitespace("Default"[0]);
  }

  // ---------------------------------------------------------------------------
  // Geometry helpers
  // ---------------------------------------------------------------------------

  /** Rust's saturating `f64 as u32` cast, on an already-floored value. */
  function SaturateU32(v: int): (r: nat)
    ensures r <= v || v < 0
    ensures 0 <= v < 0x1_0000_0000 ==> r == v
    ensures r < 0x1_0000_0000
  {
    if v < 0 then 0 else if v >= 0x1_0000_0000 then 0xFFFF_FFFF else v
  }

  predicate Within(r: WindowRect, area: WindowRect) {
    && area.x <= r.x && r.x + r.width <= area.x + area.width
    && area.y <= r.y && r.y + r.height <= area.y + area.height
  }

  /** Two rectangles with no interior point in common. */
  predicate Disjoint(a: WindowRect, b: WindowRect) {
    || a.x + a.width <= b.x || b.x + b.width <= a.x
    || a.y + a.height <= b.y || b.y + b.height <= a.y
  }

  predicate PairwiseDisjoint(rs: seq<WindowRect>) {
    forall i, j :: 0 <= i < j < |rs| ==> Disjoint(rs[i], rs[j])
  }

  /** The screen area shrunk by the margin on every side. */
  function Inset(area: WindowRect, margin: nat): (r: WindowRect)
    requires 2 * margin <= area.width && 2 * margin <= area.height
    ensures Within(r, area)
    ensures r.width + 2 * margin == area.width && r.height + 2 * margin == area.height
    ensures r.x == area.x + margin && r.y == area.y + margin
  {
    WindowRect(area.x + margin, area.y + margin, area.width - 2 * margin, area.height - 2 * margin)
  }

  /** The smallest `c` with `c * c >= n`: `(n as f64).sqrt().ceil()`. */
  function CeilSqrt(n: nat): (c: nat)
    ensures c * c >= n
    ensures c == 0 || (c - 1) * (c - 1) < n
    ensures n > 0 ==> c >= 1
  {
    CeilSqrtFrom(n, 0)
  }

  function CeilSqrtFrom(n: nat, c: nat): (r: nat)
    requires c == 0 || (c - 1) * (c - 1) < n
    ensures r * r >= n && r >= c
    ensures r == 0 || (r - 1) * (r - 1) < n
    decreases n - c
  {
    if c * c >= n then c
    else
      CeilSqrtFrom(n, c + 1)
  }

  /** `(n as f64 / cols as f64).ceil()` on integers. */
  function CeilDiv(n: nat, d: nat): (q: nat)
    requires d > 0
    ensures q * d >= n
    ensures q == 0 || (q - 1) * d < n
  {
    DivModFacts(n + d - 1, d);
    (n + d - 1) / d
  }

  lemma DivModFacts(a: nat, d: nat)
    requires d > 0
    ensures a == (a / d) * d + a % d && 0 <= a % d < d
  {
  }

  /** `a <= b` is kept by multiplying both sides by a non-negative factor. */
  lemma MulMono(a: int, b: int, c: nat)
    requires a <= b
    ensures a * c <= b * c
  {
  }

  /** `k` equal slices of `SlotSize(len, k, gap)` with gaps between them fit in `len`. */
  lemma SlotSizeFits(len: nat, k: nat, gap: nat)
    requires k > 0 && (k - 1) * gap <= len
    ensures SlotSize(len, k, gap) * k + (k - 1) * gap <= len
  {
    DivModFacts(len - (k - 1) * gap, k);
  }

  /** When `k` slices of size `s` with gaps fit in `len`, slice `i` ends inside it. */
  lemma SlicesFit(len: nat, k: nat, gap: nat, s: nat, i: nat)
    requires s * k + (k - 1) * gap <= len && i < k
    ensures i * (s + gap) + s <= len
  {
    MulMono(i, k - 1, s + gap);
    assert (k - 1) * (s + gap) + s == s * k + (k - 1) * gap;
  }

  /** Slot `i` ends before slot `j` starts when `i < j`. */
  lemma SlotsOrdered(s: nat, gap: nat, i: nat, j: nat)
    requires i < j
    ensures i * (s + gap) + s <= j * (s + gap)
  {
    MulMono(i + 1, j, s + gap);
  }

  // ---------------------------------------------------------------------------
  // Layouts
  // ---------------------------------------------------------------------------

  /** `compute_master_stack_layout`'s main width: the ratio share of the width, floored
      and cast to `u32`. */
  function MainWidth(area: WindowRect, ratio: real): nat {
    SaturateU32((area.width as real * ratio).Floor)
  }

  /** The slot height of `k` stacked windows separated by `gap`. */
  function SlotSize(len: nat, k: nat, gap: nat): nat
    requires k > 0 && (k - 1) * gap <= len
  {
    (len - (k - 1) * gap) / k
  }

  /** No `u32` subtraction of the chosen algorithm underflows on the inset area. */
  predicate AlgorithmFits(p: TilingPattern, area: WindowRect, n: nat) {
    match p.layoutAlgorithm
    case MasterStack =>
      n <= 1 || (MainWidth(area, p.mainAreaRatio) + p.gapSize <= area.width && (n - 2) * p.gapSize <= area.height)
    case Columns => n == 0 || (n - 1) * p.gapSize <= area.width
    case _ => GridFits(area, n, p.gapSize)
  }

  predicate GridFits(area: WindowRect, n: nat, gap: nat) {
    n == 0 || (var cols := CeilSqrt(n);
               (cols - 1) * gap <= area.width && (CeilDiv(n, cols) - 1) * gap <= area.height)
  }

  /** The precondition under which `compute_layout` neither panics nor wraps: the margins
      fit in the screen and the algorithm's own subtractions do not underflow. */
  predicate Fits(p: TilingPattern, screen: WindowRect, n: nat) {
    n == 0 || (&& 2 * p.windowMargin <= screen.width && 2 * p.windowMargin <= screen.height
               && AlgorithmFits(p, Inset(screen, p.windowMargin), n))
  }

  /** `compute_master_stack_layout` for `n >= 1` windows: one window takes the whole area;
      otherwise the main window takes the ratio share on the left and the others are
      stacked top to bottom in the rest, separated by the gap. */
  function MasterStackRects(area: WindowRect, n: nat, ratio: real, gap: nat): (rs: seq<WindowRect>)
    requires n >= 1
    requires n == 1 || (MainWidth(area, ratio) + gap <= area.width && (n - 2) * gap <= area.height)
    ensures |rs| == n
  {
    if n == 1 then [area]
    else
      var mw := MainWidth(area, ratio);
      var k := n - 1;
      var h := SlotSize(area.height, k, gap);
      [WindowRect(area.x, area.y, mw, area.height)]
      + seq(k, i requires 0 <= i < k => WindowRect(area.x + mw + gap, area.y + i * (h + gap), area.width - mw - gap, h))
  }

  /** `compute_grid_layout`: `cols = ⌈√n⌉`, `rows = ⌈n / cols⌉`, window `i` in cell
      `(i mod cols, i div cols)`. */
  function GridRects(area: WindowRect, n: nat, gap: nat): (rs: seq<WindowRect>)
    requires GridFits(area, n, gap)
    ensures |rs| == n
  {
    if n == 0 then []
    else
      var cols := CeilSqrt(n);
      var rows := CeilDiv(n, cols);
      var w := SlotSize(area.width, cols, gap);
      var h := SlotSize(area.height, rows, gap);
      seq(n, i requires 0 <= i < n => WindowRect(area.x + (i % cols) * (w + gap), area.y + (i / cols) * (h + gap), w, h))
  }

  /** `compute_columns_layout`: `n` full-height columns of equal width. */
  function ColumnRects(area: WindowRect, n: nat, gap: nat): (rs: seq<WindowRect>)
    requires n == 0 || (n - 1) * gap <= area.width
    ensures |rs| == n
  {
    if n == 0 then []
    else
      var w := SlotSize(area.width, n, gap);
      seq(n, i requires 0 <= i < n => WindowRect(area.x + i * (w + gap), area.y, w, area.height))
  }

  /** `compute_layout`. No window gives no rectangles and the whole screen as the main
      area; otherwise the chosen algorithm lays out exactly `n` rectangles on the screen
      inset by the margin, which becomes the main area. No overflow area is produced. */
  function ComputeLayout(p: TilingPattern, screen: WindowRect, n: nat): (r: Result<ComputedLayout, TilingPatternError>)
    requires Fits(p, screen, n)
    ensures r.Ok?
    ensures |r.value.windowRects| == n
    ensures r.value.overflowArea.None?
    ensures n == 0 ==> r.value.mainArea == screen
    ensures n > 0 ==> r.value.mainArea == Inset(screen, p.windowMargin)
  {
    if n == 0 then Ok(ComputedLayout([], screen, None))
    else
      var area := Inset(screen, p.windowMargin);
      var rects := match p.layoutAlgorithm
        case MasterStack => MasterStackRects(area, n, p.mainAreaRatio, p.gapSize)
        case Grid => GridRects(area, n, p.gapSize)
        case Columns => ColumnRects(area, n, p.gapSize)
        case Custom => GridRects(area, n, p.gapSize);
      Ok(ComputedLayout(rects, area, None))
  }

  // ---------------------------------------------------------------------------
  // Layout properties
  // ---------------------------------------------------------------------------

  /** Master-stack: a single window gets the whole area; otherwise the main window is the
      left part of the ratio width, main + gap + stack width is the area width, the stack
      windows share x and width and go top to bottom, and nothing overlaps or leaves the
      area. */
  lemma MasterStackShape(area: WindowRect, n: nat, ratio: real, gap: nat)
    requires n >= 1
    requires n == 1 || (MainWidth(area, ratio) + gap <= area.width && (n - 2) * gap <= area.height)
    ensures var rs := MasterStackRects(area, n, ratio, gap);
            && (n == 1 ==> rs == [area])
            && (n >= 2 ==> && rs[0] == WindowRect(area.x, area.y, MainWidth(area, ratio), area.height)
                           && rs[0].width + gap + rs[1].width == area.width
                           && (forall i :: 1 <= i < n ==> rs[i].x == rs[1].x && rs[i].width == rs[1].width))
            && (forall i :: 0 <= i < n ==> Within(rs[i], area))
            && PairwiseDisjoint(rs)
  {
    var rs := MasterStackRects(area, n, ratio, gap);
    if n >= 2 {
      forall i | 0 <= i < n ensures Within(rs[i], area) {
        MasterStackCell(area, n, ratio, gap, i, i);
      }
      forall i, j | 0 <= i < j < n ensures Disjoint(rs[i], rs[j]) {
        MasterStackCell(area, n, ratio, gap, i, j);
      }
    }
  }

  /** One stacked window lies inside the area, and it lies right of the main window and
      below every earlier stacked one. */
  lemma MasterStackCell(area: WindowRect, n: nat, ratio: real, gap: nat, i: nat, j: nat)
    requires n >= 2 && MainWidth(area, ratio) + gap <= area.width && (n - 2) * gap <= area.height
    requires i <= j < n
    ensures var rs := MasterStackRects(area, n, ratio, gap);
            Within(rs[j], area) && (i < j ==> Disjoint(rs[i], rs[j]))
  {
    var h := SlotSize(area.height, n - 1, gap);
    if j > 0 {
      StackCellAt(area, n, ratio, gap, j);
      SlotSpan(area.y, area.height, n - 1, gap, h, j - 1);
      if 0 < i < j {
        StackCellAt(area, n, ratio, gap, i);
        SlotsOrdered(h, gap, i - 1, j - 1);
      }
    }
  }

  /** Stacked window `j` (counting the main window as 0). */
  lemma StackCellAt(area: WindowRect, n: nat, ratio: real, gap: nat, j: nat)
    requires n >= 2 && MainWidth(area, ratio) + gap <= area.width && (n - 2) * gap <= area.height
    requires 0 < j < n
    ensures var rs := MasterStackRects(area, n, ratio, gap);
            var mw := MainWidth(area, ratio);
            var h := SlotSize(area.height, n - 1, gap);
            rs[j] == WindowRect(area.x + mw + gap, area.y + (j - 1) * (h + gap), area.width - mw - gap, h)
  {
  }

  /** Slot `j` of `k` equal slots along a span starting at `start` lies inside the span. */
  lemma SlotSpan(start: int, len: nat, k: nat, gap: nat, s: nat, j: nat)
    requires k > 0 && (k - 1) * gap <= len && s == SlotSize(len, k, gap) && j < k
    ensures start <= start + j * (s + gap) && start + j * (s + gap) + s <= start + len
  {
    SlotSizeFits(len, k, gap);
    SlicesFit(len, k, gap, s, j);
  }

  /** Columns: every column has the full area height and the equal width, column `i`
      starts `i` widths-plus-gap from the left, and the columns are disjoint and inside. */
  lemma ColumnsShape(area: WindowRect, n: nat, gap: nat)
    requires n >= 1 && (n - 1) * gap <= area.width
    ensures var rs := ColumnRects(area, n, gap);
            var w := (area.width - (n - 1) * gap) / n;
            && (forall i :: 0 <= i < n ==> rs[i] == WindowRect(area.x + i * (w + gap), area.y, w, area.height))
            && (forall i :: 0 <= i < n ==> Within(rs[i], area))
            && PairwiseDisjoint(rs)
  {
    var rs := ColumnRects(area, n, gap);
    var w := SlotSize(area.width, n, gap);
    SlotSizeFits(area.width, n, gap);
    forall i | 0 <= i < n ensures Within(rs[i], area) {
      SlicesFit(area.width, n, gap, w, i);
    }
    forall i, j | 0 <= i < j < n ensures Disjoint(rs[i], rs[j]) {
      SlotsOrdered(w, gap, i, j);
    }
  }

  /** Grid: `⌈√n⌉` columns, cell `i` at column `i mod cols` and row `i div cols`, all
      cells the same size, disjoint and inside the area. */
  lemma GridShape(area: WindowRect, n: nat, gap: nat)
    requires n >= 1 && GridFits(area, n, gap)
    ensures var rs := GridRects(area, n, gap);
            var cols := CeilSqrt(n);
            && cols * cols >= n && (cols - 1) * (cols - 1) < n
            && (forall i :: 0 <= i < n ==> rs[i].width == rs[0].width && rs[i].height == rs[0].height)
            && (forall i :: 0 <= i < n ==>
                  (rs[i].x == area.x + (i % cols) * (rs[0].width + gap)
                   && rs[i].y == area.y + (i / cols) * (rs[0].height + gap)))
            && (forall i :: 0 <= i < n ==> Within(rs[i], area))
            && PairwiseDisjoint(rs)
  {
    var rs := GridRects(area, n, gap);
    forall i | 0 <= i < n ensures Within(rs[i], area) {
      GridCellWithin(area, n, gap, i);
    }
    forall i, j | 0 <= i < j < n ensures Disjoint(rs[i], rs[j]) {
      GridCellsDisjoint(i, j, CeilSqrt(n), rs[0].width, rs[0].height, gap);
    }
  }

  lemma GridCellWithin(area: WindowRect, n: nat, gap: nat, i: nat)
    requires GridFits(area, n, gap) && i < n
    ensures Within(GridRects(area, n, gap)[i], area)
  {
    var cols := CeilSqrt(n);
    var rows := CeilDiv(n, cols);
    GridCellAt(area, n, gap, i);
    DivModFacts(i, cols);
    SlotSpan(area.x, area.width, cols, gap, SlotSize(area.width, cols, gap), i % cols);
    GridRowBound(n, cols, i);
    SlotSpan(area.y, area.height, rows, gap, SlotSize(area.height, rows, gap), i / cols);
  }

  /** Grid window `i`. */
  lemma GridCellAt(area: WindowRect, n: nat, gap: nat, i: nat)
    requires GridFits(area, n, gap) && i < n
    ensures var cols := CeilSqrt(n);
            var w := SlotSize(area.width, cols, gap);
            var h := SlotSize(area.height, CeilDiv(n, cols), gap);
            GridRects(area, n, gap)[i] == WindowRect(area.x + (i % cols) * (w + gap), area.y + (i / cols) * (h + gap), w, h)
  {
  }

  /** Window `i < n` sits in a row below `⌈n / cols⌉`. */
  lemma GridRowBound(n: nat, cols: nat, i: nat)
    requires cols > 0 && i < n
    ensures i / cols < CeilDiv(n, cols)
  {
    var rows := CeilDiv(n, cols);
    DivModFacts(i, cols);
    if i / cols >= rows {
      MulMono(rows, i / cols, cols);
    }
  }

  /** Different windows occupy different cells, and different cells are separated by at
      least the gap along the row or the column. */
  lemma GridCellsDisjoint(i: nat, j: nat, cols: nat, w: nat, h: nat, gap: nat)
    requires cols > 0 && i < j
    ensures var a := (i % cols) * (w + gap);
            var b := (j % cols) * (w + gap);
            var c := (i / cols) * (h + gap);
            var d := (j / cols) * (h + gap);
            a + w <= b || b + w <= a || c + h <= d
  {
    DivModFacts(i, cols);
    DivModFacts(j, cols);
    if i / cols == j / cols {
      assert i % cols < j % cols;
      SlotsOrdered(w, gap, i % cols, j % cols);
    } else {
      assert i / cols < j / cols by {
        if i / cols > j / cols { MulMono(j / cols + 1, i / cols, cols); }
      }
      SlotsOrdered(h, gap, i / cols, j / cols);
    }
  }

  /** Every algorithm lays out pairwise disjoint windows inside the inset screen. */
  lemma ComputeLayoutSound(p: TilingPattern, screen: WindowRect, n: nat)
    requires Fits(p, screen, n) && n > 0
    ensures var l := ComputeLayout(p, screen, n).value;
            && (forall i :: 0 <= i < n ==> Within(l.windowRects[i], Inset(screen, p.windowMargin)))
            && PairwiseDisjoint(l.windowRects)
  {
    var area := Inset(screen, p.windowMargin);
    match p.layoutAlgorithm
    case MasterStack => MasterStackShape(area, n, p.mainAreaRatio, p.gapSize);
    case Grid => GridShape(area, n, p.gapSize);
    case Columns => ColumnsShape(area, n, p.gapSize);
    case Custom => GridShape(area, n, p.gapSize);
  }

  /** Custom has no layout of its own: it is the grid. */
  lemma CustomIsGrid(p: TilingPattern, screen: WindowRect, n: nat)
    requires p.layoutAlgorithm == Custom && Fits(p, screen, n)
    ensures ComputeLayout(p, screen, n) == ComputeLayout(p.(layoutAlgorithm := Grid), screen, n)
  {
  }

  // ---------------------------------------------------------------------------
  // Worked examples on a 1000×800 screen with the default pattern
  // ---------------------------------------------------------------------------

  /** A single master-stack window fills the inset screen. */
  lemma SingleMasterFillsInset(p: TilingPattern, screen: WindowRect)
    requires p.layoutAlgorithm == MasterStack && Fits(p, screen, 1)
    ensures ComputeLayout(p, screen, 1).value.windowRects == [Inset(screen, p.windowMargin)]
  {
    var a := Inset(screen, p.windowMargin);
    assert MasterStackRects(a, 1, p.mainAreaRatio, p.gapSize) == [a];
  }

  lemma ExampleSingleWindow(id: Uuid, screen: WindowRect)
    requires screen == WindowRect(0, 0, 1000, 800)
    ensures Fits(DefaultPattern(id), screen, 1)
    ensures ComputeLayout(DefaultPattern(id), screen, 1).value.windowRects == [WindowRect(10, 10, 980, 780)]
  {
    var p := DefaultPattern(id);
    assert p.windowMargin == 10 && p.layoutAlgorithm == MasterStack;
    SingleMasterFillsInset(p, screen);
  }

  lemma ExampleMasterStackMainWidth(id: Uuid, screen: WindowRect)
    requires screen == WindowRect(0, 0, 1000, 800)
    ensures Fits(DefaultPattern(id), screen, 3)
    ensures var rs := ComputeLayout(DefaultPattern(id), screen, 3).value.windowRects;
            rs[0].width == 588 && rs[0].height == 780
  {
    var p := DefaultPattern(id);
    assert p.windowMargin == 10 && p.gapSize == 10 && p.layoutAlgorithm == MasterStack && p.mainAreaRatio == 0.6;
    var area := Inset(screen, 10);
    assert area == WindowRect(10, 10, 980, 780);
    assert (980 as real * 0.6).Floor == 588;
    assert MainWidth(area, 0.6) == 588;
    assert Fits(p, screen, 3);
    MasterStackShape(area, 3, 0.6, 10);
  }

  /** Every column of a columns layout has the full inset height. */
  lemma ColumnsFullHeight(p: TilingPattern, screen: WindowRect, n: nat)
    requires p.layoutAlgorithm == Columns && Fits(p, screen, n) && n > 0
    ensures var rs := ComputeLayout(p, screen, n).value.windowRects;
            forall i :: 0 <= i < n ==> rs[i].height == Inset(screen, p.windowMargin).height
  {
    ColumnsShape(Inset(screen, p.windowMargin), n, p.gapSize);
  }

  lemma ExampleColumnsFullHeight(id: Uuid, screen: WindowRect)
    requires screen == WindowRect(0, 0, 1000, 800)
    ensures Fits(DefaultPattern(id).(layoutAlgorithm := Columns), screen, 3)
    ensures var rs := ComputeLayout(DefaultPattern(id).(layoutAlgorithm := Columns), screen, 3).value.windowRects;
            forall i :: 0 <= i < 3 ==> rs[i].height == 780
  {
    var p := DefaultPattern(id).(layoutAlgorithm := Columns);
    assert p.windowMargin == 10 && p.gapSize == 10;
    assert Fits(p, screen, 3);
    ColumnsFullHeight(p, screen, 3);
  }

  /** A grid of four windows is two by two: windows 0 and 1 share a row, 0 and 2 a column. */
  lemma GridOfFour(p: TilingPattern, screen: WindowRect)
    requires p.layoutAlgorithm == Grid && Fits(p, screen, 4)
    ensures var rs := ComputeLayout(p, screen, 4).value.windowRects;
            rs[0].y == rs[1].y && rs[0].x == rs[2].x && rs[0].width == rs[1].width && rs[0].height == rs[2].height
  {
    assert CeilSqrt(4) == 2 by {
      assert CeilSqrtFrom(4, 0) == CeilSqrtFrom(4, 1) == CeilSqrtFrom(4, 2) == 2;
    }
    GridShape(Inset(screen, p.windowMargin), 4, p.gapSize);
    assert 0 % 2 == 0 && 1 % 2 == 1 && 2 % 2 == 0 && 0 / 2 == 0 && 1 / 2 == 0 && 2 / 2 == 1;
  }

  lemma ExampleGridTwoByTwo(id: Uuid, screen: WindowRect)
    requires screen == WindowRect(0, 0, 1000, 800)
    ensures Fits(DefaultPattern(id).(layoutAlgorithm := Grid), screen, 4)
    ensures var rs := ComputeLayout(DefaultPattern(id).(layoutAlgorithm := Grid), screen, 4).value.windowRects;
            rs[0].y == rs[1].y && rs[0].x == rs[2].x && rs[0].width == rs[1].width && rs[0].height == rs[2].height
  {
    var p := DefaultPattern(id).(layoutAlgorithm := Grid);
    assert p.windowMargin == 10 && p.gapSize == 10;
    assert CeilSqrt(4) == 2 by {
      assert CeilSqrtFrom(4, 0) == CeilSqrtFrom(4, 1) == CeilSqrtFrom(4, 2) == 2;
    }
    assert CeilDiv(4, 2) == 2;
    assert Fits(p, screen, 4);
    GridOfFour(p, screen);
  }
}
