/** The tiling engine service: turns a list of window ids, a tiling pattern and the
  available screen area into one frame per window.

  The engine computes in `f64`; here it computes in `real`, an exact idealisation of
  the same formulas. Its metrics `RwLock` becomes an immutable `Engine` value that
  each layout request returns updated.
 */
module TilingEngine {
  import opened Wrappers
  import opened Core
  import A = Accessibility
  import TP = TilingPatterns

  /** `WindowLayout`: the frame assigned to one window. */
  datatype WindowLayout = WindowLayout(windowId: nat, frame: A.Rect)

  datatype EngineMetrics = EngineMetrics(
    layoutRequests: nat,
    lastWindowCount: nat,
    lastAlgorithm: Option<TP.LayoutAlgorithm>)

  datatype Engine = Engine(metrics: EngineMetrics)

  /** `TilingEngine::new`: no request seen yet. */
  function NewEngine(): (e: Engine)
    ensures e.metrics.layoutRequests == 0 && e.metrics.lastWindowCount == 0
    ensures e.metrics.lastAlgorithm.None?
  {
    Engine(EngineMetrics(0, 0, None))
  }

  // ---------------------------------------------------------------------------
  // Rectangles
  // ---------------------------------------------------------------------------

  /** `f64::max`. */
  function Max(a: real, b: real): (m: real)
    ensures m >= a && m >= b
    ensures m == a || m == b
  {
    if a >= b then a else b
  }

  /** Every frame is at least one point wide and one point high. */
  predicate AtLeastOne(r: A.Rect) {
    r.size.width >= 1.0 && r.size.height >= 1.0
  }

  /** `make_rect`: a rectangle at (x, y) whose sides are clamped up to 1. The size
      constructor it calls cannot fail on clamped sides. */
  function MakeRect(x: real, y: real, width: real, height: real): (r: A.Rect)
    ensures r.origin == A.Point(x, y)
    ensures AtLeastOne(r)
    ensures width >= 1.0 ==> r.size.width == width
    ensures height >= 1.0 ==> r.size.height == height
    ensures width <= 1.0 ==> r.size.width == 1.0
    ensures height <= 1.0 ==> r.size.height == 1.0
  {
    var size := A.NewSize(Max(width, 1.0), Max(height, 1.0));
    assert size.Ok?;
    A.Rect(A.Point(x, y), size.value)
  }

  function UsableWidth(area: A.Rect, margin: nat): real {
    area.size.width - 2.0 * margin as real
  }

  function UsableHeight(area: A.Rect, margin: nat): real {
    area.size.height - 2.0 * margin as real
  }

  /** `apply_margin`: the area shrunk by the margin on every side. */
  function ApplyMargin(area: A.Rect, margin: nat): (r: A.Rect)
    ensures r.origin == A.Point(area.origin.x + margin as real, area.origin.y + margin as real)
    ensures r.origin.x + r.size.width == area.origin.x + area.size.width - margin as real
            || (r.size.width == 1.0 && UsableWidth(area, margin) < 1.0)
    ensures r.origin.y + r.size.height == area.origin.y + area.size.height - margin as real
            || (r.size.height == 1.0 && UsableHeight(area, margin) < 1.0)
    ensures AtLeastOne(r)
  {
    MakeRect(area.origin.x + margin as real, area.origin.y + margin as real,
             UsableWidth(area, margin), UsableHeight(area, margin))
  }

  predicate AllAtLeastOne(rs: seq<A.Rect>) {
    forall i :: 0 <= i < |rs| ==> AtLeastOne(rs[i])
  }

  // ---------------------------------------------------------------------------
  // Slots: equal cells laid out along one axis
  // ---------------------------------------------------------------------------

  /** The size of each of `k` equal cells that, with `gap` between neighbours, share a
      stretch of length `usable`. */
  function CellSize(usable: real, k: nat, gap: real): real
    requires k >= 1
  {
    (usable - gap * (k - 1) as real) / k as real
  }

  /** Where cell `i` starts when cells of `size` follow each other `gap` apart from `start`. */
  function Slot(start: real, i: nat, size: real, gap: real): real {
    start + i as real * (size + gap)
  }

  lemma SlotNext(start: real, i: nat, size: real, gap: real)
    ensures Slot(start, i + 1, size, gap) == Slot(start, i, size, gap) + size + gap
  {
    assert (i + 1) as real * (size + gap) == i as real * (size + gap) + (size + gap);
  }

  /** The last of `k` cells ends exactly at the end of the stretch. */
  lemma SlotsFill(start: real, usable: real, k: nat, gap: real)
    requires k >= 1
    ensures Slot(start, k - 1, CellSize(usable, k, gap), gap) + CellSize(usable, k, gap) == start + usable
  {
    var c := CellSize(usable, k, gap);
    assert k as real * c == usable - gap * (k - 1) as real;
    assert (k - 1) as real * (c + gap) + c == k as real * c + (k - 1) as real * gap;
  }

  /** Later cells start further along when cells and gaps are not negative in sum. */
  lemma SlotMono(start: real, i: nat, j: nat, size: real, gap: real)
    requires i <= j && size + gap >= 0.0
    ensures Slot(start, i, size, gap) <= Slot(start, j, size, gap)
  {
    assert j as real * (size + gap) - i as real * (size + gap) == (j - i) as real * (size + gap);
  }

  // ---------------------------------------------------------------------------
  // Master-stack
  // ---------------------------------------------------------------------------

  /** The master's width: the pattern's share of the usable width, but never under 40%. */
  function MainWidth(usableWidth: real, ratio: real): real {
    Max(usableWidth * ratio, usableWidth * 0.4)
  }

  const TooSmall: string := "Available area too small for tiling"

  /** The master frame of a multi-window master-stack layout. */
  function MasterFrame(p: TP.TilingPattern, area: A.Rect): (r: A.Rect)
    ensures AtLeastOne(r)
  {
    var m := p.windowMargin as real;
    var uw := UsableWidth(area, p.windowMargin);
    MakeRect(area.origin.x + m, area.origin.y + m, MainWidth(uw, p.mainAreaRatio), UsableHeight(area, p.windowMargin))
  }

  /** The `j`-th of the `k` stacked frames right of the master. */
  function StackFrame(p: TP.TilingPattern, area: A.Rect, k: nat, j: nat): (r: A.Rect)
    requires k >= 1
    ensures AtLeastOne(r)
  {
    var m := p.windowMargin as real;
    var gap := p.gapSize as real;
    var uw := UsableWidth(area, p.windowMargin);
    var main := MainWidth(uw, p.mainAreaRatio);
    var sh := CellSize(UsableHeight(area, p.windowMargin), k, gap);
    MakeRect(area.origin.x + m + main + gap, Slot(area.origin.y + m, j, sh, gap), uw - main - gap, sh)
  }

  /** `master_stack_layout`: one window fills the area inside the margin. Otherwise the
      master takes the left part of the usable area at full height and the others are
      stacked on its right, separated by the gap; an area with no usable width or height
      is refused. The caller never asks for zero windows. */
  function MasterStack(n: nat, p: TP.TilingPattern, area: A.Rect): (r: Result<seq<A.Rect>, TilleRSError>)
    requires n >= 1
    ensures n == 1 ==> r == Ok([ApplyMargin(area, p.windowMargin)])
    ensures n >= 2 ==> (r.Err? <==> UsableWidth(area, p.windowMargin) <= 0.0 || UsableHeight(area, p.windowMargin) <= 0.0)
    ensures r.Err? ==> r.error == ValidationError(TooSmall)
    ensures r.Ok? ==> |r.value| == n && AllAtLeastOne(r.value)
    ensures r.Ok? && n >= 2 ==> r.value[0] == MasterFrame(p, area)
    ensures r.Ok? && n >= 2 ==> forall j :: 1 <= j < n ==> r.value[j] == StackFrame(p, area, n - 1, j - 1)
  {
    if n == 1 then Ok([ApplyMargin(area, p.windowMargin)])
    else if UsableWidth(area, p.windowMargin) <= 0.0 || UsableHeight(area, p.windowMargin) <= 0.0 then
      Err(ValidationError(TooSmall))
    else
      var frames := [MasterFrame(p, area)] + seq(n - 1, j requires 0 <= j < n - 1 => StackFrame(p, area, n - 1, j));
      assert forall j :: 1 <= j < n ==> frames[j] == StackFrame(p, area, n - 1, j - 1);
      Ok(frames)
  }

  lemma ScaleMax(u: real, a: real, b: real)
    requires u > 0.0
    ensures Max(u * a, u * b) == u * Max(a, b)
  {
    if a >= b {
      assert u * a - u * b == u * (a - b);
    } else {
      assert u * b - u * a == u * (b - a);
    }
  }

  /** The master sits at the usable area's corner at full usable height, and its width is
      max(ratio, 0.4) times the usable width. */
  lemma MasterTakesShare(n: nat, p: TP.TilingPattern, area: A.Rect)
    requires n >= 2 && MasterStack(n, p, area).Ok?
    ensures var uw := UsableWidth(area, p.windowMargin);
            var master := MasterStack(n, p, area).value[0];
            && master.origin == A.Point(area.origin.x + p.windowMargin as real, area.origin.y + p.windowMargin as real)
            && master.size.width == Max(uw * Max(p.mainAreaRatio, 0.4), 1.0)
            && master.size.height == Max(UsableHeight(area, p.windowMargin), 1.0)
  {
    ScaleMax(UsableWidth(area, p.windowMargin), p.mainAreaRatio, 0.4);
  }

  /** The stacked windows all start one gap to the right of the master and, unless
      clamped, end exactly at the right edge of the usable area. */
  lemma StackSpansRightPart(n: nat, p: TP.TilingPattern, area: A.Rect)
    requires n >= 2 && MasterStack(n, p, area).Ok?
    ensures var uw := UsableWidth(area, p.windowMargin);
            var ox := area.origin.x + p.windowMargin as real;
            var main := MainWidth(uw, p.mainAreaRatio);
            var rs := MasterStack(n, p, area).value;
            forall j :: 1 <= j < n ==>
              && rs[j].origin.x == ox + main + p.gapSize as real
              && (uw - main - p.gapSize as real >= 1.0 ==> rs[j].origin.x + rs[j].size.width == ox + uw)
  {
  }

  /** The stacked windows share one height, follow each other top to bottom one gap
      apart, and, unless clamped, the last one ends at the bottom of the usable area. */
  lemma StackFillsHeight(n: nat, p: TP.TilingPattern, area: A.Rect)
    requires n >= 2 && MasterStack(n, p, area).Ok?
    ensures var uh := UsableHeight(area, p.windowMargin);
            var oy := area.origin.y + p.windowMargin as real;
            var sh := CellSize(uh, n - 1, p.gapSize as real);
            var rs := MasterStack(n, p, area).value;
            && rs[1].origin.y == oy
            && (forall j :: 1 <= j < n ==> rs[j].size.height == Max(sh, 1.0))
            && (sh >= 1.0 ==> forall j :: 1 <= j < n - 1 ==>
                  rs[j + 1].origin.y == rs[j].origin.y + rs[j].size.height + p.gapSize as real)
            && (sh >= 1.0 ==> rs[n - 1].origin.y + rs[n - 1].size.height == oy + uh)
  {
    var uh := UsableHeight(area, p.windowMargin);
    var oy := area.origin.y + p.windowMargin as real;
    var gap := p.gapSize as real;
    var sh := CellSize(uh, n - 1, gap);
    SlotsFill(oy, uh, n - 1, gap);
    forall j | 1 <= j < n - 1
      ensures Slot(oy, j, sh, gap) == Slot(oy, j - 1, sh, gap) + sh + gap
    {
      SlotNext(oy, j - 1, sh, gap);
    }
  }

  // ---------------------------------------------------------------------------
  // Columns and grid
  // ---------------------------------------------------------------------------

  /** The `i`-th of `n` columns. */
  function ColumnFrame(n: nat, margin: nat, gap: nat, area: A.Rect, i: nat): (r: A.Rect)
    requires n >= 1
    ensures AtLeastOne(r)
    ensures r.origin.y == area.origin.y + margin as real
    ensures r.size.height == Max(UsableHeight(area, margin), 1.0)
  {
    var cw := CellSize(UsableWidth(area, margin), n, gap as real);
    MakeRect(Slot(area.origin.x + margin as real, i, cw, gap as real), area.origin.y + margin as real,
             cw, UsableHeight(area, margin))
  }

  /** `columns_layout`: `n` equal columns side by side at full usable height. */
  function ColumnFrames(n: nat, margin: nat, gap: nat, area: A.Rect): (rs: seq<A.Rect>)
    requires n >= 1
    ensures |rs| == n && AllAtLeastOne(rs)
    ensures forall i :: 0 <= i < n ==> rs[i] == ColumnFrame(n, margin, gap, area, i)
  {
    seq(n, i requires 0 <= i < n => ColumnFrame(n, margin, gap, area, i))
  }

  /** Columns are equally wide and start at the usable area's top left; they follow each
      other one gap apart and, unless clamped, the last one ends at its right edge. */
  lemma ColumnsTileWidth(n: nat, margin: nat, gap: nat, area: A.Rect)
    requires n >= 1
    ensures var rs := ColumnFrames(n, margin, gap, area);
            var cw := CellSize(UsableWidth(area, margin), n, gap as real);
            && rs[0].origin == A.Point(area.origin.x + margin as real, area.origin.y + margin as real)
            && (forall i :: 0 <= i < n ==> rs[i].size.width == Max(cw, 1.0))
            && (forall i :: 0 <= i < n ==> rs[i].size.height == Max(UsableHeight(area, margin), 1.0))
            && (cw >= 1.0 ==> forall i :: 0 <= i < n - 1 ==>
                  rs[i + 1].origin.x == rs[i].origin.x + rs[i].size.width + gap as real)
            && (cw >= 1.0 ==> rs[n - 1].origin.x + rs[n - 1].size.width
                              == area.origin.x + margin as real + UsableWidth(area, margin))
  {
    var ox := area.origin.x + margin as real;
    var cw := CellSize(UsableWidth(area, margin), n, gap as real);
    SlotsFill(ox, UsableWidth(area, margin), n, gap as real);
    var g := gap as real;
    forall j | 1 <= j < n
      ensures Slot(ox, j, cw, g) == Slot(ox, j - 1, cw, g) + cw + g
    {
      SlotNext(ox, j - 1, cw, g);
    }
  }

  /** The grid's number of rows: enough for `n` cells in ⌈√n⌉ columns. */
  function GridRows(n: nat): (rows: nat)
    requires n >= 1
    ensures rows >= 1
  {
    var rows := TP.CeilDiv(n, TP.CeilSqrt(n));
    assert rows != 0;
    rows
  }

  /** Cell `i` of the grid: column `i mod ⌈√n⌉`, row `i div ⌈√n⌉`. */
  function GridFrame(n: nat, margin: nat, gap: nat, area: A.Rect, i: nat): (r: A.Rect)
    requires n >= 1
    ensures AtLeastOne(r)
  {
    var cols := TP.CeilSqrt(n);
    var cw := CellSize(UsableWidth(area, margin), cols, gap as real);
    var ch := CellSize(UsableHeight(area, margin), GridRows(n), gap as real);
    MakeRect(Slot(area.origin.x + margin as real, i % cols, cw, gap as real),
             Slot(area.origin.y + margin as real, i / cols, ch, gap as real), cw, ch)
  }

  /** `grid_layout`: ⌈√n⌉ columns and as many rows as needed, filled row by row. */
  function GridFrames(n: nat, margin: nat, gap: nat, area: A.Rect): (rs: seq<A.Rect>)
    requires n >= 1
    ensures |rs| == n && AllAtLeastOne(rs)
    ensures forall i :: 0 <= i < n ==> rs[i] == GridFrame(n, margin, gap, area, i)
  {
    seq(n, i requires 0 <= i < n => GridFrame(n, margin, gap, area, i))
  }

  /** Every grid cell has the same size; cells in one column share their x and cells in
      one row share their y. */
  lemma GridIsUniform(n: nat, margin: nat, gap: nat, area: A.Rect)
    requires n >= 1
    ensures var rs := GridFrames(n, margin, gap, area);
            var cols := TP.CeilSqrt(n);
            && (forall i :: 0 <= i < n ==> rs[i].size == rs[0].size)
            && (forall i, j :: 0 <= i < n && 0 <= j < n && i % cols == j % cols ==> rs[i].origin.x == rs[j].origin.x)
            && (forall i, j :: 0 <= i < n && 0 <= j < n && i / cols == j / cols ==> rs[i].origin.y == rs[j].origin.y)
  {
  }

  /** Unless clamped, every grid cell lies inside the usable area. */
  lemma GridWithinUsable(n: nat, margin: nat, gap: nat, area: A.Rect, i: nat)
    requires n >= 1 && i < n
    requires CellSize(UsableWidth(area, margin), TP.CeilSqrt(n), gap as real) >= 1.0
    requires CellSize(UsableHeight(area, margin), GridRows(n), gap as real) >= 1.0
    ensures var r := GridFrames(n, margin, gap, area)[i];
            && area.origin.x + margin as real <= r.origin.x
            && r.origin.x + r.size.width <= area.origin.x + margin as real + UsableWidth(area, margin)
            && area.origin.y + margin as real <= r.origin.y
            && r.origin.y + r.size.height <= area.origin.y + margin as real + UsableHeight(area, margin)
  {
    GridWithinColumns(n, margin, gap, area, i);
    GridWithinRows(n, margin, gap, area, i);
  }

  /** Cell `j` of `k` equal cells with gaps starts and ends inside `[start, start + usable]`. */
  lemma SlotWithin(start: real, usable: real, k: nat, gap: real, j: nat)
    requires j < k && gap >= 0.0 && CellSize(usable, k, gap) >= 1.0
    ensures start <= Slot(start, j, CellSize(usable, k, gap), gap)
    ensures Slot(start, j, CellSize(usable, k, gap), gap) + CellSize(usable, k, gap) <= start + usable
  {
    var c := CellSize(usable, k, gap);
    SlotMono(start, 0, j, c, gap);
    SlotMono(start, j, k - 1, c, gap);
    SlotsFill(start, usable, k, gap);
  }

  /** The horizontal half of `GridWithinUsable`. */
  lemma GridWithinColumns(n: nat, margin: nat, gap: nat, area: A.Rect, i: nat)
    requires n >= 1 && i < n
    requires CellSize(UsableWidth(area, margin), TP.CeilSqrt(n), gap as real) >= 1.0
    requires CellSize(UsableHeight(area, margin), GridRows(n), gap as real) >= 1.0
    ensures var r := GridFrames(n, margin, gap, area)[i];
            && area.origin.x + margin as real <= r.origin.x
            && r.origin.x + r.size.width <= area.origin.x + margin as real + UsableWidth(area, margin)
  {
    var cols := TP.CeilSqrt(n);
    TP.DivModFacts(i, cols);
    SlotWithin(area.origin.x + margin as real, UsableWidth(area, margin), cols, gap as real, i % cols);
  }

  /** The vertical half of `GridWithinUsable`. */
  lemma GridWithinRows(n: nat, margin: nat, gap: nat, area: A.Rect, i: nat)
    requires n >= 1 && i < n
    requires CellSize(UsableWidth(area, margin), TP.CeilSqrt(n), gap as real) >= 1.0
    requires CellSize(UsableHeight(area, margin), GridRows(n), gap as real) >= 1.0
    ensures var r := GridFrames(n, margin, gap, area)[i];
            && area.origin.y + margin as real <= r.origin.y
            && r.origin.y + r.size.height <= area.origin.y + margin as real + UsableHeight(area, margin)
  {
    var cols := TP.CeilSqrt(n);
    TP.GridRowBound(n, cols, i);
    SlotWithin(area.origin.y + margin as real, UsableHeight(area, margin), GridRows(n), gap as real, i / cols);
  }

  /** `custom_fallback`: a custom pattern is laid out as columns with an 8-point margin
      and an 8-point gap, whatever the pattern says. */
  function CustomFrames(n: nat, area: A.Rect): (rs: seq<A.Rect>)
    requires n >= 1
    ensures |rs| == n && AllAtLeastOne(rs)
    ensures rs[0].origin == A.Point(area.origin.x + 8.0, area.origin.y + 8.0)
    ensures forall i :: 0 <= i < n ==>
              && rs[i].origin.y == area.origin.y + 8.0
              && rs[i].size.height == Max(area.size.height - 16.0, 1.0)
              && rs[i].size.width == Max(CellSize(area.size.width - 16.0, n, 8.0), 1.0)
  {
    ColumnsTileWidth(n, 8, 8, area);
    ColumnFrames(n, 8, 8, area)
  }

  // ---------------------------------------------------------------------------
  // Layout requests
  // ---------------------------------------------------------------------------

  /** The frames the pattern's algorithm assigns to `n` windows. */
  function Frames(n: nat, p: TP.TilingPattern, area: A.Rect): (r: Result<seq<A.Rect>, TilleRSError>)
    requires n >= 1
    ensures r.Ok? ==> |r.value| == n && AllAtLeastOne(r.value)
    ensures r.Err? ==> p.layoutAlgorithm.MasterStack? && n >= 2 && r.error == ValidationError(TooSmall)
  {
    match p.layoutAlgorithm
    case MasterStack => MasterStack(n, p, area)
    case Grid => Ok(GridFrames(n, p.windowMargin, p.gapSize, area))
    case Columns => Ok(ColumnFrames(n, p.windowMargin, p.gapSize, area))
    case Custom => Ok(CustomFrames(n, area))
  }

  const NoWindows: string := "At least one window is required for tiling"

  /** `layout_windows`: refuses an empty id list; otherwise pairs each id, in order, with
      the frame its position receives, and records the request in the metrics. A
      refused request leaves the metrics alone. */
  function LayoutWindows(e: Engine, ids: seq<nat>, p: TP.TilingPattern, area: A.Rect)
    : (r: (Engine, Result<seq<WindowLayout>, TilleRSError>))
    ensures |ids| == 0 ==> r == (e, Err(ValidationError(NoWindows)))
    ensures r.1.Err? ==> r.0 == e
    ensures r.1.Err? && |ids| > 0 ==> p.layoutAlgorithm.MasterStack? && |ids| >= 2
                                      && r.1.error == ValidationError(TooSmall)
    ensures r.1.Ok? ==> && |ids| > 0 && |r.1.value| == |ids| && Frames(|ids|, p, area).Ok?
                        && (forall i :: 0 <= i < |ids| ==> r.1.value[i].windowId == ids[i])
                        && (forall i :: 0 <= i < |ids| ==> r.1.value[i].frame == Frames(|ids|, p, area).value[i])
                        && (forall i :: 0 <= i < |ids| ==> AtLeastOne(r.1.value[i].frame))
    ensures r.1.Ok? ==> r.0.metrics == EngineMetrics(e.metrics.layoutRequests + 1, |ids|, Some(p.layoutAlgorithm))
    ensures !p.layoutAlgorithm.MasterStack? ==> (r.1.Ok? <==> |ids| > 0)
  {
    if |ids| == 0 then (e, Err(ValidationError(NoWindows)))
    else
      match Frames(|ids|, p, area)
      case Err(err) => (e, Err(err))
      case Ok(frames) =>
        var layouts := seq(|ids|, i requires 0 <= i < |ids| => WindowLayout(ids[i], frames[i]));
        (Engine(EngineMetrics(e.metrics.layoutRequests + 1, |ids|, Some(p.layoutAlgorithm))), Ok(layouts))
  }

  /** The custom layout depends only on the window count and the area, never on the
      pattern's own gap, margin or ratio. */
  lemma CustomIgnoresPattern(e: Engine, ids: seq<nat>, p: TP.TilingPattern, q: TP.TilingPattern, area: A.Rect)
    requires p.layoutAlgorithm == TP.Custom && q.layoutAlgorithm == TP.Custom
    ensures LayoutWindows(e, ids, p, area).1 == LayoutWindows(e, ids, q, area).1
  {
  }

  /** On a 1920×1080 area with ratio 0.6, gap 10 and margin 10, three windows give a
      master of width 1140 and a stack 750 wide: the master is the wider. */
  lemma MasterWiderThanStack(e: Engine, ids: seq<nat>, p: TP.TilingPattern, area: A.Rect)
    requires |ids| == 3
    requires p.layoutAlgorithm == TP.MasterStack && p.mainAreaRatio == 0.6
    requires p.gapSize == 10 && p.windowMargin == 10
    requires area == A.Rect(A.Point(0.0, 0.0), A.Size(1920.0, 1080.0))
    ensures var r := LayoutWindows(e, ids, p, area).1;
            && r.Ok? && r.value[0].frame.size.width == 1140.0 && r.value[1].frame.size.width == 750.0
            && r.value[0].frame.size.width > r.value[1].frame.size.width
  {
    assert MainWidth(1900.0, 0.6) == 1140.0;
  }
}
