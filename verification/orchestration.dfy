/** The workspace orchestrator: the glue that turns keyboard events and workspace
  activations into calls on the workspace manager, the window manager and the tiling
  engine.

  The orchestrator's shared services become one immutable `Orchestrator` value holding
  the state of each service; every operation is one atomic step returning the next
  orchestrator and its outcome. The settle delay before a layout is applied, the
  logging, and the spawned listener task are not modelled. Values the source draws at
  random or from `HashMap` iteration order (a fresh workspace id, the "first" pattern
  key) and the clock come in through a `Context`.
 */
module Orchestration {
  import opened Wrappers
  import opened Core
  import opened Seqs
  import opened Text
  import A = Accessibility
  import TP = TilingPatterns
  import WS = Workspaces
  import WSM = WorkspaceManagement
  import WM = WindowManagement
  import TE = TilingEngine
  import KM = KeyboardMappings
  import KH = KeyboardHandling

  datatype OrchestratorConfig = OrchestratorConfig(
    autoArrangeOnSwitch: bool,
    autoArrangeOnNewWindow: bool,
    layoutDelayMs: nat,
    maxAutoTileWindows: nat)

  /** `OrchestratorConfig::default`. */
  const DefaultConfig: OrchestratorConfig := OrchestratorConfig(true, true, 100, 20)

  datatype Orchestrator = Orchestrator(
    workspaces: WSM.Manager,
    windows: WM.WindowManager,
    engine: TE.Engine,
    patterns: map<Uuid, TP.TilingPattern>,
    config: OrchestratorConfig)

  /** Why a step failed: the workspace manager refused, or a system error came back. */
  datatype Failure = WorkspaceFailure(reason: WSM.ManagerError) | SystemFailure(error: TilleRSError)

  /** What the step may not know by itself: the id `Uuid::new_v4` would draw, the pattern
      id the registry's iteration yields first, and the time. */
  datatype Context = Context(freshId: Uuid, patternChoice: Uuid, now: int)

  /** The pattern choice is one of the registered patterns whenever there is one. */
  predicate ChoiceOk(o: Orchestrator, ctx: Context) {
    o.patterns != map[] ==> ctx.patternChoice in o.patterns
  }

  /** `add_tiling_pattern`: registers the pattern under its id, replacing any other. */
  function AddTilingPattern(o: Orchestrator, p: TP.TilingPattern): (r: Orchestrator)
    ensures r.patterns.Keys == o.patterns.Keys + {p.id} && r.patterns[p.id] == p
    ensures forall k :: k in o.patterns && k != p.id ==> r.patterns[k] == o.patterns[k]
    ensures r.(patterns := o.patterns) == o
  {
    o.(patterns := o.patterns[p.id := p])
  }

  // ---------------------------------------------------------------------------
  // Tileable windows
  // ---------------------------------------------------------------------------

  /** A window the orchestrator will tile: visible, not fullscreen, in tiled mode and
      larger than 100 points each way. */
  function IsTileable(w: WM.WindowInfo): (r: bool)
    ensures r ==> w.size.width * w.size.height > 10000.0
    ensures w.isMinimized || w.isFullscreen || w.mode != WM.Tiled ==> !r
  {
    && !w.isMinimized && !w.isFullscreen && w.mode == WM.Tiled
    && w.size.width > 100.0 && w.size.height > 100.0
  }

  predicate IdsIncreasing(ws: seq<WM.WindowInfo>) {
    forall a, b :: 0 <= a < b < |ws| ==> ws[a].id < ws[b].id
  }

  /** The tileable windows of a list, in the list's order. */
  function TileableOf(ws: seq<WM.WindowInfo>): (r: seq<WM.WindowInfo>)
    ensures forall w :: w in r <==> w in ws && IsTileable(w)
    ensures |r| <= |ws|
    ensures IdsIncreasing(ws) ==> IdsIncreasing(r)
  {
    if |ws| == 0 then []
    else
      var rest := TileableOf(ws[1..]);
      assert forall w :: w in ws[1..] ==> w in ws;
      assert IdsIncreasing(ws) ==> forall w :: w in rest ==> ws[0].id < w.id by {
        if IdsIncreasing(ws) {
          forall w | w in rest ensures ws[0].id < w.id {
            var j :| 0 <= j < |ws[1..]| && ws[1..][j] == w;
            assert ws[j + 1] == w;
          }
        }
      }
      if IsTileable(ws[0]) then [ws[0]] + rest else rest
  }

  /** `get_tileable_windows`: all windows, minimized ones included, then the tileable
      ones, sorted by id. Listing may refresh an empty cache. */
  function TileableWindows(wm: WM.WindowManager): (r: (WM.WindowManager, seq<WM.WindowInfo>))
    requires WM.Valid(wm)
    ensures WM.Valid(r.0) && r.0 == WM.ListWindows(wm, true, None).0
    ensures forall w :: w in r.1 <==> w.id in r.0.cache && r.0.cache[w.id] == w && IsTileable(w)
    ensures IdsIncreasing(r.1)
  {
    var (next, all) := WM.ListWindows(wm, true, None);
    (next, TileableOf(all))
  }

  // ---------------------------------------------------------------------------
  // Applying layouts
  // ---------------------------------------------------------------------------

  /** How many layouts name a window the provider does not know. */
  function Misses(layouts: seq<TE.WindowLayout>, known: set<nat>): (n: nat)
    ensures n <= |layouts|
  {
    if |layouts| == 0 then 0
    else (if layouts[0].windowId in known then 0 else 1) + Misses(layouts[1..], known)
  }

  lemma SetFrameKeepsValid(wm: WM.WindowManager, id: nat, frame: A.Rect)
    ensures WM.Valid(wm) ==> WM.Valid(WM.SetWindowFrame(wm, id, frame).0)
  {
    if WM.Valid(wm) {
      WM.CommandsPreserveValid(wm, id, frame, false);
    }
  }

  /** `apply_window_layouts`: sets every frame in order. A failed call is counted by the
      window manager and skipped; the step as a whole never fails. Each known window
      ends with the frame of the last layout naming it, and the others are untouched. */
  function ApplyLayouts(wm: WM.WindowManager, layouts: seq<TE.WindowLayout>): (r: WM.WindowManager)
    ensures r.provider.windows.Keys == wm.provider.windows.Keys
    ensures r.displays == wm.displays
    ensures r.metrics.errorCount == wm.metrics.errorCount + Misses(layouts, wm.provider.windows.Keys)
    ensures forall k :: k in wm.provider.windows && (forall i :: 0 <= i < |layouts| ==> layouts[i].windowId != k)
                        ==> r.provider.windows[k] == wm.provider.windows[k]
    ensures forall i :: 0 <= i < |layouts| && layouts[i].windowId in wm.provider.windows
                        && (forall j :: i < j < |layouts| ==> layouts[j].windowId != layouts[i].windowId)
                        ==> r.provider.windows[layouts[i].windowId].frame == layouts[i].frame
    ensures WM.Valid(wm) ==> WM.Valid(r)
    decreases |layouts|
  {
    if |layouts| == 0 then wm
    else
      var l := layouts[0];
      var (next, _) := WM.SetWindowFrame(wm, l.windowId, l.frame);
      var r := ApplyLayouts(next, layouts[1..]);
      StepCounts(wm, next, r, layouts);
      StepUntouched(wm, next, r, layouts);
      StepLastFrame(wm, next, r, layouts);
      r
  }

  /** The step of `ApplyLayouts` for the window set, the displays, the error count and
      the cache invariant. */
  lemma StepCounts(wm: WM.WindowManager, next: WM.WindowManager, r: WM.WindowManager,
                   layouts: seq<TE.WindowLayout>)
    requires |layouts| > 0
    requires next == WM.SetWindowFrame(wm, layouts[0].windowId, layouts[0].frame).0
    requires r.provider.windows.Keys == next.provider.windows.Keys
    requires r.displays == next.displays
    requires r.metrics.errorCount == next.metrics.errorCount + Misses(layouts[1..], next.provider.windows.Keys)
    requires WM.Valid(next) ==> WM.Valid(r)
    ensures r.provider.windows.Keys == wm.provider.windows.Keys
    ensures r.displays == wm.displays
    ensures r.metrics.errorCount == wm.metrics.errorCount + Misses(layouts, wm.provider.windows.Keys)
    ensures WM.Valid(wm) ==> WM.Valid(r)
  {
    var l := layouts[0];
    SetFrameKeepsValid(wm, l.windowId, l.frame);
    assert next.metrics.errorCount == wm.metrics.errorCount + (if l.windowId in wm.provider.windows then 0 else 1);
  }

  /** The step of `ApplyLayouts` for a window no layout names. */
  lemma StepUntouched(wm: WM.WindowManager, next: WM.WindowManager, r: WM.WindowManager,
                      layouts: seq<TE.WindowLayout>)
    requires |layouts| > 0
    requires next == WM.SetWindowFrame(wm, layouts[0].windowId, layouts[0].frame).0
    requires r.provider.windows.Keys == next.provider.windows.Keys
    requires forall k :: k in next.provider.windows && (forall i :: 0 <= i < |layouts[1..]| ==> layouts[1..][i].windowId != k)
                         ==> r.provider.windows[k] == next.provider.windows[k]
    ensures forall k :: k in wm.provider.windows && (forall i :: 0 <= i < |layouts| ==> layouts[i].windowId != k)
                        ==> r.provider.windows[k] == wm.provider.windows[k]
  {
    forall k | k in wm.provider.windows && (forall i :: 0 <= i < |layouts| ==> layouts[i].windowId != k)
      ensures r.provider.windows[k] == wm.provider.windows[k]
    {
      assert forall i :: 0 <= i < |layouts[1..]| ==> layouts[1..][i] == layouts[i + 1];
      assert next.provider.windows[k] == wm.provider.windows[k];
    }
  }

  /** The step of `ApplyLayouts` for a window some layout names: the last one wins. */
  lemma StepLastFrame(wm: WM.WindowManager, next: WM.WindowManager, r: WM.WindowManager,
                      layouts: seq<TE.WindowLayout>)
    requires |layouts| > 0
    requires next == WM.SetWindowFrame(wm, layouts[0].windowId, layouts[0].frame).0
    requires r.provider.windows.Keys == next.provider.windows.Keys
    requires forall k :: k in next.provider.windows && (forall i :: 0 <= i < |layouts[1..]| ==> layouts[1..][i].windowId != k)
                         ==> r.provider.windows[k] == next.provider.windows[k]
    requires forall i :: 0 <= i < |layouts[1..]| && layouts[1..][i].windowId in next.provider.windows
                         && (forall j :: i < j < |layouts[1..]| ==> layouts[1..][j].windowId != layouts[1..][i].windowId)
                         ==> r.provider.windows[layouts[1..][i].windowId].frame == layouts[1..][i].frame
    ensures forall i :: 0 <= i < |layouts| && layouts[i].windowId in wm.provider.windows
                        && (forall j :: i < j < |layouts| ==> layouts[j].windowId != layouts[i].windowId)
                        ==> r.provider.windows[layouts[i].windowId].frame == layouts[i].frame
  {
    var l := layouts[0];
    forall i | 0 <= i < |layouts| && layouts[i].windowId in wm.provider.windows
               && (forall j :: i < j < |layouts| ==> layouts[j].windowId != layouts[i].windowId)
      ensures r.provider.windows[layouts[i].windowId].frame == layouts[i].frame
    {
      if i == 0 {
        assert forall m :: 0 <= m < |layouts[1..]| ==> layouts[1..][m] == layouts[m + 1];
        assert next.provider.windows[l.windowId].frame == l.frame;
      } else {
        assert layouts[1..][i - 1] == layouts[i];
        assert forall j :: i - 1 < j < |layouts[1..]| ==> layouts[1..][j] == layouts[j + 1];
      }
    }
  }

  // ---------------------------------------------------------------------------
  // Arranging the active workspace
  // ---------------------------------------------------------------------------

  /** The area the orchestrator tiles into: a 1920 by 1055 area below a 25-point menu bar. */
  const PrimaryTilingArea: A.Rect := A.Rect(A.Point(0.0, 25.0), A.Size(1920.0, 1055.0))

  const PatternNotFound: string := "Tiling pattern not found"

  /** `get_active_workspace`: the workspace the active id names, if any. */
  function ActiveWorkspace(o: Orchestrator): (r: Option<WS.Workspace>)
    ensures r.Some? <==> o.workspaces.active.Some? && o.workspaces.active.value in WSM.Keys(o.workspaces.workspaces)
    ensures r.Some? ==> r.value.id == o.workspaces.active.value && r.value in o.workspaces.workspaces
  {
    if o.workspaces.active.Some? then WSM.Lookup(o.workspaces.workspaces, o.workspaces.active.value) else None
  }

  function Ids(ws: seq<WM.WindowInfo>): (ids: seq<nat>)
    ensures |ids| == |ws| && forall i :: 0 <= i < |ws| ==> ids[i] == ws[i].id
  {
    seq(|ws|, i requires 0 <= i < |ws| => ws[i].id)
  }

  /** The outcome of an arrangement and the layouts it applied. */
  datatype Arranged = Arranged(orchestrator: Orchestrator, outcome: Outcome<Failure>, applied: seq<TE.WindowLayout>)

  /** Layout `i` of an arrangement went to a tileable window, which now has that frame. */
  predicate TiledWindow(o: Orchestrator, r: Arranged, i: nat)
    requires WM.Valid(o.windows) && i < |r.applied|
  {
    var id := r.applied[i].windowId;
    var cache := TileableWindows(o.windows).0.cache;
    && id in cache && IsTileable(cache[id])
    && id in r.orchestrator.windows.provider.windows
    && r.orchestrator.windows.provider.windows[id].frame == r.applied[i].frame
  }

  /** Lays out the tileable windows `ws`, listed from `wm`, with pattern `p`, and applies
      the layout unless the engine refuses. */
  function LayOut(o: Orchestrator, wm: WM.WindowManager, ws: seq<WM.WindowInfo>, p: TP.TilingPattern): (r: Arranged)
    requires WM.Valid(o.windows) && TileableWindows(o.windows) == (wm, ws)
    ensures WM.Valid(r.orchestrator.windows)
    ensures r.orchestrator.workspaces == o.workspaces && r.orchestrator.patterns == o.patterns
    ensures r.outcome.Fail? ==> r.applied == []
    ensures r.applied == [] ==> r.orchestrator.windows.provider == o.windows.provider
    ensures r.applied != [] ==> r.outcome.Pass? && |r.applied| == |ws|
    ensures forall i :: 0 <= i < |r.applied| ==> TiledWindow(o, r, i)
  {
    var out := TE.LayoutWindows(o.engine, Ids(ws), p, PrimaryTilingArea);
    LayoutNamesWindows(o.engine, ws, p);
    Settle(o, wm, ws, out.0, out.1)
  }

  lemma LayoutNamesWindows(e: TE.Engine, ws: seq<WM.WindowInfo>, p: TP.TilingPattern)
    ensures var res := TE.LayoutWindows(e, Ids(ws), p, PrimaryTilingArea).1;
            res.Ok? ==> |res.value| == |ws| && forall i :: 0 <= i < |ws| ==> res.value[i].windowId == ws[i].id
  {
  }

  /** Applies the engine's answer: its layouts when it produced some, nothing otherwise. */
  function Settle(o: Orchestrator, wm: WM.WindowManager, ws: seq<WM.WindowInfo>, engine: TE.Engine,
                  res: Result<seq<TE.WindowLayout>, TilleRSError>): (r: Arranged)
    requires WM.Valid(o.windows) && TileableWindows(o.windows) == (wm, ws)
    requires res.Ok? ==> |res.value| == |ws| && forall i :: 0 <= i < |ws| ==> res.value[i].windowId == ws[i].id
    ensures WM.Valid(r.orchestrator.windows)
    ensures r.orchestrator.workspaces == o.workspaces && r.orchestrator.patterns == o.patterns
    ensures r.outcome.Fail? ==> r.applied == []
    ensures r.applied == [] ==> r.orchestrator.windows.provider == o.windows.provider
    ensures r.applied != [] ==> r.outcome.Pass? && |r.applied| == |ws|
    ensures forall i :: 0 <= i < |r.applied| ==> TiledWindow(o, r, i)
  {
    match res
    case Err(e) => Arranged(o.(windows := wm), Fail(SystemFailure(e)), [])
    case Ok(layouts) => Apply(o, wm, ws, layouts, engine)
  }

  /** Applies the engine's layouts for the windows `ws` and records the engine's new state. */
  function Apply(o: Orchestrator, wm: WM.WindowManager, ws: seq<WM.WindowInfo>, layouts: seq<TE.WindowLayout>,
                 engine: TE.Engine): (r: Arranged)
    requires WM.Valid(o.windows) && TileableWindows(o.windows) == (wm, ws)
    requires |layouts| == |ws| && forall i :: 0 <= i < |ws| ==> layouts[i].windowId == ws[i].id
    ensures WM.Valid(r.orchestrator.windows)
    ensures r.orchestrator.workspaces == o.workspaces && r.orchestrator.patterns == o.patterns
    ensures r.outcome.Pass? && r.applied == layouts
    ensures r.applied == [] ==> r.orchestrator.windows.provider == o.windows.provider
    ensures forall i :: 0 <= i < |r.applied| ==> TiledWindow(o, r, i)
  {
    AppliedTiled(o, wm, ws, layouts, engine);
    Arranged(o.(windows := ApplyLayouts(wm, layouts), engine := engine), Pass, layouts)
  }

  lemma AppliedTiled(o: Orchestrator, wm: WM.WindowManager, ws: seq<WM.WindowInfo>, layouts: seq<TE.WindowLayout>,
                     engine: TE.Engine)
    requires WM.Valid(o.windows) && TileableWindows(o.windows) == (wm, ws)
    requires |layouts| == |ws| && forall i :: 0 <= i < |ws| ==> layouts[i].windowId == ws[i].id
    ensures var r := Arranged(o.(windows := ApplyLayouts(wm, layouts), engine := engine), Pass, layouts);
            forall i :: 0 <= i < |layouts| ==> TiledWindow(o, r, i)
  {
    var r := Arranged(o.(windows := ApplyLayouts(wm, layouts), engine := engine), Pass, layouts);
    forall i | 0 <= i < |layouts| ensures TiledWindow(o, r, i) {
      assert ws[i] in ws;
      assert forall j :: i < j < |layouts| ==> layouts[j].windowId != layouts[i].windowId;
    }
  }

  /** Tiles with pattern `p` unless no window is tileable or more than the limit are. */
  function Tile(o: Orchestrator, p: TP.TilingPattern): (r: Arranged)
    requires WM.Valid(o.windows)
    ensures WM.Valid(r.orchestrator.windows)
    ensures r.orchestrator.workspaces == o.workspaces && r.orchestrator.patterns == o.patterns
    ensures r.outcome.Fail? ==> r.applied == []
    ensures r.applied == [] ==> r.orchestrator.windows.provider == o.windows.provider
    ensures r.applied != [] ==> r.outcome.Pass? && |r.applied| <= o.config.maxAutoTileWindows
    ensures forall i :: 0 <= i < |r.applied| ==> TiledWindow(o, r, i)
  {
    var (wm, ws) := TileableWindows(o.windows);
    if |ws| == 0 || |ws| > o.config.maxAutoTileWindows then Arranged(o.(windows := wm), Pass, [])
    else LayOut(o, wm, ws, p)
  }

  /** `arrange_current_workspace`. Nothing happens without an active workspace, with
      auto-arrange off, without tileable windows or with more of them than the limit; a
      workspace whose pattern is not registered is a configuration error; otherwise the
      engine's layout is applied to the tileable windows. */
  function Arrange(o: Orchestrator): (r: Arranged)
    requires WM.Valid(o.windows)
    ensures WM.Valid(r.orchestrator.windows)
    ensures r.orchestrator.workspaces == o.workspaces && r.orchestrator.patterns == o.patterns
    ensures ActiveWorkspace(o).None? ==> r == Arranged(o, Pass, [])
    ensures ActiveWorkspace(o).Some? && !ActiveWorkspace(o).value.autoArrange ==> r == Arranged(o, Pass, [])
    ensures ActiveWorkspace(o).Some? && ActiveWorkspace(o).value.autoArrange
            && ActiveWorkspace(o).value.tilingPatternId !in o.patterns
            ==> r == Arranged(o, Fail(SystemFailure(ConfigurationError(PatternNotFound))), [])
    ensures r.outcome.Fail? ==> r.applied == []
    ensures r.applied == [] ==> r.orchestrator.windows.provider == o.windows.provider
    ensures r.applied != [] ==>
              && r.outcome.Pass?
              && ActiveWorkspace(o).Some? && ActiveWorkspace(o).value.autoArrange
              && ActiveWorkspace(o).value.tilingPatternId in o.patterns
              && |r.applied| <= o.config.maxAutoTileWindows
    ensures forall i :: 0 <= i < |r.applied| ==> TiledWindow(o, r, i)
  {
    match ActiveWorkspace(o)
    case None => Arranged(o, Pass, [])
    case Some(w) =>
      if !w.autoArrange then Arranged(o, Pass, [])
      else if w.tilingPatternId !in o.patterns then
        Arranged(o, Fail(SystemFailure(ConfigurationError(PatternNotFound))), [])
      else Tile(o, o.patterns[w.tilingPatternId])
  }

  // ---------------------------------------------------------------------------
  // Cyclic focus
  // ---------------------------------------------------------------------------

  /** The position `focus_next_window` moves to among `n` windows: none with at most one
      window, the one after the focused one (wrapping round), the first when none is
      focused. */
  function NextIndex(focused: Option<nat>, n: nat): (r: Option<nat>)
    requires focused.Some? ==> focused.value < n
    ensures r.Some? <==> n > 1
    ensures r.Some? ==> r.value < n
    ensures r.Some? && focused.Some? ==> r.value == (if focused.value + 1 == n then 0 else focused.value + 1)
    ensures r.Some? && focused.None? ==> r.value == 0
  {
    if n <= 1 then None
    else match focused
      case Some(i) => Some((i + 1) % n)
      case None => Some(0)
  }

  /** The position `focus_previous_window` moves to: the one before the focused one
      (wrapping round), the last when none is focused. */
  function PreviousIndex(focused: Option<nat>, n: nat): (r: Option<nat>)
    requires focused.Some? ==> focused.value < n
    ensures r.Some? <==> n > 1
    ensures r.Some? ==> r.value < n
    ensures r.Some? && focused.Some? ==> r.value == (focused.value + n - 1) % n
    ensures r.Some? && focused.None? ==> r.value == n - 1
  {
    if n <= 1 then None
    else match focused
      case Some(i) => Some(if i == 0 then n - 1 else i - 1)
      case None => Some(n - 1)
  }

  /** Previous undoes next and next undoes previous. */
  lemma PreviousInvertsNext(i: nat, n: nat)
    requires i < n && n > 1
    ensures PreviousIndex(NextIndex(Some(i), n), n) == Some(i)
    ensures NextIndex(PreviousIndex(Some(i), n), n) == Some(i)
  {
  }

  /** Moving on from a focused window never stays on it; with nothing focused the two
      directions start at opposite ends. */
  lemma FocusMoves(i: nat, n: nat)
    requires i < n && n > 1
    ensures NextIndex(Some(i), n) != Some(i) && PreviousIndex(Some(i), n) != Some(i)
    ensures NextIndex(None, n) == Some(0) && PreviousIndex(None, n) == Some(n - 1)
  {
  }

  /** `k` presses of "focus next" from position `i`. */
  function NextTimes(i: nat, n: nat, k: nat): (r: nat)
    requires i < n && n > 1
    ensures r < n
  {
    if k == 0 then i else NextIndex(Some(NextTimes(i, n, k - 1)), n).value
  }

  /** Presses that do not reach the end of the ring move one place each. */
  lemma {:induction false} NextTimesClimbs(i: nat, n: nat, k: nat)
    requires i + k < n && n > 1
    ensures NextTimes(i, n, k) == i + k
  {
    if k > 0 {
      NextTimesClimbs(i, n, k - 1);
    }
  }

  lemma {:induction false} NextTimesCompose(i: nat, n: nat, a: nat, b: nat)
    requires i < n && n > 1
    ensures NextTimes(i, n, a + b) == NextTimes(NextTimes(i, n, a), n, b)
  {
    if b > 0 {
      NextTimesCompose(i, n, a, b - 1);
    }
  }

  /** `n` presses of "focus next" come back to the window they started from. */
  lemma NextCycle(i: nat, n: nat)
    requires i < n && n > 1
    ensures NextTimes(i, n, n) == i
  {
    NextTimesClimbs(i, n, n - 1 - i);
    NextTimesCompose(i, n, n - 1 - i, 1);
    NextTimesCompose(i, n, n - i, i);
    if i > 0 {
      NextTimesClimbs(0, n, i);
    }
  }

  function FocusedPosition(ws: seq<WM.WindowInfo>): (r: Option<nat>)
    ensures r.Some? ==> r.value < |ws| && ws[r.value].isFocused
    ensures r.None? <==> forall i :: 0 <= i < |ws| ==> !ws[i].isFocused
  {
    FirstWhere(ws, (w: WM.WindowInfo) => w.isFocused)
  }

  /** Exactly the window `id` is focused in the cache. */
  predicate FocusedOnly(wm: WM.WindowManager, id: nat) {
    id in wm.cache && forall k :: k in wm.cache ==> (wm.cache[k].isFocused <==> k == id)
  }

  /** Focuses the tileable window at position `j`, if any. The window comes from the
      cache, which only holds windows the provider knows, so focusing cannot fail. */
  function FocusAt(o: Orchestrator, ws: seq<WM.WindowInfo>, j: Option<nat>): (r: Orchestrator)
    requires WM.Valid(o.windows)
    requires forall w :: w in ws ==> w.id in o.windows.cache
    requires j.Some? ==> j.value < |ws|
    ensures WM.Valid(r.windows) && r.workspaces == o.workspaces
    ensures j.None? ==> r == o
    ensures j.Some? ==> FocusedOnly(r.windows, ws[j.value].id)
  {
    match j
    case None => o
    case Some(i) =>
      assert ws[i] in ws;
      var (wm, _) := WM.FocusWindow(o.windows, ws[i].id);
      WM.FocusIsExclusive(o.windows, ws[i].id);
      WM.CommandsPreserveValid(o.windows, ws[i].id, A.Rect(A.Point(0.0, 0.0), A.Size(0.0, 0.0)), false);
      o.(windows := wm)
  }

  /** `focus_next_window`. */
  function FocusNext(o: Orchestrator): (r: (Orchestrator, Outcome<Failure>))
    requires WM.Valid(o.windows)
    ensures r.1.Pass? && WM.Valid(r.0.windows) && r.0.workspaces == o.workspaces
    ensures var (wm, ws) := TileableWindows(o.windows);
            var j := NextIndex(FocusedPosition(ws), |ws|);
            && (|ws| <= 1 ==> r.0 == o.(windows := wm))
            && (|ws| > 1 ==> FocusedOnly(r.0.windows, ws[j.value].id))
  {
    var (wm, ws) := TileableWindows(o.windows);
    (FocusAt(o.(windows := wm), ws, NextIndex(FocusedPosition(ws), |ws|)), Pass)
  }

  /** `focus_previous_window`. */
  function FocusPrevious(o: Orchestrator): (r: (Orchestrator, Outcome<Failure>))
    requires WM.Valid(o.windows)
    ensures r.1.Pass? && WM.Valid(r.0.windows) && r.0.workspaces == o.workspaces
    ensures var (wm, ws) := TileableWindows(o.windows);
            var j := PreviousIndex(FocusedPosition(ws), |ws|);
            && (|ws| <= 1 ==> r.0 == o.(windows := wm))
            && (|ws| > 1 ==> FocusedOnly(r.0.windows, ws[j.value].id))
  {
    var (wm, ws) := TileableWindows(o.windows);
    (FocusAt(o.(windows := wm), ws, PreviousIndex(FocusedPosition(ws), |ws|)), Pass)
  }

  // ---------------------------------------------------------------------------
  // Workspace commands
  // ---------------------------------------------------------------------------

  /** The shortcut `create_new_workspace` derives: "opt+" and the name's first character,
      or 'x' for an empty name. */
  function NewWorkspaceShortcut(name: string): (s: string)
    ensures |s| == 5 && s[..4] == WS.ModifierWords[2] + ['+']
    ensures s[4] == (if |name| > 0 then name[0] else 'x')
  {
    "opt+" + [if |name| > 0 then name[0] else 'x']
  }

  /** The derived shortcut passes the workspace shortcut check exactly when the name is
      empty or starts with an ASCII letter or digit. */
  lemma NewShortcutValidIff(name: string)
    ensures WS.ValidateKeyboardShortcut(NewWorkspaceShortcut(name)).Pass?
            <==> |name| == 0 || IsAsciiAlphanumeric(name[0])
  {
    var s := NewWorkspaceShortcut(name);
    var c := s[4];
    assert s == "opt+" + [c];
    ShortcutSplit(c);
    if c == '+' {
      assert Split(s, '+')[..2] == ["opt", ""];
      assert "" !in WS.ModifierWords;
    } else {
      assert Split(s, '+')[..1] == ["opt"];
      assert "opt" == WS.ModifierWords[2];
      assert WS.KeyWordIsValid([c]) <==> IsAsciiAlphanumeric(c) || c == 'F';
    }
  }

  /** How the derived shortcut splits at '+'. */
  lemma ShortcutSplit(c: char)
    ensures Split("opt+" + [c], '+') == if c == '+' then ["opt", "", ""] else ["opt", [c]]
  {
    assert "opt+" + [c] == "opt" + ['+'] + [c];
    SplitCons("opt", [c], '+');
    if c == '+' {
      assert [c] == [] + ['+'] + [];
      SplitCons([], [], '+');
    } else {
      SplitSingle([c], '+');
    }
  }

  const CreatedDescription: string := "Workspace created via keyboard shortcut"

  /** The request `create_new_workspace` sends: the derived shortcut, the default pattern,
      auto-arrange on. */
  function CreateRequestFor(name: string): (req: WS.CreateRequest)
    ensures req.name == name && req.keyboardShortcut == NewWorkspaceShortcut(name)
    ensures req.tilingPatternId.None? && req.autoArrange == Some(true)
  {
    WS.CreateRequest(name, Some(CreatedDescription), NewWorkspaceShortcut(name), None, Some(true))
  }

  /** `create_new_workspace`: creates the workspace under the fresh id with the pattern
      the registry yields first, or a fresh pattern id when none is registered. */
  function CreateNewWorkspace(o: Orchestrator, name: string, ctx: Context): (r: (Orchestrator, Outcome<Failure>))
    requires ChoiceOk(o, ctx)
    ensures r.0.windows == o.windows && r.0.patterns == o.patterns
    ensures r.1.Fail? ==> r.0.workspaces.workspaces == o.workspaces.workspaces && r.1.error.WorkspaceFailure?
    ensures r.1.Pass? ==> && ctx.freshId in WSM.Keys(r.0.workspaces.workspaces)
                          && WS.NewWorkspace(CreateRequestFor(name), ctx.patternChoice, ctx.freshId, ctx.now).Ok?
                          && var w := WS.NewWorkspace(CreateRequestFor(name), ctx.patternChoice, ctx.freshId, ctx.now).value;
                             && w.keyboardShortcut == NewWorkspaceShortcut(name) && w.autoArrange
                             && (o.patterns != map[] ==> w.tilingPatternId in o.patterns)
    ensures r.1.Pass? ==> |name| == 0 || IsAsciiAlphanumeric(name[0])
  {
    var step := WSM.Create(o.workspaces, CreateRequestFor(name), ctx.patternChoice, ctx.freshId, ctx.now);
    NewShortcutValidIff(name);
    WS.ValidateShortcutIff(NewWorkspaceShortcut(name));
    (o.(workspaces := step.manager), if step.result.Err? then Fail(WorkspaceFailure(step.result.error)) else Pass)
  }

  /** `delete_current_workspace`: deletes the active workspace, if there is one. */
  function DeleteCurrentWorkspace(o: Orchestrator, ctx: Context): (r: (Orchestrator, Outcome<Failure>))
    ensures r.0.windows == o.windows && r.0.patterns == o.patterns
    ensures ActiveWorkspace(o).None? ==> r == (o, Pass)
    ensures ActiveWorkspace(o).Some? ==> r.1.Pass? && r.0.workspaces == WSM.Delete(o.workspaces, ActiveWorkspace(o).value.id, ctx.now).manager
  {
    match ActiveWorkspace(o)
    case None => (o, Pass)
    case Some(w) =>
      var step := WSM.Delete(o.workspaces, w.id, ctx.now);
      assert w.id in WSM.Keys(o.workspaces.workspaces);
      (o.(workspaces := step.manager), Pass)
  }

  /** The workspace `SwitchWorkspace` targets: the one its parameters name, or else the
      first listed workspace, if any. */
  function SwitchTarget(o: Orchestrator, params: KM.ActionParameters): (r: Option<Uuid>)
    ensures params.WorkspaceId? ==> r == Some(params.workspace)
    ensures !params.WorkspaceId? ==> (r.Some? <==> |o.workspaces.workspaces| > 0)
    ensures !params.WorkspaceId? && r.Some? ==> r.value == o.workspaces.workspaces[0].id
  {
    if params.WorkspaceId? then Some(params.workspace)
    else if |o.workspaces.workspaces| > 0 then Some(o.workspaces.workspaces[0].id)
    else None
  }

  /** `toggle_focused_window_floating`: toggles the first focused window in id order. */
  function ToggleFocusedFloating(o: Orchestrator): (r: (Orchestrator, Outcome<Failure>))
    requires WM.Valid(o.windows)
    ensures WM.Valid(r.0.windows) && r.0.workspaces == o.workspaces
    ensures r.1.Pass?
  {
    var (wm, all) := WM.ListWindows(o.windows, true, None);
    match FirstWhere(all, (w: WM.WindowInfo) => w.isFocused)
    case None => (o.(windows := wm), Pass)
    case Some(i) =>
      assert all[i] in all;
      var (next, res) := WM.ToggleFloating(wm, all[i].id);
      WM.QueriesPreserveValid(wm, all[i].id);
      (o.(windows := next), match res case Ok(_) => Pass case Err(e) => Fail(SystemFailure(e)))
  }

  /** Toggling acts on the listing `ListWindows(windows, true, None)`: with no focused window
      the refreshed manager is kept; otherwise exactly the first focused window's cached mode
      is toggled. */
  lemma ToggleFocusedFloatingToggles(o: Orchestrator, i: nat)
    requires WM.Valid(o.windows)
    ensures var (wm, all) := WM.ListWindows(o.windows, true, None);
            && ((forall k :: 0 <= k < |all| ==> !all[k].isFocused) ==> ToggleFocusedFloating(o).0.windows == wm)
            && (i < |all| && all[i].isFocused && (forall k :: 0 <= k < i ==> !all[k].isFocused) ==>
                  && all[i].id in wm.cache
                  && ToggleFocusedFloating(o).0.windows
                     == wm.(cache := wm.cache[all[i].id := wm.cache[all[i].id].(mode := WM.Toggled(wm.cache[all[i].id].mode))]))
  {
    var (wm, all) := WM.ListWindows(o.windows, true, None);
    var found := FirstWhere(all, (w: WM.WindowInfo) => w.isFocused);
    if i < |all| && all[i].isFocused && (forall k :: 0 <= k < i ==> !all[k].isFocused) {
      assert found.Some?;
      assert found.value == i;
      assert all[i] in all;
    }
  }

  // ---------------------------------------------------------------------------
  // Dispatch
  // ---------------------------------------------------------------------------

  /** Actions the orchestrator acknowledges without acting. */
  predicate Acknowledged(a: KM.ActionType) {
    a.MoveWindowToMonitor? || a.ToggleFullscreen? || a.CloseWindow? || a.ShowOverview? || a.CustomAction?
    || a.ResizeWindow? || a.MinimizeWindow?
  }

  /** The SwitchWorkspace arm: switches to the target the parameters name, if any. */
  function SwitchFor(o: Orchestrator, parameters: KM.ActionParameters, ctx: Context): (r: (Orchestrator, Outcome<Failure>))
    ensures r.0.windows == o.windows
    ensures var t := SwitchTarget(o, parameters);
            && (t.None? ==> r == (o, Pass))
            && (t.Some? ==> && (r.1.Pass? <==> t.value in WSM.Keys(o.workspaces.workspaces))
                            && (r.1.Pass? ==> r.0.workspaces.active == t)
                            && (r.1.Fail? ==> r.0 == o && r.1 == Fail(WorkspaceFailure(WSM.NotFound(t.value)))))
  {
    match SwitchTarget(o, parameters)
    case None => (o, Pass)
    case Some(id) =>
      var step := WSM.Switch(o.workspaces, id, ctx.now);
      if step.result.Err? then (o, Fail(WorkspaceFailure(step.result.error)))
      else (o.(workspaces := step.manager), Pass)
  }

  /** `handle_keyboard_event`: runs the action the event names. */
  function HandleKeyboardEvent(o: Orchestrator, e: KH.KeyboardEvent, ctx: Context): (r: (Orchestrator, Outcome<Failure>))
    requires WM.Valid(o.windows) && ChoiceOk(o, ctx)
    ensures WM.Valid(r.0.windows)
    ensures Acknowledged(e.action) ==> r == (o, Pass)
    ensures e.action.SwitchWorkspace? ==>
              var t := SwitchTarget(o, e.parameters);
              && (t.None? ==> r == (o, Pass))
              && (t.Some? ==> && (r.1.Pass? <==> t.value in WSM.Keys(o.workspaces.workspaces))
                              && (r.1.Pass? ==> r.0.workspaces.active == t)
                              && (r.1.Fail? ==> r.0 == o && r.1 == Fail(WorkspaceFailure(WSM.NotFound(t.value)))))
    ensures e.action.MoveWindow? ==> r.1.Pass? && r.0.workspaces == o.workspaces
    ensures e.action.CreateWorkspace? ==>
              if e.parameters.WorkspaceName? then r == CreateNewWorkspace(o, e.parameters.workspaceName, ctx)
              else r == (o, Pass)
    ensures e.action.DeleteWorkspace? ==> r == DeleteCurrentWorkspace(o, ctx)
    ensures e.action.ToggleFloating? ==> r == ToggleFocusedFloating(o)
    ensures e.action.FocusNext? ==> r == FocusNext(o)
    ensures e.action.FocusPrevious? ==> r == FocusPrevious(o)
    ensures e.action.RefreshLayout? ==> r == (Arrange(o).orchestrator, Arrange(o).outcome)
  {
    match e.action
    case SwitchWorkspace => SwitchFor(o, e.parameters, ctx)
    case MoveWindow =>
      if e.parameters.WorkspaceId? then (o.(windows := WM.ListWindows(o.windows, true, None).0), Pass)
      else (o, Pass)
    case CreateWorkspace =>
      if e.parameters.WorkspaceName? then CreateNewWorkspace(o, e.parameters.workspaceName, ctx) else (o, Pass)
    case DeleteWorkspace => DeleteCurrentWorkspace(o, ctx)
    case ToggleFloating => ToggleFocusedFloating(o)
    case FocusNext => FocusNext(o)
    case FocusPrevious => FocusPrevious(o)
    case RefreshLayout =>
      var a := Arrange(o);
      (a.orchestrator, a.outcome)
    case _ => (o, Pass)
  }

  /** `handle_workspace_event`: an activation re-arranges when both the orchestrator and
      the activated workspace ask for it; every other event is only acknowledged. */
  function HandleWorkspaceEvent(o: Orchestrator, ev: WSM.WorkspaceEvent): (r: (Orchestrator, Outcome<Failure>))
    requires WM.Valid(o.windows)
    ensures !(ev.WorkspaceActivated? && o.config.autoArrangeOnSwitch && ev.workspace.autoArrange) ==> r == (o, Pass)
    ensures ev.WorkspaceActivated? && o.config.autoArrangeOnSwitch && ev.workspace.autoArrange
            ==> r == (Arrange(o).orchestrator, Arrange(o).outcome)
  {
    if ev.WorkspaceActivated? && o.config.autoArrangeOnSwitch && ev.workspace.autoArrange then
      var a := Arrange(o);
      (a.orchestrator, a.outcome)
    else (o, Pass)
  }

  /** A switch to a known workspace by id makes it active; pressing a parameterless switch
      with workspaces present activates the first listed one. */
  lemma SwitchDispatch(o: Orchestrator, e: KH.KeyboardEvent, ctx: Context)
    requires WM.Valid(o.windows) && ChoiceOk(o, ctx)
    requires e.action.SwitchWorkspace?
    ensures e.parameters.WorkspaceId? && e.parameters.workspace in WSM.Keys(o.workspaces.workspaces)
            ==> HandleKeyboardEvent(o, e, ctx).0.workspaces.active == Some(e.parameters.workspace)
    ensures !e.parameters.WorkspaceId? && |o.workspaces.workspaces| > 0
            ==> HandleKeyboardEvent(o, e, ctx).0.workspaces.active == Some(o.workspaces.workspaces[0].id)
    ensures !e.parameters.WorkspaceId? && |o.workspaces.workspaces| == 0 ==> HandleKeyboardEvent(o, e, ctx) == (o, Pass)
  {
    if !e.parameters.WorkspaceId? && |o.workspaces.workspaces| > 0 {
      assert o.workspaces.workspaces[0].id in WSM.Keys(o.workspaces.workspaces);
    }
  }
}
