/** The window manager service: a cache of the windows the accessibility provider
  reports, enriched with the monitor each window sits on and with the tiling mode the
  user chose, and the window commands that go through the provider and keep the cache
  in step.

  The shared `RwLock`s of the service become one immutable `WindowManager` value;
  every operation returns the next manager with its answer. The display provider is
  represented by what its `list_monitors` returned: `None` when it failed.
 */
module WindowManagement {
  import opened Wrappers
  import opened Core
  import A = Accessibility

  datatype WindowMode = Tiled | Floating | Fullscreen

  /** `WindowInfo`: a window as the manager sees it. */
  datatype WindowInfo = WindowInfo(
    id: nat,
    title: string,
    applicationName: string,
    bundleId: string,
    position: A.Point,
    size: A.Size,
    isMinimized: bool,
    isFullscreen: bool,
    isFocused: bool,
    monitorId: Option<string>,
    mode: WindowMode)

  /** `Bounds` and `MonitorInfo` of the display layer. */
  datatype Bounds = Bounds(x: real, y: real, width: real, height: real)

  datatype MonitorInfo = MonitorInfo(
    id: string,
    name: string,
    bounds: Bounds,
    scaleFactor: real,
    isPrimary: bool)

  datatype Metrics = Metrics(
    refreshCount: nat,
    focusEvents: nat,
    moveEvents: nat,
    minimizeEvents: nat,
    errorCount: nat)

  datatype WindowManager = WindowManager(
    provider: A.Provider,
    displays: Option<seq<MonitorInfo>>,
    cache: map<nat, WindowInfo>,
    metrics: Metrics)

  /** The manager invariant: the provider keeps windows under their ids, the cache does
      too, and the cache only holds windows the provider knows. */
  predicate Valid(wm: WindowManager) {
    && A.Valid(wm.provider)
    && (forall k :: k in wm.cache ==> wm.cache[k].id == k)
    && wm.cache.Keys <= wm.provider.windows.Keys
  }

  /** `WindowManager::new`: an empty cache and zeroed metrics. */
  function NewManager(provider: A.Provider, displays: Option<seq<MonitorInfo>>): (wm: WindowManager)
    requires A.Valid(provider)
    ensures Valid(wm) && |wm.cache| == 0 && wm.metrics == Metrics(0, 0, 0, 0, 0)
  {
    WindowManager(provider, displays, map[], Metrics(0, 0, 0, 0, 0))
  }

  function BumpError(wm: WindowManager): (r: WindowManager)
    ensures r.metrics.errorCount == wm.metrics.errorCount + 1
  {
    wm.(metrics := wm.metrics.(errorCount := wm.metrics.errorCount + 1))
  }

  /** `ensure_permissions`: the provider's answer; a refusal is counted as an error. */
  function EnsurePermissions(wm: WindowManager): (r: (WindowManager, Outcome<TilleRSError>))
    ensures r.1.Pass? <==> wm.provider.status == A.Granted
    ensures r.1.Fail? ==> r.1.error.PermissionDenied? && r.0 == BumpError(wm)
    ensures r.1.Pass? ==> r.0 == wm
  {
    match A.EnsurePermissions(wm.provider)
    case Pass => (wm, Pass)
    case Fail(e) => (BumpError(wm), Fail(e))
  }

  // ---------------------------------------------------------------------------
  // The cache
  // ---------------------------------------------------------------------------

  /** A point lies on a monitor when it is inside its bounds, edges included. */
  predicate OnMonitor(p: A.Point, m: MonitorInfo) {
    && m.bounds.x <= p.x <= m.bounds.x + m.bounds.width
    && m.bounds.y <= p.y <= m.bounds.y + m.bounds.height
  }

  /** `infer_monitor`: the id of the first monitor the window's origin lies on. */
  function InferMonitor(p: A.Point, monitors: seq<MonitorInfo>): (r: Option<string>)
    ensures r.None? <==> forall i :: 0 <= i < |monitors| ==> !OnMonitor(p, monitors[i])
    ensures r.Some? ==> exists i :: 0 <= i < |monitors| && OnMonitor(p, monitors[i]) && monitors[i].id == r.value
                                    && forall j :: 0 <= j < i ==> !OnMonitor(p, monitors[j])
  {
    if |monitors| == 0 then None
    else if OnMonitor(p, monitors[0]) then Some(monitors[0].id)
    else
      var r := InferMonitor(p, monitors[1..]);
      assert r.Some? ==> exists i :: 0 <= i < |monitors| && OnMonitor(p, monitors[i]) && monitors[i].id == r.value
                                     && forall j :: 0 <= j < i ==> !OnMonitor(p, monitors[j]) by {
        if r.Some? {
          var i :| 0 <= i < |monitors| - 1 && OnMonitor(p, monitors[1..][i]) && monitors[1..][i].id == r.value
                   && forall j :: 0 <= j < i ==> !OnMonitor(p, monitors[1..][j]);
          assert monitors[i + 1] == monitors[1..][i];
          forall j | 0 <= j < i + 1 ensures !OnMonitor(p, monitors[j]) {
            if j > 0 { assert monitors[j] == monitors[1..][j - 1]; }
          }
        }
      }
      assert r.None? ==> forall i :: 0 <= i < |monitors| ==> !OnMonitor(p, monitors[i]) by {
        if r.None? {
          forall i | 0 <= i < |monitors| ensures !OnMonitor(p, monitors[i]) {
            if i > 0 { assert monitors[i] == monitors[1..][i - 1]; }
          }
        }
      }
      r
  }

  /** The monitor of a window the provider did not place: inferred when the monitors
      are known, unknown otherwise. */
  function MonitorOf(p: A.Point, displays: Option<seq<MonitorInfo>>): Option<string> {
    match displays
    case None => None
    case Some(ms) => InferMonitor(p, ms)
  }

  /** The cache entry for a window freshly read from the provider. */
  function InfoOf(ax: A.AXWindow, displays: Option<seq<MonitorInfo>>): (info: WindowInfo)
    ensures info.id == ax.windowId
    ensures info.position == ax.frame.origin && info.size == ax.frame.size
    ensures info.isMinimized == ax.isMinimized && info.isFocused == ax.isFocused
    ensures info.mode == (if ax.isFullscreen then Fullscreen else Tiled)
    ensures ax.monitorId.Some? ==> info.monitorId == ax.monitorId
    ensures ax.monitorId.None? ==> info.monitorId == MonitorOf(ax.frame.origin, displays)
  {
    var mode := if ax.isFullscreen then Fullscreen else Tiled;
    var monitor := if ax.monitorId.Some? then ax.monitorId else MonitorOf(ax.frame.origin, displays);
    WindowInfo(ax.windowId, ax.title, ax.applicationName, ax.bundleId, ax.frame.origin, ax.frame.size,
               ax.isMinimized, ax.isFullscreen, ax.isFocused, monitor, mode)
  }

  /** `refresh_cache`: the cache is rebuilt from every window of the provider, minimized
      ones included. Any mode chosen earlier is lost: a refreshed window is fullscreen
      or tiled. */
  function RefreshCache(wm: WindowManager): (r: WindowManager)
    ensures r.cache.Keys == wm.provider.windows.Keys
    ensures forall k :: k in r.cache ==> r.cache[k] == InfoOf(wm.provider.windows[k], wm.displays)
    ensures r.provider == wm.provider && r.displays == wm.displays
    ensures r.metrics == wm.metrics.(refreshCount := wm.metrics.refreshCount + 1)
    ensures A.Valid(wm.provider) ==> Valid(r)
  {
    var cache := map k | k in wm.provider.windows :: InfoOf(wm.provider.windows[k], wm.displays);
    wm.(cache := cache, metrics := wm.metrics.(refreshCount := wm.metrics.refreshCount + 1))
  }

  /** A refresh forgets every floating choice. */
  lemma RefreshForgetsFloating(wm: WindowManager)
    ensures forall k :: k in RefreshCache(wm).cache ==> RefreshCache(wm).cache[k].mode != Floating
    ensures forall k :: k in RefreshCache(wm).cache ==>
              (RefreshCache(wm).cache[k].mode == Fullscreen <==> wm.provider.windows[k].isFullscreen)
  {
  }

  /** `list_windows`: refreshes an empty cache first, then the cached windows, minimized
      ones only when asked and only those on the requested monitor, sorted by id. */
  function ListWindows(wm: WindowManager, includeMinimized: bool, monitor: Option<string>)
    : (r: (WindowManager, seq<WindowInfo>))
    requires Valid(wm)
    ensures Valid(r.0)
    ensures r.0 == (if |wm.cache| == 0 then RefreshCache(wm) else wm)
    ensures forall w :: w in r.1 <==> && w.id in r.0.cache && r.0.cache[w.id] == w
                                      && (includeMinimized || !w.isMinimized)
                                      && (monitor.None? || w.monitorId == monitor)
    ensures forall a, b :: 0 <= a < b < |r.1| ==> r.1[a].id < r.1[b].id
  {
    var next := if |wm.cache| == 0 then RefreshCache(wm) else wm;
    var keep := (w: WindowInfo) => (includeMinimized || !w.isMinimized) && (monitor.None? || w.monitorId == monitor);
    (next, A.Pick(next.cache, A.SortedIds(next.cache.Keys), keep, (w: WindowInfo) => w.id))
  }

  /** `get_window`: the cached window, or else the provider's after a refresh. */
  function GetWindow(wm: WindowManager, id: nat): (r: (WindowManager, Option<WindowInfo>))
    ensures id in wm.cache ==> r == (wm, Some(wm.cache[id]))
    ensures id !in wm.cache ==> r.0 == RefreshCache(wm)
    ensures r.1.Some? <==> id in wm.cache || id in wm.provider.windows
    ensures r.1.Some? ==> id in r.0.cache && r.1.value == r.0.cache[id]
  {
    if id in wm.cache then (wm, Some(wm.cache[id]))
    else
      var next := RefreshCache(wm);
      (next, if id in next.cache then Some(next.cache[id]) else None)
  }

  // ---------------------------------------------------------------------------
  // Window commands
  // ---------------------------------------------------------------------------

  /** `focus_window`: the provider focuses the window; the cache then marks exactly the
      entries with that id as focused. A provider refusal is counted as an error. */
  function FocusWindow(wm: WindowManager, id: nat): (r: (WindowManager, Outcome<TilleRSError>))
    ensures r.1.Fail? <==> id !in wm.provider.windows
    ensures r.1.Fail? ==> r.1.error == WindowNotFound(id) && r.0 == BumpError(wm)
    ensures r.1.Pass? ==> && r.0.provider == A.FocusWindow(wm.provider, id).0
                          && r.0.cache.Keys == wm.cache.Keys && r.0.displays == wm.displays
                          && (forall k :: k in r.0.cache ==> (r.0.cache[k].isFocused <==> wm.cache[k].id == id))
                          && (forall k :: k in r.0.cache ==> r.0.cache[k].(isFocused := wm.cache[k].isFocused) == wm.cache[k])
                          && r.0.metrics == wm.metrics.(focusEvents := wm.metrics.focusEvents + 1)
  {
    var (p, out) := A.FocusWindow(wm.provider, id);
    if out.Fail? then (BumpError(wm), out)
    else
      var cache := map k | k in wm.cache :: wm.cache[k].(isFocused := wm.cache[k].id == id);
      (wm.(provider := p, cache := cache, metrics := wm.metrics.(focusEvents := wm.metrics.focusEvents + 1)), Pass)
  }

  /** After a successful focus the target is the only focused window, in the cache and
      in the provider alike. */
  lemma FocusIsExclusive(wm: WindowManager, id: nat)
    requires Valid(wm)
    requires FocusWindow(wm, id).1.Pass?
    ensures var c := FocusWindow(wm, id).0.cache;
            forall k :: k in c ==> (c[k].isFocused <==> k == id)
    ensures var ws := FocusWindow(wm, id).0.provider.windows;
            forall k :: k in ws ==> (ws[k].isFocused <==> k == id)
  {
  }

  /** `set_window_frame`: the provider moves the window; a cached entry takes the new
      position and size, and an uncached window triggers a refresh. */
  function SetWindowFrame(wm: WindowManager, id: nat, frame: A.Rect): (r: (WindowManager, Outcome<TilleRSError>))
    ensures r.1.Fail? <==> id !in wm.provider.windows
    ensures r.1.Fail? ==> r.1.error == WindowNotFound(id) && r.0 == BumpError(wm)
    ensures r.1.Pass? ==> r.0.provider == A.SetWindowFrame(wm.provider, id, frame).0
    ensures r.1.Pass? && id in wm.cache ==>
              && r.0.cache == wm.cache[id := wm.cache[id].(position := frame.origin, size := frame.size)]
              && r.0.metrics == wm.metrics.(moveEvents := wm.metrics.moveEvents + 1)
    ensures r.1.Pass? && id !in wm.cache ==>
              && r.0.cache == RefreshCache(wm.(provider := r.0.provider)).cache
              && r.0.metrics == wm.metrics.(refreshCount := wm.metrics.refreshCount + 1,
                                             moveEvents := wm.metrics.moveEvents + 1)
    ensures r.0.displays == wm.displays
  {
    var (p, out) := A.SetWindowFrame(wm.provider, id, frame);
    if out.Fail? then (BumpError(wm), out)
    else
      var next := if id in wm.cache
        then wm.(provider := p, cache := wm.cache[id := wm.cache[id].(position := frame.origin, size := frame.size)])
        else RefreshCache(wm.(provider := p));
      (next.(metrics := next.metrics.(moveEvents := next.metrics.moveEvents + 1)), Pass)
  }

  /** `set_window_minimized`: the provider minimizes or restores the window; a cached
      entry follows, and an uncached window triggers a refresh. */
  function SetWindowMinimized(wm: WindowManager, id: nat, minimized: bool): (r: (WindowManager, Outcome<TilleRSError>))
    ensures r.1.Fail? <==> id !in wm.provider.windows
    ensures r.1.Fail? ==> r.1.error == WindowNotFound(id) && r.0 == BumpError(wm)
    ensures r.1.Pass? ==> r.0.provider == A.SetWindowMinimized(wm.provider, id, minimized).0
    ensures r.1.Pass? && id in wm.cache ==>
              && r.0.cache == wm.cache[id := wm.cache[id].(isMinimized := minimized)]
              && r.0.metrics == wm.metrics.(minimizeEvents := wm.metrics.minimizeEvents + 1)
    ensures r.1.Pass? && id !in wm.cache ==>
              && r.0.cache == RefreshCache(wm.(provider := r.0.provider)).cache
              && r.0.metrics == wm.metrics.(refreshCount := wm.metrics.refreshCount + 1,
                                             minimizeEvents := wm.metrics.minimizeEvents + 1)
    ensures r.0.displays == wm.displays
  {
    var (p, out) := A.SetWindowMinimized(wm.provider, id, minimized);
    if out.Fail? then (BumpError(wm), out)
    else
      var next := if id in wm.cache
        then wm.(provider := p, cache := wm.cache[id := wm.cache[id].(isMinimized := minimized)])
        else RefreshCache(wm.(provider := p));
      (next.(metrics := next.metrics.(minimizeEvents := next.metrics.minimizeEvents + 1)), Pass)
  }

  /** Whichever path a successful move takes, reading the window back gives the new
      frame. */
  lemma FrameThenGet(wm: WindowManager, id: nat, frame: A.Rect)
    requires Valid(wm)
    requires SetWindowFrame(wm, id, frame).1.Pass?
    ensures var after := SetWindowFrame(wm, id, frame).0;
            var got := GetWindow(after, id);
            && got.0 == after && got.1.Some?
            && got.1.value.position == frame.origin && got.1.value.size == frame.size
  {
  }

  /** Whichever path a successful minimize takes, reading the window back gives the
      new state. */
  lemma MinimizeThenGet(wm: WindowManager, id: nat, minimized: bool)
    requires Valid(wm)
    requires SetWindowMinimized(wm, id, minimized).1.Pass?
    ensures var after := SetWindowMinimized(wm, id, minimized).0;
            var got := GetWindow(after, id);
            && got.0 == after && got.1.Some? && got.1.value.isMinimized == minimized
  {
  }

  /** The next mode of a cached window: fullscreen stays, tiled and floating swap. */
  function Toggled(m: WindowMode): (r: WindowMode)
    ensures m == Fullscreen <==> r == Fullscreen
    ensures m != Fullscreen ==> r != m
  {
    match m
    case Tiled => Floating
    case Floating => Tiled
    case Fullscreen => Fullscreen
  }

  /** `toggle_floating`. A cached window swaps between tiled and floating; an uncached
      one is looked up after a refresh and made floating; a fullscreen window keeps its
      mode; a window the provider does not know either is an error, counted. */
  function ToggleFloating(wm: WindowManager, id: nat): (r: (WindowManager, Result<WindowMode, TilleRSError>))
    ensures r.1.Err? <==> id !in wm.cache && id !in wm.provider.windows
    ensures r.1.Err? ==> r.1.error == WindowNotFound(id) && r.0 == BumpError(RefreshCache(wm))
    ensures id in wm.cache ==> && r.1 == Ok(Toggled(wm.cache[id].mode))
                               && r.0 == wm.(cache := wm.cache[id := wm.cache[id].(mode := r.1.value)])
    ensures id !in wm.cache && id in wm.provider.windows ==>
              && r.1 == Ok(if wm.provider.windows[id].isFullscreen then Fullscreen else Floating)
              && r.0.cache == RefreshCache(wm).cache[id := RefreshCache(wm).cache[id].(mode := r.1.value)]
              && r.0.metrics == RefreshCache(wm).metrics
    ensures r.1.Ok? ==> id in r.0.cache && r.0.cache[id].mode == r.1.value
    ensures r.0.provider == wm.provider
  {
    if id in wm.cache then
      var mode := Toggled(wm.cache[id].mode);
      (wm.(cache := wm.cache[id := wm.cache[id].(mode := mode)]), Ok(mode))
    else
      var next := RefreshCache(wm);
      if id in next.cache then
        var mode := if next.cache[id].mode == Fullscreen then Fullscreen else Floating;
        (next.(cache := next.cache[id := next.cache[id].(mode := mode)]), Ok(mode))
      else (BumpError(next), Err(WindowNotFound(id)))
  }

  /** Toggling a cached window twice gives back the manager it started from. */
  lemma ToggleTwiceRestores(wm: WindowManager, id: nat)
    requires id in wm.cache
    ensures ToggleFloating(ToggleFloating(wm, id).0, id).0 == wm
    ensures ToggleFloating(ToggleFloating(wm, id).0, id).1 == Ok(wm.cache[id].mode)
  {
    var once := ToggleFloating(wm, id).0;
    assert once.cache[id].mode == Toggled(wm.cache[id].mode);
    assert once.cache[id := once.cache[id].(mode := wm.cache[id].mode)] == wm.cache;
  }

  /** The read-only operations keep the manager invariant. */
  lemma QueriesPreserveValid(wm: WindowManager, id: nat)
    requires Valid(wm)
    ensures Valid(RefreshCache(wm))
    ensures Valid(EnsurePermissions(wm).0)
    ensures Valid(GetWindow(wm, id).0)
    ensures Valid(ToggleFloating(wm, id).0)
  {
  }

  /** The window commands keep the manager invariant. */
  lemma CommandsPreserveValid(wm: WindowManager, id: nat, frame: A.Rect, minimized: bool)
    requires Valid(wm)
    ensures Valid(FocusWindow(wm, id).0)
    ensures Valid(SetWindowFrame(wm, id, frame).0)
    ensures Valid(SetWindowMinimized(wm, id, minimized).0)
  {
    A.CommandsPreserveValid(wm.provider, id, frame, minimized);
    var f := FocusWindow(wm, id);
    if f.1.Pass? {
      assert f.0.provider == A.FocusWindow(wm.provider, id).0;
    }
  }
}
