/** The accessibility layer: geometry value types and the in-memory accessibility
  provider that stands in for the macOS Accessibility API.

  The provider's `RwLock<HashMap<u32, AXWindow>>` is a `map` from window id to window
  in an immutable `Provider` value. Every operation returns the next provider with its
  answer. The system-backed provider, whose every query fails with an "not
  implemented" error, is not part of this model.
 */
module Accessibility {
  import opened Wrappers
  import opened Core

  datatype Point = Point(x: real, y: real)

  datatype Size = Size(width: real, height: real)

  datatype Rect = Rect(origin: Point, size: Size)

  /** `Size::new`: both dimensions must be positive. */
  function NewSize(width: real, height: real): (r: Result<Size, TilleRSError>)
    ensures r.Ok? <==> width > 0.0 && height > 0.0
    ensures r.Ok? ==> r.value.width == width && r.value.height == height
    ensures r.Err? ==> r.error.ValidationError?
  {
    if width <= 0.0 || height <= 0.0 then Err(ValidationError("Window dimensions must be positive"))
    else Ok(Size(width, height))
  }

  datatype AXWindow = AXWindow(
    windowId: nat,
    title: string,
    applicationName: string,
    bundleId: string,
    frame: Rect,
    isMinimized: bool,
    isFullscreen: bool,
    isFocused: bool,
    monitorId: Option<string>)

  datatype PermissionStatus = Unknown | Granted | Denied

  datatype Provider = Provider(windows: map<nat, AXWindow>, status: PermissionStatus)

  /** Every window is stored under its own id. */
  predicate Valid(p: Provider) {
    forall k :: k in p.windows ==> p.windows[k].windowId == k
  }

  // ---------------------------------------------------------------------------
  // Construction and permissions
  // ---------------------------------------------------------------------------

  /** The windows keyed by id; a later window replaces an earlier one with the same id. */
  function Index(ws: seq<AXWindow>): (m: map<nat, AXWindow>)
    ensures forall k :: k in m ==> m[k].windowId == k && m[k] in ws
    ensures forall i :: 0 <= i < |ws| ==> ws[i].windowId in m
    ensures forall i :: 0 <= i < |ws| && (forall j :: i < j < |ws| ==> ws[j].windowId != ws[i].windowId)
                        ==> m[ws[i].windowId] == ws[i]
  {
    if |ws| == 0 then map[]
    else
      var last := ws[|ws| - 1];
      var rest := Index(ws[..|ws| - 1]);
      assert forall i :: 0 <= i < |ws| - 1 ==> ws[..|ws| - 1][i] == ws[i];
      rest[last.windowId := last]
  }

  /** `InMemoryAccessibilityProvider::new_with`: the given windows, permission granted. */
  function NewWith(ws: seq<AXWindow>): (p: Provider)
    ensures Valid(p) && p.status == Granted
    ensures forall i :: 0 <= i < |ws| ==> ws[i].windowId in p.windows
    ensures forall k :: k in p.windows ==> p.windows[k] in ws
  {
    Provider(Index(ws), Granted)
  }

  /** `InMemoryAccessibilityProvider::default`: no windows, permission not yet known. */
  function DefaultProvider(): (p: Provider)
    ensures Valid(p) && p.status == Unknown && |p.windows| == 0
  {
    Provider(map[], Unknown)
  }

  function SetPermissionStatus(p: Provider, status: PermissionStatus): (r: Provider)
    ensures r.status == status && r.windows == p.windows
  {
    p.(status := status)
  }

  /** `ensure_permissions`: succeeds only once permission is granted. */
  function EnsurePermissions(p: Provider): (r: Outcome<TilleRSError>)
    ensures r.Pass? <==> p.status == Granted
    ensures r.Fail? ==> r.error.PermissionDenied?
  {
    if p.status == Granted then Pass
    else Fail(PermissionDenied("Accessibility permission denied in in-memory provider"))
  }

  /** A fresh provider from `new_with` may act at once; the default one may not. */
  lemma PermissionDefaults(ws: seq<AXWindow>)
    ensures EnsurePermissions(NewWith(ws)).Pass?
    ensures EnsurePermissions(DefaultProvider()).Fail?
    ensures EnsurePermissions(SetPermissionStatus(DefaultProvider(), Denied)).Fail?
  {
  }

  // ---------------------------------------------------------------------------
  // Listing
  // ---------------------------------------------------------------------------

  lemma MinExists(s: set<nat>)
    requires s != {}
    ensures exists m :: IsLeast(m, s)
    decreases |s|
  {
    var y :| y in s;
    var rest := s - {y};
    assert s == rest + {y};
    if rest == {} {
      assert IsLeast(y, s);
    } else {
      MinExists(rest);
      var m :| IsLeast(m, rest);
      LeastOfInsert(m, rest, y);
    }
  }

  predicate IsLeast(m: nat, s: set<nat>) {
    m in s && forall x :: x in s ==> m <= x
  }

  /** Adding one element keeps the least of the two candidates least. */
  lemma LeastOfInsert(m: nat, s: set<nat>, y: nat)
    requires IsLeast(m, s)
    ensures IsLeast(if y < m then y else m, s + {y})
  {
  }

  function SetMin(s: set<nat>): (m: nat)
    requires s != {}
    ensures m in s && forall x :: x in s ==> m <= x
  {
    MinExists(s);
    var m :| IsLeast(m, s);
    m
  }

  /** The ids of a set in increasing order. */
  function SortedIds(s: set<nat>): (r: seq<nat>)
    ensures forall x :: x in r <==> x in s
    ensures forall i, j :: 0 <= i < j < |r| ==> r[i] < r[j]
    ensures |r| == |s|
    decreases |s|
  {
    if s == {} then []
    else
      var m := SetMin(s);
      var rest := SortedIds(s - {m});
      [m] + rest
  }

  /** The entries of `m` at the given increasing keys, in that order, that satisfy `keep`.
      `key` recovers each entry's own key. */
  function Pick<T(!new)>(m: map<nat, T>, ids: seq<nat>, keep: T -> bool, key: T -> nat): (r: seq<T>)
    requires forall k :: k in m ==> key(m[k]) == k
    requires forall i :: 0 <= i < |ids| ==> ids[i] in m
    requires forall i, j :: 0 <= i < j < |ids| ==> ids[i] < ids[j]
    ensures forall x :: x in r <==> key(x) in ids && m[key(x)] == x && keep(x)
    ensures forall a, b :: 0 <= a < b < |r| ==> key(r[a]) < key(r[b])
    ensures forall a :: 0 <= a < |r| ==> |ids| > 0 && ids[0] <= key(r[a])
  {
    if |ids| == 0 then []
    else
      var x := m[ids[0]];
      var rest := Pick(m, ids[1..], keep, key);
      assert forall y :: y in ids <==> y == ids[0] || y in ids[1..];
      if keep(x) then [x] + rest else rest
  }

  /** `list_windows`: the stored windows, minimized ones only when asked, sorted by id. */
  function ListWindows(p: Provider, includeMinimized: bool): (r: seq<AXWindow>)
    requires Valid(p)
    ensures forall w :: w in r <==> w.windowId in p.windows && p.windows[w.windowId] == w
                                    && (includeMinimized || !w.isMinimized)
    ensures forall a, b :: 0 <= a < b < |r| ==> r[a].windowId < r[b].windowId
  {
    Pick(p.windows, SortedIds(p.windows.Keys),
         (w: AXWindow) => includeMinimized || !w.isMinimized, (w: AXWindow) => w.windowId)
  }

  function GetWindow(p: Provider, id: nat): (r: Option<AXWindow>)
    ensures r.Some? <==> id in p.windows
    ensures r.Some? ==> r.value == p.windows[id]
  {
    if id in p.windows then Some(p.windows[id]) else None
  }

  // ---------------------------------------------------------------------------
  // Window commands
  // ---------------------------------------------------------------------------

  /** `focus_window`: focuses exactly the target, clearing every other window's focus. */
  function FocusWindow(p: Provider, id: nat): (r: (Provider, Outcome<TilleRSError>))
    ensures r.1.Fail? <==> id !in p.windows
    ensures r.1.Fail? ==> r.0 == p && r.1.error == WindowNotFound(id)
    ensures r.1.Pass? ==> && r.0.windows.Keys == p.windows.Keys && r.0.status == p.status
                          && forall k :: k in r.0.windows ==> r.0.windows[k] == p.windows[k].(isFocused := k == id)
  {
    if id in p.windows then
      (p.(windows := map k | k in p.windows :: p.windows[k].(isFocused := k == id)), Pass)
    else (p, Fail(WindowNotFound(id)))
  }

  /** After a successful focus, the target is the one and only focused window. */
  lemma FocusIsExclusive(p: Provider, id: nat)
    requires FocusWindow(p, id).1.Pass?
    ensures forall k :: k in FocusWindow(p, id).0.windows ==> (FocusWindow(p, id).0.windows[k].isFocused <==> k == id)
    ensures id in FocusWindow(p, id).0.windows
  {
  }

  /** `set_window_frame`: moves the target only. */
  function SetWindowFrame(p: Provider, id: nat, frame: Rect): (r: (Provider, Outcome<TilleRSError>))
    ensures r.1.Fail? <==> id !in p.windows
    ensures r.1.Fail? ==> r.0 == p && r.1.error == WindowNotFound(id)
    ensures r.1.Pass? ==> && r.0.windows.Keys == p.windows.Keys && r.0.status == p.status
                          && r.0.windows[id].frame == frame
                          && r.0.windows[id].(frame := p.windows[id].frame) == p.windows[id]
                          && forall k :: k in p.windows && k != id ==> r.0.windows[k] == p.windows[k]
  {
    if id in p.windows then (p.(windows := p.windows[id := p.windows[id].(frame := frame)]), Pass)
    else (p, Fail(WindowNotFound(id)))
  }

  /** `set_window_minimized`: minimizes or restores the target only. */
  function SetWindowMinimized(p: Provider, id: nat, minimized: bool): (r: (Provider, Outcome<TilleRSError>))
    ensures r.1.Fail? <==> id !in p.windows
    ensures r.1.Fail? ==> r.0 == p && r.1.error == WindowNotFound(id)
    ensures r.1.Pass? ==> && r.0.windows.Keys == p.windows.Keys && r.0.status == p.status
                          && r.0.windows[id].isMinimized == minimized
                          && r.0.windows[id].(isMinimized := p.windows[id].isMinimized) == p.windows[id]
                          && forall k :: k in p.windows && k != id ==> r.0.windows[k] == p.windows[k]
    ensures Valid(p) ==> Valid(r.0)
  {
    if id in p.windows then (p.(windows := p.windows[id := p.windows[id].(isMinimized := minimized)]), Pass)
    else (p, Fail(WindowNotFound(id)))
  }

  /** The commands keep every window under its own id and never add or drop a window. */
  lemma CommandsPreserveValid(p: Provider, id: nat, frame: Rect, minimized: bool)
    requires Valid(p)
    ensures Valid(FocusWindow(p, id).0) && FocusWindow(p, id).0.windows.Keys == p.windows.Keys
    ensures Valid(SetWindowFrame(p, id, frame).0) && SetWindowFrame(p, id, frame).0.windows.Keys == p.windows.Keys
    ensures Valid(SetWindowMinimized(p, id, minimized).0)
            && SetWindowMinimized(p, id, minimized).0.windows.Keys == p.windows.Keys
  {
  }

  /** Minimizing hides a window from the default listing, and restoring brings it back. */
  lemma MinimizeHidesFromListing(p: Provider, id: nat)
    requires Valid(p) && id in p.windows
    ensures var hidden := SetWindowMinimized(p, id, true).0;
            forall w :: w in ListWindows(hidden, false) ==> w.windowId != id
    ensures var shown := SetWindowMinimized(p, id, false).0;
            shown.windows[id] in ListWindows(shown, false)
  {
    var hidden := SetWindowMinimized(p, id, true).0;
    assert hidden.windows[id].isMinimized;
    forall w | w in ListWindows(hidden, false) ensures w.windowId != id {
      assert hidden.windows[w.windowId] == w && !w.isMinimized;
    }
    var shown := SetWindowMinimized(p, id, false).0;
    assert shown.windows[id].windowId == id && !shown.windows[id].isMinimized;
  }
}
