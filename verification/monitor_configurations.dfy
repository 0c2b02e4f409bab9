/** Monitor configurations: how a workspace behaves on a particular display. A
  configuration recognises its monitor, picks a tiling pattern, and bounds the area
  windows are tiled in. A configuration set holds one per monitor.
 */
module MonitorConfigurations {
  import opened Wrappers
  import Seqs
  import opened Core
  import opened Text

  datatype ScreenArea = ScreenArea(x: i32, y: i32, width: u32, height: u32)

  datatype OrientationPreference = Current | Landscape | Portrait | MatchPrimary

  /** `MonitorInfo`: what the system reports about a display. */
  datatype MonitorInfo = MonitorInfo(
    displayName: string,
    modelIdentifier: Option<string>,
    serialNumber: Option<string>,
    physicalSizeMm: Option<(u32, u32)>,
    nativeResolution: (u32, u32))

  datatype MonitorConfiguration = MonitorConfiguration(
    id: Uuid,
    workspaceId: Uuid,
    monitorIdentifier: string,
    monitorInfo: Option<MonitorInfo>,
    primaryPatternId: Uuid,
    secondaryPatternId: Option<Uuid>,
    activeArea: ScreenArea,
    orientationPreference: OrientationPreference,
    scaleFactor: real,
    isPrimary: bool,
    handleFullscreen: bool)

  datatype MonitorConfigurationError =
    | EmptyMonitorIdentifier
    | EmptyDisplayName
    | InvalidActiveArea
    | InvalidScaleFactor(factor: real)
    | InvalidNativeResolution
    | WorkspaceMismatch
    | DuplicateMonitorIdentifier(identifier: string)
    | MonitorNotFound(identifier: string)
    | ConfigurationOutOfBounds

  // ---------------------------------------------------------------------------
  // One configuration
  // ---------------------------------------------------------------------------

  /** Both sides report the same optional attribute. */
  predicate SameKnown(a: Option<string>, b: Option<string>) {
    a.Some? && b.Some? && a.value == b.value
  }

  /** `matches_monitor`: the identifiers agree or, when both sides carry monitor
      information, the model, the serial number, or the display name together with the
      native resolution agree. */
  function MatchesMonitor(c: MonitorConfiguration, monitorId: string, info: Option<MonitorInfo>): (r: bool)
    ensures c.monitorIdentifier == monitorId ==> r
    ensures (c.monitorInfo.None? || info.None?) ==> (r <==> c.monitorIdentifier == monitorId)
    ensures r <==> || c.monitorIdentifier == monitorId
                   || (&& c.monitorInfo.Some? && info.Some?
                       && (|| SameKnown(c.monitorInfo.value.modelIdentifier, info.value.modelIdentifier)
                           || SameKnown(c.monitorInfo.value.serialNumber, info.value.serialNumber)
                           || (&& c.monitorInfo.value.displayName == info.value.displayName
                               && c.monitorInfo.value.nativeResolution == info.value.nativeResolution)))
  {
    if c.monitorIdentifier == monitorId then true
    else
      match (c.monitorInfo, info)
      case (Some(mine), Some(theirs)) =>
        if mine.modelIdentifier.Some? && theirs.modelIdentifier.Some? && mine.modelIdentifier.value == theirs.modelIdentifier.value then true
        else if mine.serialNumber.Some? && theirs.serialNumber.Some? && mine.serialNumber.value == theirs.serialNumber.value then true
        else mine.displayName == theirs.displayName && mine.nativeResolution == theirs.nativeResolution
      case _ => false
  }

  /** A configuration recognises a monitor that reports exactly its own information,
      whatever identifier the system now gives it. */
  lemma RecognisesOwnInfo(c: MonitorConfiguration, monitorId: string)
    requires c.monitorInfo.Some?
    ensures MatchesMonitor(c, monitorId, c.monitorInfo)
  {
  }

  /** `get_effective_pattern_id`: the secondary pattern takes over only past the primary's
      window limit, and only when there is one. */
  function EffectivePatternId(c: MonitorConfiguration, windowCount: nat, maxPrimaryWindows: nat): (r: Uuid)
    ensures windowCount <= maxPrimaryWindows ==> r == c.primaryPatternId
    ensures windowCount > maxPrimaryWindows && c.secondaryPatternId.Some? ==> r == c.secondaryPatternId.value
    ensures c.secondaryPatternId.None? ==> r == c.primaryPatternId
  {
    if windowCount > maxPrimaryWindows then c.secondaryPatternId.GetOr(c.primaryPatternId)
    else c.primaryPatternId
  }

  /** The effective pattern is always one of the configuration's own. */
  lemma EffectivePatternIsConfigured(c: MonitorConfiguration, windowCount: nat, maxPrimaryWindows: nat)
    ensures var r := EffectivePatternId(c, windowCount, maxPrimaryWindows);
            r == c.primaryPatternId || Some(r) == c.secondaryPatternId
  {
  }

  function Max(a: int, b: int): (m: int)
    ensures m >= a && m >= b && (m == a || m == b)
  {
    if a >= b then a else b
  }

  function Min(a: int, b: int): (m: int)
    ensures m <= a && m <= b && (m == a || m == b)
  {
    if a <= b then a else b
  }

  predicate InI32(v: int) {
    -0x8000_0000 <= v < 0x8000_0000
  }

  /** The far edge of an area along x, as the `i32` sum the source computes. */
  function Right(a: ScreenArea): int { a.x + a.width }

  function Bottom(a: ScreenArea): int { a.y + a.height }

  /** The `i32` arithmetic of `get_usable_area` stays in range: the `u32` sides convert
      to `i32` unchanged, and the far edges and the differences do not overflow. */
  predicate IntersectionInRange(a: ScreenArea, b: ScreenArea) {
    && a.width < 0x8000_0000 && a.height < 0x8000_0000
    && b.width < 0x8000_0000 && b.height < 0x8000_0000
    && InI32(Right(a)) && InI32(Bottom(a)) && InI32(Right(b)) && InI32(Bottom(b))
    && InI32(Min(Right(a), Right(b)) - Max(a.x, b.x))
    && InI32(Min(Bottom(a), Bottom(b)) - Max(a.y, b.y))
  }

  /** A point lies in an area, far edges excluded. */
  predicate Inside(px: int, py: int, a: ScreenArea) {
    a.x <= px < Right(a) && a.y <= py < Bottom(a)
  }

  /** `get_usable_area`: the intersection of the active area with the full screen area,
      empty sides clamped to zero. */
  function UsableArea(c: MonitorConfiguration, full: ScreenArea): (r: ScreenArea)
    requires IntersectionInRange(c.activeArea, full)
    ensures r.x == Max(c.activeArea.x, full.x) && r.y == Max(c.activeArea.y, full.y)
    ensures r.width > 0 ==> c.activeArea.x <= r.x && Right(r) <= Right(c.activeArea)
                            && full.x <= r.x && Right(r) <= Right(full)
    ensures r.height > 0 ==> c.activeArea.y <= r.y && Bottom(r) <= Bottom(c.activeArea)
                             && full.y <= r.y && Bottom(r) <= Bottom(full)
  {
    var a := c.activeArea;
    var x := Max(a.x, full.x);
    var y := Max(a.y, full.y);
    var width := Max(Min(Right(a), Right(full)) - x, 0);
    var height := Max(Min(Bottom(a), Bottom(full)) - y, 0);
    ScreenArea(x, y, width, height)
  }

  /** The usable area holds exactly the points of both areas. */
  lemma UsableAreaIsIntersection(c: MonitorConfiguration, full: ScreenArea, px: int, py: int)
    requires IntersectionInRange(c.activeArea, full)
    ensures Inside(px, py, UsableArea(c, full)) <==> Inside(px, py, c.activeArea) && Inside(px, py, full)
  {
  }

  /** An active area inside the screen is its own usable area. */
  lemma UsableAreaOfContainedArea(c: MonitorConfiguration, full: ScreenArea)
    requires IntersectionInRange(c.activeArea, full)
    requires full.x <= c.activeArea.x && Right(c.activeArea) <= Right(full)
    requires full.y <= c.activeArea.y && Bottom(c.activeArea) <= Bottom(full)
    ensures UsableArea(c, full) == c.activeArea
  {
  }

  /** `orientation_matches`: landscape when at least as wide as high, portrait when
      strictly higher; the other preferences accept any monitor. */
  function OrientationMatches(c: MonitorConfiguration, width: u32, height: u32): (r: bool)
    ensures c.orientationPreference == Landscape ==> (r <==> width >= height)
    ensures c.orientationPreference == Portrait ==> (r <==> height > width)
    ensures c.orientationPreference == Current || c.orientationPreference == MatchPrimary ==> r
  {
    match c.orientationPreference
    case Current => true
    case Landscape => width >= height
    case Portrait => height > width
    case MatchPrimary => true
  }

  /** Every monitor shape suits exactly one of landscape and portrait. */
  lemma LandscapeOrPortrait(c: MonitorConfiguration, width: u32, height: u32)
    ensures OrientationMatches(c.(orientationPreference := Landscape), width, height)
            != OrientationMatches(c.(orientationPreference := Portrait), width, height)
  {
  }

  /** `update_active_area`: an area with a zero side is refused and nothing changes. */
  function UpdateActiveArea(c: MonitorConfiguration, area: ScreenArea): (r: (MonitorConfiguration, Outcome<MonitorConfigurationError>))
    ensures r.1.Fail? <==> area.width == 0 || area.height == 0
    ensures r.1.Fail? ==> r.0 == c && r.1.error == InvalidActiveArea
    ensures r.1.Pass? ==> r.0.activeArea == area && r.0.(activeArea := c.activeArea) == c
  {
    if area.width == 0 || area.height == 0 then (c, Fail(InvalidActiveArea))
    else (c.(activeArea := area), Pass)
  }

  /** `validate`. In order: a blank identifier, an active area with a zero side, a scale
      outside (0, 5], a blank display name, a native resolution with a zero side. */
  function Validate(c: MonitorConfiguration): (r: Outcome<MonitorConfigurationError>)
    ensures r.Pass? <==> && !IsBlank(c.monitorIdentifier)
                         && c.activeArea.width > 0 && c.activeArea.height > 0
                         && 0.0 < c.scaleFactor <= 5.0
                         && (c.monitorInfo.Some? ==> && !IsBlank(c.monitorInfo.value.displayName)
                                                     && c.monitorInfo.value.nativeResolution.0 > 0
                                                     && c.monitorInfo.value.nativeResolution.1 > 0)
    ensures r == Fail(InvalidScaleFactor(c.scaleFactor)) <==>
              && !IsBlank(c.monitorIdentifier) && c.activeArea.width > 0 && c.activeArea.height > 0
              && !(0.0 < c.scaleFactor <= 5.0)
  {
    if IsBlank(c.monitorIdentifier) then Fail(EmptyMonitorIdentifier)
    else if c.activeArea.width == 0 || c.activeArea.height == 0 then Fail(InvalidActiveArea)
    else if c.scaleFactor <= 0.0 || c.scaleFactor > 5.0 then Fail(InvalidScaleFactor(c.scaleFactor))
    else if c.monitorInfo.Some? && IsBlank(c.monitorInfo.value.displayName) then Fail(EmptyDisplayName)
    else if c.monitorInfo.Some? && (c.monitorInfo.value.nativeResolution.0 == 0 || c.monitorInfo.value.nativeResolution.1 == 0) then
      Fail(InvalidNativeResolution)
    else Pass
  }

  /** An update that validation accepted keeps a valid configuration valid. */
  lemma UpdateActiveAreaKeepsValid(c: MonitorConfiguration, area: ScreenArea)
    requires Validate(c).Pass?
    ensures Validate(UpdateActiveArea(c, area).0).Pass?
  {
  }

  // ---------------------------------------------------------------------------
  // Configuration sets
  // ---------------------------------------------------------------------------

  datatype MonitorConfigurationSet = MonitorConfigurationSet(
    workspaceId: Uuid,
    configurations: seq<MonitorConfiguration>,
    fallback: Option<MonitorConfiguration>)

  /** The set invariant: every configuration belongs to the set's workspace and no two
      share a monitor identifier. */
  predicate Valid(s: MonitorConfigurationSet) {
    && (forall i :: 0 <= i < |s.configurations| ==> s.configurations[i].workspaceId == s.workspaceId)
    && (forall i, j :: 0 <= i < j < |s.configurations| ==>
          s.configurations[i].monitorIdentifier != s.configurations[j].monitorIdentifier)
  }

  function NewSet(workspaceId: Uuid): (s: MonitorConfigurationSet)
    ensures Valid(s) && s.workspaceId == workspaceId && |s.configurations| == 0 && s.fallback.None?
  {
    MonitorConfigurationSet(workspaceId, [], None)
  }

  predicate IdentifierTaken(s: MonitorConfigurationSet, identifier: string) {
    exists i :: 0 <= i < |s.configurations| && s.configurations[i].monitorIdentifier == identifier
  }

  /** `add_configuration`: refuses a configuration of another workspace, then one whose
      monitor identifier is already present; otherwise appends it. */
  function AddConfiguration(s: MonitorConfigurationSet, c: MonitorConfiguration)
    : (r: (MonitorConfigurationSet, Outcome<MonitorConfigurationError>))
    ensures c.workspaceId != s.workspaceId ==> r == (s, Fail(WorkspaceMismatch))
    ensures c.workspaceId == s.workspaceId && IdentifierTaken(s, c.monitorIdentifier) ==>
              r == (s, Fail(DuplicateMonitorIdentifier(c.monitorIdentifier)))
    ensures r.1.Pass? <==> c.workspaceId == s.workspaceId && !IdentifierTaken(s, c.monitorIdentifier)
    ensures r.1.Pass? ==> r.0 == s.(configurations := s.configurations + [c])
  {
    if c.workspaceId != s.workspaceId then (s, Fail(WorkspaceMismatch))
    else if IdentifierTaken(s, c.monitorIdentifier) then (s, Fail(DuplicateMonitorIdentifier(c.monitorIdentifier)))
    else (s.(configurations := s.configurations + [c]), Pass)
  }

  lemma AddConfigurationPreservesValid(s: MonitorConfigurationSet, c: MonitorConfiguration)
    requires Valid(s)
    ensures Valid(AddConfiguration(s, c).0)
  {
    if AddConfiguration(s, c).1.Pass? {
      var cs := AddConfiguration(s, c).0.configurations;
      forall i, j | 0 <= i < j < |cs| ensures cs[i].monitorIdentifier != cs[j].monitorIdentifier {
        if j == |cs| - 1 {
          assert cs[i] == s.configurations[i];
        }
      }
    }
  }

  /** `find_configuration`: the first configuration that recognises the monitor, else the
      fallback. */
  function FindConfiguration(s: MonitorConfigurationSet, monitorId: string, info: Option<MonitorInfo>)
    : (r: Option<MonitorConfiguration>)
    ensures (forall i :: 0 <= i < |s.configurations| ==> !MatchesMonitor(s.configurations[i], monitorId, info))
            ==> r == s.fallback
    ensures forall i :: 0 <= i < |s.configurations| && MatchesMonitor(s.configurations[i], monitorId, info)
                        && (forall j :: 0 <= j < i ==> !MatchesMonitor(s.configurations[j], monitorId, info))
                        ==> r == Some(s.configurations[i])
  {
    match Seqs.FirstWhere(s.configurations, (c: MonitorConfiguration) => MatchesMonitor(c, monitorId, info))
    case None => s.fallback
    case Some(i) => Some(s.configurations[i])
  }

  /** `get_primary_configuration`: the first configuration marked primary. */
  function PrimaryConfiguration(s: MonitorConfigurationSet): (r: Option<MonitorConfiguration>)
    ensures r.None? <==> forall i :: 0 <= i < |s.configurations| ==> !s.configurations[i].isPrimary
    ensures r.Some? ==> exists i :: 0 <= i < |s.configurations| && r.value == s.configurations[i]
                                    && r.value.isPrimary
                                    && forall j :: 0 <= j < i ==> !s.configurations[j].isPrimary
  {
    match Seqs.FirstWhere(s.configurations, (c: MonitorConfiguration) => c.isPrimary)
    case None => None
    case Some(i) => Some(s.configurations[i])
  }

  /** `update_configuration`: the configuration of that monitor is handed to the updater,
      and what the updater leaves behind is kept even when it reports an error. */
  function UpdateConfiguration(s: MonitorConfigurationSet, monitorId: string,
                               updater: MonitorConfiguration -> (MonitorConfiguration, Outcome<MonitorConfigurationError>))
    : (r: (MonitorConfigurationSet, Outcome<MonitorConfigurationError>))
    ensures !IdentifierTaken(s, monitorId) ==> r == (s, Fail(MonitorNotFound(monitorId)))
    ensures IdentifierTaken(s, monitorId) ==>
              exists i :: && 0 <= i < |s.configurations| && s.configurations[i].monitorIdentifier == monitorId
                          && r.1 == updater(s.configurations[i]).1
                          && r.0 == s.(configurations := s.configurations[i := updater(s.configurations[i]).0])
  {
    match Seqs.FirstWhere(s.configurations, (c: MonitorConfiguration) => c.monitorIdentifier == monitorId)
    case None => (s, Fail(MonitorNotFound(monitorId)))
    case Some(i) =>
      var (c, out) := updater(s.configurations[i]);
      (s.(configurations := s.configurations[i := c]), out)
  }

  /** An updater that keeps the monitor identifier and the workspace keeps the set valid. */
  lemma UpdateConfigurationPreservesValid(s: MonitorConfigurationSet, monitorId: string,
                                          updater: MonitorConfiguration -> (MonitorConfiguration, Outcome<MonitorConfigurationError>))
    requires Valid(s)
    requires forall c :: updater(c).0.monitorIdentifier == c.monitorIdentifier && updater(c).0.workspaceId == c.workspaceId
    ensures Valid(UpdateConfiguration(s, monitorId, updater).0)
  {
  }
}
