/** Application profiles: what the window manager knows about an application — how to
  recognise its windows, where to put them by default, how well it tolerates tiling —
  and the set of profiles keyed by bundle identifier.

  Free-form JSON parameters of custom rules and the per-application configuration
  overrides are not modelled; the update timestamp is passed in by the caller.
 */
module ApplicationProfiles {
  import opened Wrappers
  import Seqs
  import opened Core
  import opened Text
  import WR = WindowRules

  datatype WindowBehavior = Standard | AlwaysOnTop | NonTileable | Transient | Modal | Utility

  datatype FocusStealingBehavior = Normal | Aggressive | Passive | NewWindowsOnly

  datatype WindowDetectionStrategy = BundleId | ProcessName | WindowClass | Combined

  datatype WindowDetectionRule = WindowDetectionRule(
    strategy: WindowDetectionStrategy,
    primaryIdentifier: string,
    secondaryIdentifiers: seq<string>,
    titlePattern: Option<string>,
    classPattern: Option<string>)

  datatype CompatibilityLevel = Full | Good | Limited | Poor | Incompatible

  datatype CompatibilityInfo = CompatibilityInfo(
    level: CompatibilityLevel,
    issues: seq<string>,
    workarounds: seq<string>,
    versionNotes: Option<string>)

  datatype CustomAction =
    | Ignore
    | ForcePositioning(positioning: WR.PositioningRule)
    | DelayManagement(millis: u32)
    | CustomDetection
    | SpecialFocus
    | RunScript(script: string)

  datatype CustomHandlingRule = CustomHandlingRule(condition: string, action: CustomAction, enabled: bool)

  datatype ApplicationProfile = ApplicationProfile(
    id: Uuid,
    bundleIdentifier: string,
    displayName: string,
    defaultPositioning: WR.PositioningRule,
    preferredTilingPatterns: seq<Uuid>,
    compatibility: CompatibilityInfo,
    detectionRules: seq<WindowDetectionRule>,
    focusStealing: FocusStealingBehavior,
    defaultWindowBehavior: WindowBehavior,
    defaultFocusBehavior: WR.FocusBehavior,
    customRules: seq<CustomHandlingRule>,
    isUserProfile: bool,
    lastUpdated: int)

  datatype ApplicationProfileError =
    | EmptyBundleIdentifier
    | InvalidBundleIdentifier(bundleIdentifier: string)
    | EmptyDisplayName
    | EmptyDetectionIdentifier
    | EmptyCustomRuleCondition
    | DuplicateBundleIdentifier(bundleIdentifier: string)
    | ProfileNotFound(bundleIdentifier: string)
    | InvalidCustomActionParameters

  // ---------------------------------------------------------------------------
  // Recognising an application
  // ---------------------------------------------------------------------------

  /** An optional input is present and equal to `s`. */
  predicate Is(input: Option<string>, s: string) {
    input.Some? && input.value == s
  }

  /** `matches_detection_rule`. Bundle-id and window-class rules compare the bundle id (a
      window class is not available, so the bundle id stands in for it); process-name
      rules compare the process name; combined rules accept the primary or any secondary
      identifier as either input. The window title is not consulted. */
  function MatchesDetectionRule(rule: WindowDetectionRule, bundleId: Option<string>, processName: Option<string>): (r: bool)
    ensures bundleId.None? && processName.None? ==> !r
    ensures rule.strategy == Combined ==>
              (r <==> exists s :: s in [rule.primaryIdentifier] + rule.secondaryIdentifiers && (Is(bundleId, s) || Is(processName, s)))
    ensures rule.strategy != Combined ==>
              (r <==> Is(if rule.strategy == ProcessName then processName else bundleId, rule.primaryIdentifier))
  {
    match rule.strategy
    case BundleId => Is(bundleId, rule.primaryIdentifier)
    case ProcessName => Is(processName, rule.primaryIdentifier)
    case WindowClass => Is(bundleId, rule.primaryIdentifier)
    case Combined =>
      var ids := [rule.primaryIdentifier] + rule.secondaryIdentifiers;
      assert forall s :: s in ids <==> s == rule.primaryIdentifier || s in rule.secondaryIdentifiers;
      (Is(bundleId, rule.primaryIdentifier) || Is(processName, rule.primaryIdentifier))
      || AnyIdentifierMatches(rule.secondaryIdentifiers, bundleId, processName)
  }

  /** Some identifier of the list names the bundle or the process. */
  function AnyIdentifierMatches(ids: seq<string>, bundleId: Option<string>, processName: Option<string>): (r: bool)
    ensures r <==> exists s :: s in ids && (Is(bundleId, s) || Is(processName, s))
  {
    if |ids| == 0 then false
    else
      assert forall s :: s in ids <==> s == ids[0] || s in ids[1..];
      Is(bundleId, ids[0]) || Is(processName, ids[0]) || AnyIdentifierMatches(ids[1..], bundleId, processName)
  }

  /** Some detection rule of the list recognises the application. */
  function AnyRuleMatches(rules: seq<WindowDetectionRule>, bundleId: Option<string>, processName: Option<string>): (r: bool)
    ensures r <==> exists i :: 0 <= i < |rules| && MatchesDetectionRule(rules[i], bundleId, processName)
  {
    if |rules| == 0 then false
    else if MatchesDetectionRule(rules[0], bundleId, processName) then true
    else
      var rest := AnyRuleMatches(rules[1..], bundleId, processName);
      assert rest ==> exists i :: 0 <= i < |rules| && MatchesDetectionRule(rules[i], bundleId, processName) by {
        if rest {
          var i :| 0 <= i < |rules| - 1 && MatchesDetectionRule(rules[1..][i], bundleId, processName);
          assert rules[i + 1] == rules[1..][i];
        }
      }
      assert (exists i :: 0 <= i < |rules| && MatchesDetectionRule(rules[i], bundleId, processName)) ==> rest by {
        if exists i :: 0 <= i < |rules| && MatchesDetectionRule(rules[i], bundleId, processName) {
          var i :| 0 <= i < |rules| && MatchesDetectionRule(rules[i], bundleId, processName);
          assert i > 0 && rules[1..][i - 1] == rules[i];
        }
      }
      rest
  }

  /** `matches_application`: the profile's own bundle id, or any of its detection rules. */
  function MatchesApplication(p: ApplicationProfile, bundleId: Option<string>, processName: Option<string>,
                              title: Option<string>): (r: bool)
    ensures r <==> Is(bundleId, p.bundleIdentifier)
                   || exists i :: 0 <= i < |p.detectionRules| && MatchesDetectionRule(p.detectionRules[i], bundleId, processName)
  {
    Is(bundleId, p.bundleIdentifier) || AnyRuleMatches(p.detectionRules, bundleId, processName)
  }

  /** With neither a bundle id nor a process name, no profile recognises anything, and the
      title alone never helps. */
  lemma NothingMatchesNothing(p: ApplicationProfile, title: Option<string>)
    ensures !MatchesApplication(p, None, None, title)
  {
  }

  // ---------------------------------------------------------------------------
  // Behaviour queries
  // ---------------------------------------------------------------------------

  /** A rule that forces a positioning for windows whose title contains its condition. */
  predicate Forces(rule: CustomHandlingRule, title: Option<string>) {
    rule.enabled && rule.action.ForcePositioning? && title.Some? && Contains(title.value, rule.condition)
  }

  /** `get_effective_positioning`: the positioning forced by the first enabled rule whose
      condition occurs in the title, else the profile's default. */
  function EffectivePositioning(p: ApplicationProfile, title: Option<string>): (r: WR.PositioningRule)
    ensures (forall i :: 0 <= i < |p.customRules| ==> !Forces(p.customRules[i], title)) ==> r == p.defaultPositioning
    ensures forall i :: 0 <= i < |p.customRules| && Forces(p.customRules[i], title)
                        && (forall j :: 0 <= j < i ==> !Forces(p.customRules[j], title))
                        ==> r == p.customRules[i].action.positioning
    ensures title.None? ==> r == p.defaultPositioning
  {
    ForcedPositioning(p.customRules, title, p.defaultPositioning)
  }

  function ForcedPositioning(rules: seq<CustomHandlingRule>, title: Option<string>, default: WR.PositioningRule)
    : (r: WR.PositioningRule)
    ensures (forall i :: 0 <= i < |rules| ==> !Forces(rules[i], title)) ==> r == default
    ensures forall i :: 0 <= i < |rules| && Forces(rules[i], title) && (forall j :: 0 <= j < i ==> !Forces(rules[j], title))
                        ==> r == rules[i].action.positioning
  {
    if |rules| == 0 then default
    else if Forces(rules[0], title) then rules[0].action.positioning
    else
      var r := ForcedPositioning(rules[1..], title, default);
      assert forall i :: 1 <= i < |rules| ==> rules[i] == rules[1..][i - 1];
      r
  }

  /** `is_tiling_compatible`: full, good and limited compatibility allow tiling. */
  function IsTilingCompatible(p: ApplicationProfile): (r: bool)
    ensures r <==> p.compatibility.level !in {Poor, Incompatible}
  {
    match p.compatibility.level
    case Full => true
    case Good => true
    case Limited => true
    case Poor => false
    case Incompatible => false
  }

  /** `get_custom_action`: the action of the first enabled rule with exactly that
      condition. */
  function CustomActionFor(p: ApplicationProfile, condition: string): (r: Option<CustomAction>)
    ensures r.None? <==> forall i :: 0 <= i < |p.customRules| ==>
                           !(p.customRules[i].enabled && p.customRules[i].condition == condition)
    ensures r.Some? ==> exists i :: && 0 <= i < |p.customRules| && p.customRules[i].enabled
                                    && p.customRules[i].condition == condition && p.customRules[i].action == r.value
                                    && forall j :: 0 <= j < i ==> !(p.customRules[j].enabled && p.customRules[j].condition == condition)
  {
    FirstAction(p.customRules, condition)
  }

  function FirstAction(rules: seq<CustomHandlingRule>, condition: string): (r: Option<CustomAction>)
    ensures r.None? <==> forall i :: 0 <= i < |rules| ==> !(rules[i].enabled && rules[i].condition == condition)
    ensures r.Some? ==> exists i :: && 0 <= i < |rules| && rules[i].enabled
                                    && rules[i].condition == condition && rules[i].action == r.value
                                    && forall j :: 0 <= j < i ==> !(rules[j].enabled && rules[j].condition == condition)
  {
    if |rules| == 0 then None
    else if rules[0].enabled && rules[0].condition == condition then Some(rules[0].action)
    else
      var r := FirstAction(rules[1..], condition);
      assert forall i :: 1 <= i < |rules| ==> rules[i] == rules[1..][i - 1];
      assert r.Some? ==> exists i :: && 0 <= i < |rules| && rules[i].enabled
                                     && rules[i].condition == condition && rules[i].action == r.value
                                     && forall j :: 0 <= j < i ==> !(rules[j].enabled && rules[j].condition == condition) by {
        if r.Some? {
          var i :| && 0 <= i < |rules| - 1 && rules[1..][i].enabled
                   && rules[1..][i].condition == condition && rules[1..][i].action == r.value
                   && forall j :: 0 <= j < i ==> !(rules[1..][j].enabled && rules[1..][j].condition == condition);
          assert rules[i + 1] == rules[1..][i];
        }
      }
      r
  }

  // ---------------------------------------------------------------------------
  // Preferred patterns
  // ---------------------------------------------------------------------------

  /** `add_preferred_pattern`: appends a pattern not yet preferred and stamps the profile;
      an already preferred pattern changes nothing. */
  function AddPreferredPattern(p: ApplicationProfile, pattern: Uuid, now: int): (r: ApplicationProfile)
    ensures pattern in p.preferredTilingPatterns ==> r == p
    ensures pattern !in p.preferredTilingPatterns ==>
              r == p.(preferredTilingPatterns := p.preferredTilingPatterns + [pattern], lastUpdated := now)
    ensures pattern in r.preferredTilingPatterns
  {
    if pattern in p.preferredTilingPatterns then p
    else p.(preferredTilingPatterns := p.preferredTilingPatterns + [pattern], lastUpdated := now)
  }

  /** Adding a pattern twice is adding it once. */
  lemma AddPreferredPatternIdempotent(p: ApplicationProfile, pattern: Uuid, now: int, later: int)
    ensures AddPreferredPattern(AddPreferredPattern(p, pattern, now), pattern, later) == AddPreferredPattern(p, pattern, now)
  {
  }

  /** The patterns are kept free of duplicates. */
  lemma AddPreferredPatternKeepsDistinct(p: ApplicationProfile, pattern: Uuid, now: int)
    requires forall i, j :: 0 <= i < j < |p.preferredTilingPatterns| ==> p.preferredTilingPatterns[i] != p.preferredTilingPatterns[j]
    ensures var ps := AddPreferredPattern(p, pattern, now).preferredTilingPatterns;
            forall i, j :: 0 <= i < j < |ps| ==> ps[i] != ps[j]
  {
  }

  function IndexOf(s: seq<Uuid>, x: Uuid): (r: Option<nat>)
    ensures r.None? <==> x !in s
    ensures r.Some? ==> r.value < |s| && s[r.value] == x && x !in s[..r.value]
  {
    Seqs.FirstWhere(s, (y: Uuid) => y == x)
  }

  /** `remove_preferred_pattern`: removes the first occurrence and stamps the profile,
      reporting whether there was one. */
  function RemovePreferredPattern(p: ApplicationProfile, pattern: Uuid, now: int): (r: (ApplicationProfile, bool))
    ensures r.1 <==> pattern in p.preferredTilingPatterns
    ensures !r.1 ==> r.0 == p
    ensures r.1 ==> exists k :: && 0 <= k < |p.preferredTilingPatterns| && p.preferredTilingPatterns[k] == pattern
                                && pattern !in p.preferredTilingPatterns[..k]
                                && r.0 == p.(preferredTilingPatterns := p.preferredTilingPatterns[..k] + p.preferredTilingPatterns[k + 1..],
                                             lastUpdated := now)
    ensures multiset(r.0.preferredTilingPatterns) == multiset(p.preferredTilingPatterns) - multiset{pattern}
  {
    match IndexOf(p.preferredTilingPatterns, pattern)
    case None =>
      assert multiset(p.preferredTilingPatterns)[pattern] == 0;
      (p, false)
    case Some(k) =>
      var ps := p.preferredTilingPatterns;
      assert ps == ps[..k] + [ps[k]] + ps[k + 1..];
      (p.(preferredTilingPatterns := ps[..k] + ps[k + 1..], lastUpdated := now), true)
  }

  /** Removing a pattern that was just added gives back the original list. */
  lemma AddThenRemove(p: ApplicationProfile, pattern: Uuid, now: int, later: int)
    requires pattern !in p.preferredTilingPatterns
    ensures RemovePreferredPattern(AddPreferredPattern(p, pattern, now), pattern, later).0.preferredTilingPatterns
            == p.preferredTilingPatterns
  {
    var ps := p.preferredTilingPatterns + [pattern];
    var k := |p.preferredTilingPatterns|;
    assert IndexOf(ps, pattern) == Some(k);
    assert ps[..k] == p.preferredTilingPatterns;
  }

  // ---------------------------------------------------------------------------
  // Validation and construction
  // ---------------------------------------------------------------------------

  /** `validate`. In order: a blank bundle id, a bundle id without a dot, a blank display
      name, a blank detection identifier, a blank custom-rule condition. */
  function Validate(p: ApplicationProfile): (r: Outcome<ApplicationProfileError>)
    ensures r.Pass? <==> && !IsBlank(p.bundleIdentifier) && '.' in p.bundleIdentifier
                         && !IsBlank(p.displayName)
                         && (forall i :: 0 <= i < |p.detectionRules| ==> !IsBlank(p.detectionRules[i].primaryIdentifier))
                         && (forall i :: 0 <= i < |p.customRules| ==> !IsBlank(p.customRules[i].condition))
    ensures !IsBlank(p.bundleIdentifier) && '.' !in p.bundleIdentifier ==>
              r == Fail(InvalidBundleIdentifier(p.bundleIdentifier))
  {
    if IsBlank(p.bundleIdentifier) then Fail(EmptyBundleIdentifier)
    else if '.' !in p.bundleIdentifier then Fail(InvalidBundleIdentifier(p.bundleIdentifier))
    else if IsBlank(p.displayName) then Fail(EmptyDisplayName)
    else if exists i :: 0 <= i < |p.detectionRules| && IsBlank(p.detectionRules[i].primaryIdentifier) then
      Fail(EmptyDetectionIdentifier)
    else if exists i :: 0 <= i < |p.customRules| && IsBlank(p.customRules[i].condition) then
      Fail(EmptyCustomRuleCondition)
    else Pass
  }

  /** `ApplicationProfile::new`: a user profile with no rules and no preferred patterns,
      if it validates. */
  function New(freshId: Uuid, bundleIdentifier: string, displayName: string,
               positioning: WR.PositioningRule, level: CompatibilityLevel, now: int)
    : (r: Result<ApplicationProfile, ApplicationProfileError>)
    ensures r.Ok? <==> !IsBlank(bundleIdentifier) && '.' in bundleIdentifier && !IsBlank(displayName)
    ensures r.Ok? ==> && Validate(r.value).Pass? && r.value.id == freshId
                      && r.value.bundleIdentifier == bundleIdentifier && r.value.isUserProfile
                      && |r.value.detectionRules| == 0 && |r.value.customRules| == 0
                      && r.value.compatibility.level == level
  {
    var profile := ApplicationProfile(freshId, bundleIdentifier, displayName, positioning, [],
                                      CompatibilityInfo(level, [], [], None), [], Normal, Standard,
                                      WR.Never, [], true, now);
    match Validate(profile)
    case Pass => Ok(profile)
    case Fail(e) => Err(e)
  }

  // ---------------------------------------------------------------------------
  // Profile sets
  // ---------------------------------------------------------------------------

  datatype ApplicationProfileSet = ApplicationProfileSet(profiles: seq<ApplicationProfile>)

  /** No two profiles share a bundle id. */
  predicate DistinctBundles(ps: seq<ApplicationProfile>) {
    forall i, j :: 0 <= i < j < |ps| ==> ps[i].bundleIdentifier != ps[j].bundleIdentifier
  }

  predicate Valid(s: ApplicationProfileSet) {
    DistinctBundles(s.profiles)
  }

  predicate BundleTaken(s: ApplicationProfileSet, bundleId: string) {
    exists i :: 0 <= i < |s.profiles| && s.profiles[i].bundleIdentifier == bundleId
  }

  /** `add_profile`: refuses a bundle id already present, leaving the set alone. */
  function AddProfile(s: ApplicationProfileSet, p: ApplicationProfile)
    : (r: (ApplicationProfileSet, Outcome<ApplicationProfileError>))
    ensures r.1.Fail? <==> BundleTaken(s, p.bundleIdentifier)
    ensures r.1.Fail? ==> r == (s, Fail(DuplicateBundleIdentifier(p.bundleIdentifier)))
    ensures r.1.Pass? ==> r.0.profiles == s.profiles + [p]
    ensures Valid(s) ==> Valid(r.0)
  {
    if BundleTaken(s, p.bundleIdentifier) then (s, Fail(DuplicateBundleIdentifier(p.bundleIdentifier)))
    else
      var ps := s.profiles + [p];
      assert forall i :: 0 <= i < |s.profiles| ==> ps[i] == s.profiles[i];
      (ApplicationProfileSet(ps), Pass)
  }

  /** The first profile satisfying `f`, in insertion order. */
  function FirstProfile(ps: seq<ApplicationProfile>, f: ApplicationProfile -> bool): (r: Option<ApplicationProfile>)
    ensures r.None? <==> forall i :: 0 <= i < |ps| ==> !f(ps[i])
    ensures r.Some? ==> exists i :: 0 <= i < |ps| && ps[i] == r.value && f(ps[i]) && forall j :: 0 <= j < i ==> !f(ps[j])
  {
    match Seqs.FirstWhere(ps, f)
    case None => None
    case Some(i) => Some(ps[i])
  }

  /** `find_by_bundle_id`. */
  function FindByBundleId(s: ApplicationProfileSet, bundleId: string): (r: Option<ApplicationProfile>)
    ensures r.None? <==> !BundleTaken(s, bundleId)
    ensures r.Some? ==> r.value in s.profiles && r.value.bundleIdentifier == bundleId
    ensures r.Some? ==> exists i :: && 0 <= i < |s.profiles| && s.profiles[i] == r.value
                                    && forall j :: 0 <= j < i ==> s.profiles[j].bundleIdentifier != bundleId
  {
    FirstProfile(s.profiles, (p: ApplicationProfile) => p.bundleIdentifier == bundleId)
  }

  /** `find_matching_profile`: the first profile that recognises the application. */
  function FindMatchingProfile(s: ApplicationProfileSet, bundleId: Option<string>, processName: Option<string>,
                               title: Option<string>): (r: Option<ApplicationProfile>)
    ensures r.None? <==> forall i :: 0 <= i < |s.profiles| ==> !MatchesApplication(s.profiles[i], bundleId, processName, title)
    ensures r.Some? ==> exists i :: && 0 <= i < |s.profiles| && s.profiles[i] == r.value
                                    && MatchesApplication(r.value, bundleId, processName, title)
                                    && forall j :: 0 <= j < i ==> !MatchesApplication(s.profiles[j], bundleId, processName, title)
  {
    FirstProfile(s.profiles, (p: ApplicationProfile) => MatchesApplication(p, bundleId, processName, title))
  }

  /** `get_profiles_by_compatibility`: the profiles at that level, in order. */
  function ProfilesByCompatibility(s: ApplicationProfileSet, level: CompatibilityLevel): (r: seq<ApplicationProfile>)
    ensures forall p :: p in r <==> p in s.profiles && p.compatibility.level == level
    ensures |r| <= |s.profiles|
  {
    AtLevel(s.profiles, level)
  }

  function AtLevel(ps: seq<ApplicationProfile>, level: CompatibilityLevel): (r: seq<ApplicationProfile>)
    ensures forall p :: p in r <==> p in ps && p.compatibility.level == level
    ensures |r| <= |ps|
  {
    if |ps| == 0 then []
    else
      var rest := AtLevel(ps[1..], level);
      assert forall p :: p in ps <==> p == ps[0] || p in ps[1..];
      if ps[0].compatibility.level == level then [ps[0]] + rest else rest
  }

  /** After a successful add, looking the bundle id up finds the profile just added. */
  lemma AddThenFind(s: ApplicationProfileSet, p: ApplicationProfile)
    requires Valid(s) && AddProfile(s, p).1.Pass?
    ensures FindByBundleId(AddProfile(s, p).0, p.bundleIdentifier) == Some(p)
  {
    var t := AddProfile(s, p).0;
    var r := FindByBundleId(t, p.bundleIdentifier);
    assert forall j :: 0 <= j < |s.profiles| ==> t.profiles[j].bundleIdentifier != p.bundleIdentifier;
    assert t.profiles[|s.profiles|] == p;
    var f := (q: ApplicationProfile) => q.bundleIdentifier == p.bundleIdentifier;
    assert Seqs.FirstWhere(t.profiles, f) == Some(|s.profiles|);
  }

  /** `remove_profile`: removes the first profile with that id, reporting whether there
      was one. */
  function RemoveProfile(s: ApplicationProfileSet, id: Uuid): (r: (ApplicationProfileSet, bool))
    ensures r.1 <==> exists i :: 0 <= i < |s.profiles| && s.profiles[i].id == id
    ensures !r.1 ==> r.0 == s
    ensures r.1 ==> exists k :: && 0 <= k < |s.profiles| && s.profiles[k].id == id
                                && (forall j :: 0 <= j < k ==> s.profiles[j].id != id)
                                && r.0.profiles == s.profiles[..k] + s.profiles[k + 1..]
  {
    var (ps, found) := RemoveFirst(s.profiles, id);
    (ApplicationProfileSet(ps), found)
  }

  function RemoveFirst(ps: seq<ApplicationProfile>, id: Uuid): (r: (seq<ApplicationProfile>, bool))
    ensures r.1 <==> exists i :: 0 <= i < |ps| && ps[i].id == id
    ensures !r.1 ==> r.0 == ps
    ensures r.1 ==> exists k :: && 0 <= k < |ps| && ps[k].id == id
                                && (forall j :: 0 <= j < k ==> ps[j].id != id)
                                && r.0 == ps[..k] + ps[k + 1..]
  {
    match Seqs.FirstWhere(ps, (q: ApplicationProfile) => q.id == id)
    case None => (ps, false)
    case Some(k) => (ps[..k] + ps[k + 1..], true)
  }

  lemma RemoveAtKeepsDistinct(ps: seq<ApplicationProfile>, k: nat)
    requires k < |ps| && DistinctBundles(ps)
    ensures DistinctBundles(ps[..k] + ps[k + 1..])
  {
    var t := ps[..k] + ps[k + 1..];
    assert forall i :: 0 <= i < k ==> t[i] == ps[i];
    assert forall i :: k <= i < |t| ==> t[i] == ps[i + 1];
  }

  /** Removing a profile keeps the bundle ids distinct and drops exactly one profile. */
  lemma {:induction false} RemoveProfilePreservesValid(s: ApplicationProfileSet, id: Uuid)
    requires Valid(s)
    ensures Valid(RemoveProfile(s, id).0)
    ensures RemoveProfile(s, id).1 ==> |RemoveProfile(s, id).0.profiles| == |s.profiles| - 1
  {
    match Seqs.FirstWhere(s.profiles, (q: ApplicationProfile) => q.id == id)
    case None =>
    case Some(k) => RemoveAtKeepsDistinct(s.profiles, k);
  }
}
