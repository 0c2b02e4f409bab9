/** Keyboard shortcuts and the table that binds them to window-manager actions
  (src/models/keyboard_mapping.rs).
 */
module KeyboardMappings {
  import W = Wrappers
  import opened Core
  import opened Text

  // ---------------------------------------------------------------------------
  // Shortcut combinations
  // ---------------------------------------------------------------------------

  datatype ModifierKey = Command | Option | Control | Shift | Function

  datatype ArrowDirection = Up | Down | Left | Right

  /** The primary key of a shortcut. The Rust variant `Key::Function(u8)` is
      called `FunctionKey` here so that it is not confused with the `fn` modifier. */
  datatype Key =
    | Letter(letter: char)
    | Number(digit: u8)
    | FunctionKey(index: u8)
    | Arrow(direction: ArrowDirection)
    | Space
    | Enter
    | Tab
    | Escape
    | Backspace
    | Delete
    | KeyCode(code: u16)

  datatype ShortcutCombination = ShortcutCombination(modifiers: seq<ModifierKey>, key: Key)

  /** Position of a modifier when sorted by its `Debug` name:
      "Command" < "Control" < "Function" < "Option" < "Shift". */
  function Rank(m: ModifierKey): (r: nat)
    ensures r < 5
  {
    match m
    case Command => 0
    case Control => 1
    case Function => 2
    case Option => 3
    case Shift => 4
  }

  lemma RankInjective(a: ModifierKey, b: ModifierKey)
    ensures Rank(a) == Rank(b) ==> a == b
  {
  }

  predicate Sorted(ms: seq<ModifierKey>) {
    forall i, j :: 0 <= i < j < |ms| ==> Rank(ms[i]) <= Rank(ms[j])
  }

  predicate StrictlySorted(ms: seq<ModifierKey>) {
    forall i, j :: 0 <= i < j < |ms| ==> Rank(ms[i]) < Rank(ms[j])
  }

  /** One step of the stable sort: `m` goes after every element of rank at most its own. */
  function Insert(m: ModifierKey, ms: seq<ModifierKey>): (r: seq<ModifierKey>)
    ensures multiset(r) == multiset(ms) + multiset{m}
    ensures forall x :: x in r <==> x == m || x in ms
  {
    if |ms| == 0 then [m]
    else if Rank(m) < Rank(ms[0]) then [m] + ms
    else
      assert ms == [ms[0]] + ms[1..];
      [ms[0]] + Insert(m, ms[1..])
  }

  /** Prepending an element no larger than any in a sorted list keeps it sorted. */
  lemma ConsSorted(m: ModifierKey, ms: seq<ModifierKey>)
    requires Sorted(ms)
    requires forall x :: x in ms ==> Rank(m) <= Rank(x)
    ensures Sorted([m] + ms)
  {
    var r := [m] + ms;
    forall i, j | 0 <= i < j < |r| ensures Rank(r[i]) <= Rank(r[j]) {
      assert r[j] == ms[j - 1];
      if i > 0 { assert r[i] == ms[i - 1]; }
    }
  }

  lemma {:induction false} InsertSorted(m: ModifierKey, ms: seq<ModifierKey>)
    requires Sorted(ms)
    ensures Sorted(Insert(m, ms))
    decreases |ms|
  {
    if |ms| > 0 {
      var t := ms[1..];
      forall x | x in t ensures Rank(ms[0]) <= Rank(x) {
        var j :| 0 <= j < |t| && t[j] == x;
        assert ms[j + 1] == x;
      }
      if Rank(m) >= Rank(ms[0]) {
        InsertSorted(m, t);
        ConsSorted(ms[0], Insert(m, t));
      } else {
        assert ms == [ms[0]] + t;
        ConsSorted(m, ms);
      }
    }
  }

  /** `sort_by_key(|m| format!("{:?}", m))`. */
  function SortByName(ms: seq<ModifierKey>): (r: seq<ModifierKey>)
    ensures Sorted(r)
    ensures multiset(r) == multiset(ms)
  {
    if |ms| == 0 then []
    else
      assert ms == [ms[0]] + ms[1..];
      InsertSorted(ms[0], SortByName(ms[1..]));
      Insert(ms[0], SortByName(ms[1..]))
  }

  /** The set of modifiers occurring in a list. */
  function Elems(ms: seq<ModifierKey>): set<ModifierKey> {
    set x | x in ms
  }

  lemma ElemsCons(ms: seq<ModifierKey>)
    requires |ms| > 0
    ensures Elems(ms) == {ms[0]} + Elems(ms[1..])
  {
    forall x | x in ms ensures x == ms[0] || x in ms[1..] {
      var k :| 0 <= k < |ms| && ms[k] == x;
      if k > 0 { assert ms[1..][k - 1] == x; }
    }
  }

  /** `Vec::dedup`: removes consecutive repeated elements. */
  function Dedup(ms: seq<ModifierKey>): (r: seq<ModifierKey>)
    ensures Elems(r) == Elems(ms)
    ensures |ms| > 0 ==> |r| > 0 && r[0] == ms[0]
  {
    if |ms| <= 1 then ms
    else
      var tail := Dedup(ms[1..]);
      ElemsCons(ms);
      ElemsCons(ms[1..]);
      if ms[0] == ms[1] then tail
      else
        ElemsCons([ms[0]] + tail);
        assert ([ms[0]] + tail)[1..] == tail;
        [ms[0]] + tail
  }

  /** Deduplicating a sorted list leaves it strictly sorted. */
  lemma {:induction false} DedupStrictlySorted(ms: seq<ModifierKey>)
    requires Sorted(ms)
    ensures StrictlySorted(Dedup(ms))
    decreases |ms|
  {
    if |ms| > 1 {
      var tail := Dedup(ms[1..]);
      DedupStrictlySorted(ms[1..]);
      if ms[0] != ms[1] {
        RankInjective(ms[0], ms[1]);
        forall k | 0 <= k < |tail| ensures Rank(ms[0]) < Rank(tail[k]) {
          assert tail[k] in Elems(tail);
          var m :| 0 <= m < |ms[1..]| && ms[1..][m] == tail[k];
          assert Rank(ms[1]) <= Rank(ms[m + 1]);
        }
        var r := [ms[0]] + tail;
        assert Dedup(ms) == r;
        forall i, j | 0 <= i < j < |r| ensures Rank(r[i]) < Rank(r[j]) {
          if i > 0 { assert r[i] == tail[i - 1] && r[j] == tail[j - 1]; }
          else { assert r[j] == tail[j - 1]; }
        }
      }
    }
  }

  /** The modifier list `ShortcutCombination::new` stores: sorted by name, duplicates removed. */
  function Normalize(ms: seq<ModifierKey>): (r: seq<ModifierKey>)
    ensures StrictlySorted(r)
    ensures Elems(r) == Elems(ms)
  {
    var sorted := SortByName(ms);
    assert forall x :: x in sorted <==> x in multiset(sorted);
    assert forall x :: x in ms <==> x in multiset(ms);
    DedupStrictlySorted(sorted);
    Dedup(sorted)
  }

  lemma ElemsEmpty(ms: seq<ModifierKey>)
    ensures Elems(ms) == {} <==> |ms| == 0
  {
    if |ms| > 0 {
      assert ms[0] in Elems(ms);
    }
  }

  /** The head of a strictly sorted list has the least rank and does not occur again. */
  lemma StrictlySortedHead(a: seq<ModifierKey>, x: ModifierKey)
    requires StrictlySorted(a) && |a| > 0 && x in a
    ensures Rank(a[0]) <= Rank(x)
    ensures a[0] !in a[1..]
  {
    forall k | 0 <= k < |a| - 1 ensures a[1..][k] != a[0] {
      assert Rank(a[0]) < Rank(a[k + 1]);
    }
  }

  /** A strictly sorted modifier list is determined by the set of its elements. */
  lemma {:induction false} StrictlySortedUnique(a: seq<ModifierKey>, b: seq<ModifierKey>)
    requires StrictlySorted(a) && StrictlySorted(b)
    requires Elems(a) == Elems(b)
    ensures a == b
    decreases |a|
  {
    ElemsEmpty(a);
    ElemsEmpty(b);
    if |a| > 0 && |b| > 0 {
      ElemsCons(a);
      ElemsCons(b);
      StrictlySortedHead(a, b[0]);
      StrictlySortedHead(b, a[0]);
      RankInjective(a[0], b[0]);
      assert Elems(a[1..]) == Elems(b[1..]);
      StrictlySortedUnique(a[1..], b[1..]);
      assert a == [a[0]] + a[1..] && b == [b[0]] + b[1..];
    }
  }

  /** Normalising depends only on which modifiers occur: order and repetition are forgotten. */
  lemma NormalizeBySet(a: seq<ModifierKey>, b: seq<ModifierKey>)
    requires Elems(a) == Elems(b)
    ensures Normalize(a) == Normalize(b)
  {
    StrictlySortedUnique(Normalize(a), Normalize(b));
  }

  /** Normalising an already normalised list changes nothing. */
  lemma NormalizeIdempotent(ms: seq<ModifierKey>)
    ensures Normalize(Normalize(ms)) == Normalize(ms)
  {
    NormalizeBySet(Normalize(ms), ms);
  }

  /** `ShortcutCombination::new`: the key is kept, the modifiers are normalised. */
  function NewCombination(modifiers: seq<ModifierKey>, key: Key): (c: ShortcutCombination)
    ensures c.key == key
    ensures StrictlySorted(c.modifiers)
    ensures forall m :: m in c.modifiers <==> m in modifiers
  {
    var n := Normalize(modifiers);
    assert forall m :: m in n <==> m in Elems(n);
    ShortcutCombination(n, key)
  }

  /** The key test of `ShortcutCombination::validate`: a letter must be ASCII alphabetic,
      a number at most 9 and a function key between F1 and F12. */
  predicate KeyIsValid(k: Key) {
    match k
    case Letter(c) => IsAsciiAlphabetic(c)
    case Number(n) => n <= 9
    case FunctionKey(f) => 1 <= f <= 12
    case _ => true
  }

  datatype KeyboardMappingError =
    | EmptyName
    | InvalidKey
    | NoModifiers
    | ActionParameterMismatch
    | InvalidResizeAmount
    | EmptyWorkspaceName
    | EmptyMonitorId
    | ConflictingShortcut(shortcut: ShortcutCombination)
    | InvalidModifierCombination

  /** `ShortcutCombination::validate`: the key is checked before the modifiers. */
  function ValidateCombination(c: ShortcutCombination): (r: W.Outcome<KeyboardMappingError>)
    ensures r == W.Pass <==> KeyIsValid(c.key) && |c.modifiers| > 0
    ensures r == W.Fail(InvalidKey) <==> !KeyIsValid(c.key)
    ensures r == W.Fail(NoModifiers) <==> KeyIsValid(c.key) && |c.modifiers| == 0
  {
    match c.key
    case Letter(ch) =>
      if !IsAsciiAlphabetic(ch) then W.Fail(InvalidKey) else ModifiersPresent(c)
    case Number(n) =>
      if n > 9 then W.Fail(InvalidKey) else ModifiersPresent(c)
    case FunctionKey(f) =>
      if f == 0 || f > 12 then W.Fail(InvalidKey) else ModifiersPresent(c)
    case _ => ModifiersPresent(c)
  }

  function ModifiersPresent(c: ShortcutCombination): W.Outcome<KeyboardMappingError> {
    if |c.modifiers| == 0 then W.Fail(NoModifiers) else W.Pass
  }

  // ---------------------------------------------------------------------------
  // Actions and their parameters
  // ---------------------------------------------------------------------------

  datatype ActionType =
    | SwitchWorkspace
    | MoveWindow
    | MoveWindowToMonitor
    | ResizeWindow
    | CreateWorkspace
    | DeleteWorkspace
    | ToggleFloating
    | ToggleFullscreen
    | FocusNext
    | FocusPrevious
    | CloseWindow
    | MinimizeWindow
    | RefreshLayout
    | ShowOverview
    | CustomAction(action: string)

  datatype ResizeDirection =
    | Increase | Decrease | IncreaseWidth | DecreaseWidth | IncreaseHeight | DecreaseHeight

  /** `ActionParameters`; the JSON payload of the custom variant is kept as its text. */
  datatype ActionParameters =
    | NoParameters
    | WorkspaceId(workspace: Uuid)
    | MonitorId(monitor: string)
    | Resize(direction: ResizeDirection, amount: u32)
    | WorkspaceName(workspaceName: string)
    | CustomParameters(json: string)

  datatype KeyboardMapping = KeyboardMapping(
    id: Uuid,
    name: string,
    combination: ShortcutCombination,
    action: ActionType,
    parameters: ActionParameters,
    enabled: bool,
    globalScope: bool,
    description: W.Option<string>)

  /** `action_parameters_match`, written as the source's match arms. */
  predicate ActionParametersMatch(action: ActionType, parameters: ActionParameters) {
    match (action, parameters)
    case (SwitchWorkspace, WorkspaceId(_)) => true
    case (SwitchWorkspace, NoParameters) => true
    case (MoveWindow, WorkspaceId(_)) => true
    case (MoveWindowToMonitor, MonitorId(_)) => true
    case (ResizeWindow, Resize(_, _)) => true
    case (CreateWorkspace, WorkspaceName(_)) => true
    case (CustomAction(_), CustomParameters(_)) => true
    case (DeleteWorkspace, NoParameters) => true
    case (ToggleFloating, NoParameters) => true
    case (ToggleFullscreen, NoParameters) => true
    case (FocusNext, NoParameters) => true
    case (FocusPrevious, NoParameters) => true
    case (CloseWindow, NoParameters) => true
    case (MinimizeWindow, NoParameters) => true
    case (RefreshLayout, NoParameters) => true
    case (ShowOverview, NoParameters) => true
    case _ => false
  }

  /** The parameter variants, without their payloads. */
  datatype ParameterKind = NoKind | WorkspaceIdKind | MonitorIdKind | ResizeKind | WorkspaceNameKind | CustomKind

  function KindOf(p: ActionParameters): ParameterKind {
    match p
    case NoParameters => NoKind
    case WorkspaceId(_) => WorkspaceIdKind
    case MonitorId(_) => MonitorIdKind
    case Resize(_, _) => ResizeKind
    case WorkspaceName(_) => WorkspaceNameKind
    case CustomParameters(_) => CustomKind
  }

  /** The compatibility table, one row per action: the parameter kinds it accepts. */
  function AcceptedKinds(a: ActionType): set<ParameterKind> {
    match a
    case SwitchWorkspace => {WorkspaceIdKind, NoKind}
    case MoveWindow => {WorkspaceIdKind}
    case MoveWindowToMonitor => {MonitorIdKind}
    case ResizeWindow => {ResizeKind}
    case CreateWorkspace => {WorkspaceNameKind}
    case CustomAction(_) => {CustomKind}
    case _ => {NoKind}
  }

  /** The match arms accept exactly the pairs of the table, and every action accepts
      at least one parameter kind. */
  lemma ActionParametersMatchTable(a: ActionType, p: ActionParameters)
    ensures ActionParametersMatch(a, p) <==> KindOf(p) in AcceptedKinds(a)
    ensures |AcceptedKinds(a)| >= 1
  {
  }

  // ---------------------------------------------------------------------------
  // Mappings
  // ---------------------------------------------------------------------------

  /** `KeyboardMapping::validate`: the checks in the order the code makes them. */
  function Validate(m: KeyboardMapping): (r: W.Outcome<KeyboardMappingError>)
    ensures IsBlank(m.name) ==> r == W.Fail(EmptyName)
    ensures !IsBlank(m.name) && ValidateCombination(m.combination).Fail?
      ==> r == ValidateCombination(m.combination)
    ensures (!IsBlank(m.name) && ValidateCombination(m.combination).Pass?
             && !ActionParametersMatch(m.action, m.parameters)) ==> r == W.Fail(ActionParameterMismatch)
    ensures r == W.Fail(InvalidResizeAmount) <==>
      !IsBlank(m.name) && ValidateCombination(m.combination).Pass? && ActionParametersMatch(m.action, m.parameters)
      && m.parameters.Resize? && m.parameters.amount == 0
    ensures r == W.Fail(EmptyWorkspaceName) <==>
      !IsBlank(m.name) && ValidateCombination(m.combination).Pass? && ActionParametersMatch(m.action, m.parameters)
      && m.parameters.WorkspaceName? && IsBlank(m.parameters.workspaceName)
    ensures r == W.Fail(EmptyMonitorId) <==>
      !IsBlank(m.name) && ValidateCombination(m.combination).Pass? && ActionParametersMatch(m.action, m.parameters)
      && m.parameters.MonitorId? && IsBlank(m.parameters.monitor)
    ensures r == W.Pass <==> MappingIsValid(m)
  {
    ValidFieldByField(m);
    if IsBlank(m.name) then W.Fail(EmptyName)
    else if ValidateCombination(m.combination).Fail? then ValidateCombination(m.combination)
    else if !ActionParametersMatch(m.action, m.parameters) then W.Fail(ActionParameterMismatch)
    else
      match m.parameters
      case Resize(_, amount) => if amount == 0 then W.Fail(InvalidResizeAmount) else W.Pass
      case WorkspaceName(n) => if IsBlank(n) then W.Fail(EmptyWorkspaceName) else W.Pass
      case MonitorId(id) => if IsBlank(id) then W.Fail(EmptyMonitorId) else W.Pass
      case _ => W.Pass
  }

  /** Everything a valid mapping satisfies, stated field by field. */
  predicate MappingIsValid(m: KeyboardMapping) {
    && !AllWhitespace(m.name)
    && KeyIsValid(m.combination.key)
    && |m.combination.modifiers| > 0
    && KindOf(m.parameters) in AcceptedKinds(m.action)
    && (m.parameters.Resize? ==> m.parameters.amount > 0)
    && (m.parameters.WorkspaceName? ==> !AllWhitespace(m.parameters.workspaceName))
    && (m.parameters.MonitorId? ==> !AllWhitespace(m.parameters.monitor))
  }

  /** Validity in the terms of the checks `validate` makes, in their order. */
  lemma ValidFieldByField(m: KeyboardMapping)
    ensures MappingIsValid(m) <==>
      && !IsBlank(m.name) && ValidateCombination(m.combination).Pass? && ActionParametersMatch(m.action, m.parameters)
      && (m.parameters.Resize? ==> m.parameters.amount != 0)
      && (m.parameters.WorkspaceName? ==> !IsBlank(m.parameters.workspaceName))
      && (m.parameters.MonitorId? ==> !IsBlank(m.parameters.monitor))
  {
    BlankIffAllWhitespace(m.name);
    if m.parameters.WorkspaceName? { BlankIffAllWhitespace(m.parameters.workspaceName); }
    if m.parameters.MonitorId? { BlankIffAllWhitespace(m.parameters.monitor); }
    ActionParametersMatchTable(m.action, m.parameters);
  }

  /** `KeyboardMapping::new`: a mapping with a fresh id, returned only if it validates. */
  function NewMapping(
    freshId: Uuid, name: string, combination: ShortcutCombination, action: ActionType,
    parameters: ActionParameters, enabled: bool, globalScope: bool, description: W.Option<string>
  ): (r: W.Result<KeyboardMapping, KeyboardMappingError>)
    ensures r.Ok? <==> MappingIsValid(KeyboardMapping(freshId, name, combination, action, parameters, enabled, globalScope, description))
    ensures r.Ok? ==> r.value == KeyboardMapping(freshId, name, combination, action, parameters, enabled, globalScope, description)
  {
    var m := KeyboardMapping(freshId, name, combination, action, parameters, enabled, globalScope, description);
    match Validate(m)
    case Pass => W.Ok(m)
    case Fail(e) => W.Err(e)
  }

  /** `conflicts_with`: both enabled, same combination, different ids. */
  function ConflictsWith(a: KeyboardMapping, b: KeyboardMapping): (r: bool)
    ensures r ==> a != b && a.combination == b.combination
    ensures !a.enabled || !b.enabled ==> !r
  {
    a.enabled && b.enabled && a.combination == b.combination && a.id != b.id
  }

  lemma ConflictsSymmetric(a: KeyboardMapping, b: KeyboardMapping)
    ensures ConflictsWith(a, b) <==> ConflictsWith(b, a)
    ensures a.id == b.id ==> !ConflictsWith(a, b)
  {
  }

  // ---------------------------------------------------------------------------
  // The mapping set
  // ---------------------------------------------------------------------------

  datatype KeyboardMappingSet = KeyboardMappingSet(mappings: seq<KeyboardMapping>)

  /** The table invariant: no two enabled mappings with different ids share a combination. */
  predicate ConflictFree(ms: seq<KeyboardMapping>) {
    forall i, j :: 0 <= i < |ms| && 0 <= j < |ms| ==> !ConflictsWith(ms[i], ms[j])
  }

  /** Index of the first existing mapping that `m` conflicts with. */
  function FirstConflict(m: KeyboardMapping, ms: seq<KeyboardMapping>): (r: W.Option<nat>)
    ensures r.Some? ==> r.value < |ms| && ConflictsWith(m, ms[r.value])
    ensures r.Some? ==> forall j :: 0 <= j < r.value ==> !ConflictsWith(m, ms[j])
    ensures r.None? <==> forall j :: 0 <= j < |ms| ==> !ConflictsWith(m, ms[j])
  {
    if |ms| == 0 then W.None
    else if ConflictsWith(m, ms[0]) then W.Some(0)
    else match FirstConflict(m, ms[1..])
      case None => W.None
      case Some(k) => W.Some(k + 1)
  }

  /** `add_mapping`: refuses a mapping that conflicts with a stored one, else appends it. */
  function AddMapping(s: KeyboardMappingSet, m: KeyboardMapping): (r: W.Result<KeyboardMappingSet, KeyboardMappingError>)
    ensures r.Err? <==> exists j :: 0 <= j < |s.mappings| && ConflictsWith(m, s.mappings[j])
    ensures r.Err? ==> r.error == ConflictingShortcut(m.combination)
    ensures r.Ok? ==> r.value.mappings == s.mappings + [m]
  {
    match FirstConflict(m, s.mappings)
    case Some(_) => W.Err(ConflictingShortcut(m.combination))
    case None => W.Ok(KeyboardMappingSet(s.mappings + [m]))
  }

  /** A successful insertion keeps the table conflict-free. */
  lemma AddMappingPreservesConflictFree(s: KeyboardMappingSet, m: KeyboardMapping)
    requires ConflictFree(s.mappings)
    ensures AddMapping(s, m).Ok? ==> ConflictFree(AddMapping(s, m).value.mappings)
  {
    if AddMapping(s, m).Ok? {
      var ms := AddMapping(s, m).value.mappings;
      forall i, j | 0 <= i < |ms| && 0 <= j < |ms|
        ensures !ConflictsWith(ms[i], ms[j])
      {
        ConflictsSymmetric(ms[i], ms[j]);
        if i == |ms| - 1 && j < |ms| - 1 {
          assert ms[j] == s.mappings[j];
        } else if j == |ms| - 1 && i < |ms| - 1 {
          assert ms[i] == s.mappings[i];
        } else if i < |ms| - 1 && j < |ms| - 1 {
          assert ms[i] == s.mappings[i] && ms[j] == s.mappings[j];
        }
      }
    }
  }

  /** Index of the first mapping with the given id. */
  function IndexOfId(ms: seq<KeyboardMapping>, id: Uuid): (r: W.Option<nat>)
    ensures r.Some? ==> r.value < |ms| && ms[r.value].id == id
    ensures r.Some? ==> forall j :: 0 <= j < r.value ==> ms[j].id != id
    ensures r.None? <==> forall j :: 0 <= j < |ms| ==> ms[j].id != id
  {
    if |ms| == 0 then W.None
    else if ms[0].id == id then W.Some(0)
    else match IndexOfId(ms[1..], id)
      case None => W.None
      case Some(k) => W.Some(k + 1)
  }

  /** `remove_mapping`: drops the first mapping with the id and reports whether there was one. */
  function RemoveMapping(s: KeyboardMappingSet, id: Uuid): (r: (KeyboardMappingSet, bool))
    ensures r.1 <==> exists j :: 0 <= j < |s.mappings| && s.mappings[j].id == id
    ensures !r.1 ==> r.0 == s
    ensures r.1 ==> |r.0.mappings| == |s.mappings| - 1
    ensures r.1 ==> (exists p :: 0 <= p < |s.mappings| && s.mappings[p].id == id
                       && (forall j :: 0 <= j < p ==> s.mappings[j].id != id)
                       && r.0.mappings == s.mappings[..p] + s.mappings[p + 1..])
  {
    match IndexOfId(s.mappings, id)
    case None => (s, false)
    case Some(p) => (KeyboardMappingSet(s.mappings[..p] + s.mappings[p + 1..]), true)
  }

  /** Removing a mapping adds nothing to the table. */
  lemma RemoveMappingSubset(s: KeyboardMappingSet, id: Uuid)
    ensures forall m :: m in RemoveMapping(s, id).0.mappings ==> m in s.mappings
  {
  }

  /** Removing a mapping keeps the table conflict-free. */
  lemma RemoveMappingPreservesConflictFree(s: KeyboardMappingSet, id: Uuid)
    requires ConflictFree(s.mappings)
    ensures ConflictFree(RemoveMapping(s, id).0.mappings)
  {
    var r := RemoveMapping(s, id).0.mappings;
    RemoveMappingSubset(s, id);
    forall i, j | 0 <= i < |r| && 0 <= j < |r|
      ensures !ConflictsWith(r[i], r[j])
    {
      assert r[i] in s.mappings && r[j] in s.mappings;
      var a :| 0 <= a < |s.mappings| && s.mappings[a] == r[i];
      var b :| 0 <= b < |s.mappings| && s.mappings[b] == r[j];
    }
  }

  /** `find_by_shortcut`: the first enabled mapping with exactly this combination. */
  function FindByShortcut(s: KeyboardMappingSet, c: ShortcutCombination): (r: W.Option<KeyboardMapping>)
    ensures r.Some? ==> (exists i :: 0 <= i < |s.mappings| && s.mappings[i] == r.value
                           && (forall j :: 0 <= j < i ==> !(s.mappings[j].enabled && s.mappings[j].combination == c)))
    ensures r.Some? ==> r.value.enabled && r.value.combination == c
    ensures r.None? <==> forall j :: 0 <= j < |s.mappings| ==> !(s.mappings[j].enabled && s.mappings[j].combination == c)
    decreases |s.mappings|
  {
    if |s.mappings| == 0 then W.None
    else if s.mappings[0].enabled && s.mappings[0].combination == c then W.Some(s.mappings[0])
    else
      var r := FindByShortcut(KeyboardMappingSet(s.mappings[1..]), c);
      if r.Some? then
        var i :| 0 <= i < |s.mappings| - 1 && s.mappings[1..][i] == r.value
          && (forall j :: 0 <= j < i ==> !(s.mappings[1..][j].enabled && s.mappings[1..][j].combination == c));
        assert s.mappings[i + 1] == r.value;
        r
      else r
  }

  /** In a conflict-free table the lookup is unambiguous: every enabled mapping with
      that combination has the id of the one found. */
  lemma FindByShortcutUnambiguous(s: KeyboardMappingSet, c: ShortcutCombination, k: nat)
    requires ConflictFree(s.mappings)
    requires k < |s.mappings| && s.mappings[k].enabled && s.mappings[k].combination == c
    ensures FindByShortcut(s, c).Some?
    ensures FindByShortcut(s, c).value.id == s.mappings[k].id
  {
    var f := FindByShortcut(s, c).value;
    var i :| 0 <= i < |s.mappings| && s.mappings[i] == f;
    assert !ConflictsWith(s.mappings[i], s.mappings[k]);
  }

  /** `get_global_mappings`: enabled mappings with global scope, in table order. */
  function GlobalMappings(ms: seq<KeyboardMapping>): (r: seq<KeyboardMapping>)
    ensures forall m :: m in r <==> m in ms && m.enabled && m.globalScope
  {
    if |ms| == 0 then []
    else (if ms[0].enabled && ms[0].globalScope then [ms[0]] else []) + GlobalMappings(ms[1..])
  }

  /** `get_local_mappings`: enabled mappings without global scope, in table order. */
  function LocalMappings(ms: seq<KeyboardMapping>): (r: seq<KeyboardMapping>)
    ensures forall m :: m in r <==> m in ms && m.enabled && !m.globalScope
  {
    if |ms| == 0 then []
    else (if ms[0].enabled && !ms[0].globalScope then [ms[0]] else []) + LocalMappings(ms[1..])
  }

  function EnabledMappings(ms: seq<KeyboardMapping>): seq<KeyboardMapping> {
    if |ms| == 0 then []
    else (if ms[0].enabled then [ms[0]] else []) + EnabledMappings(ms[1..])
  }

  /** The global and local lists split the enabled mappings between them: together they hold
      each enabled mapping exactly as often as the table does. */
  lemma {:induction false} GlobalLocalPartition(ms: seq<KeyboardMapping>)
    ensures multiset(GlobalMappings(ms)) + multiset(LocalMappings(ms)) == multiset(EnabledMappings(ms))
    ensures |GlobalMappings(ms)| + |LocalMappings(ms)| == |EnabledMappings(ms)|
  {
    if |ms| > 0 {
      GlobalLocalPartition(ms[1..]);
    }
  }

  // ---------------------------------------------------------------------------
  // Defaults
  // ---------------------------------------------------------------------------

  /** The mapping `KeyboardMapping::default` builds: Cmd+A shows the overview. */
  function DefaultMapping(freshId: Uuid): (m: KeyboardMapping)
    ensures MappingIsValid(m) && m.enabled && m.globalScope
  {
    assert !IsWhitespace("Default Mapping"[0]);
    KeyboardMapping(freshId, "Default Mapping", NewCombination([Command], Letter('a')),
      ShowOverview, NoParameters, true, true, W.None)
  }

  /** One row of the table `create_default` installs. */
  datatype DefaultSpec = DefaultSpec(
    name: string, modifiers: seq<ModifierKey>, key: Key, action: ActionType, description: W.Option<string>)

  /** The row "Switch to Workspace i" bound to Cmd+i, for a digit i in 1..9. */
  function SwitchSpec(i: nat): (sp: DefaultSpec)
    requires 1 <= i <= 9
    ensures sp.key == Number(i) && sp.modifiers == [Command] && sp.action == SwitchWorkspace
  {
    var digit := ('0' as int + i) as char;
    DefaultSpec("Switch to Workspace " + [digit], [Command], Number(i), SwitchWorkspace,
      W.Some("Switch to workspace " + [digit]))
  }

  /** The five window-management shortcuts that follow the workspace switches. */
  function WindowSpecs(): (specs: seq<DefaultSpec>)
    ensures |specs| == 5
    ensures forall k :: 0 <= k < 5 ==> !specs[k].key.Number?
  {
    [ DefaultSpec("Focus Next Window", [Command], Tab, FocusNext, W.None),
      DefaultSpec("Focus Previous Window", [Command, Shift], Tab, FocusPrevious, W.None),
      DefaultSpec("Close Window", [Command], Letter('w'), CloseWindow, W.None),
      DefaultSpec("Toggle Fullscreen", [Command, Control], Letter('f'), ToggleFullscreen, W.None),
      DefaultSpec("Toggle Floating", [Command, Option], Letter('f'), ToggleFloating, W.None) ]
  }

  /** Cmd+1 … Cmd+9 switch workspaces, then the five window-management shortcuts. */
  function DefaultSpecs(): (specs: seq<DefaultSpec>)
    ensures |specs| == 14
    ensures forall i :: 0 <= i < 9 ==> specs[i] == SwitchSpec(i + 1)
    ensures forall k :: 0 <= k < 5 ==> specs[9 + k] == WindowSpecs()[k]
  {
    seq(9, i requires 0 <= i < 9 => SwitchSpec(i + 1)) + WindowSpecs()
  }

  /** Builds and inserts one mapping per spec, stopping at the first failure. */
  function InstallDefaults(s: KeyboardMappingSet, specs: seq<DefaultSpec>, ids: seq<Uuid>)
    : W.Result<KeyboardMappingSet, KeyboardMappingError>
    requires |ids| == |specs|
    decreases |specs|
  {
    if |specs| == 0 then W.Ok(s)
    else
      var sp := specs[0];
      match NewMapping(ids[0], sp.name, NewCombination(sp.modifiers, sp.key), sp.action,
                       NoParameters, true, true, sp.description)
      case Err(e) => W.Err(e)
      case Ok(m) =>
        match AddMapping(s, m)
        case Err(e) => W.Err(e)
        case Ok(s2) => InstallDefaults(s2, specs[1..], ids[1..])
  }

  /** `KeyboardMappingSet::create_default`, with the fourteen fresh ids passed in. */
  function CreateDefault(ids: seq<Uuid>): (r: W.Result<KeyboardMappingSet, KeyboardMappingError>)
    requires |ids| == 14
    ensures r.Ok? && |r.value.mappings| == 14
    ensures ConflictFree(r.value.mappings)
  {
    DefaultSpecsValid();
    DefaultSpecsDiffer();
    InstallDefaultsSucceeds(KeyboardMappingSet([]), DefaultSpecs(), ids);
    InstallDefaults(KeyboardMappingSet([]), DefaultSpecs(), ids)
  }

  /** Two specs bind different shortcuts: another key, or another set of modifiers. */
  predicate SpecsDiffer(a: DefaultSpec, b: DefaultSpec) {
    a.key != b.key || Elems(a.modifiers) != Elems(b.modifiers)
  }

  /** Combinations built from different keys or different modifier sets are different. */
  lemma CombinationDiffers(a: seq<ModifierKey>, b: seq<ModifierKey>, ka: Key, kb: Key)
    requires ka != kb || Elems(a) != Elems(b)
    ensures NewCombination(a, ka) != NewCombination(b, kb)
  {
    var ca := NewCombination(a, ka);
    var cb := NewCombination(b, kb);
    assert Elems(ca.modifiers) == Elems(a) && Elems(cb.modifiers) == Elems(b);
  }

  predicate SpecIsValid(sp: DefaultSpec) {
    !AllWhitespace(sp.name) && KeyIsValid(sp.key) && |sp.modifiers| > 0
    && KindOf(NoParameters) in AcceptedKinds(sp.action)
  }

  /** Installing valid specs whose combinations are pairwise different, on top of a table
      whose enabled entries use none of them, always succeeds and appends one mapping per spec. */
  lemma {:induction false} InstallDefaultsSucceeds(s: KeyboardMappingSet, specs: seq<DefaultSpec>, ids: seq<Uuid>)
    requires |ids| == |specs|
    requires forall i :: 0 <= i < |specs| ==> SpecIsValid(specs[i])
    requires forall i, j :: 0 <= i < j < |specs| ==> SpecsDiffer(specs[i], specs[j])
    requires forall i, k :: 0 <= i < |specs| && 0 <= k < |s.mappings| ==>
      s.mappings[k].combination != NewCombination(specs[i].modifiers, specs[i].key)
    requires ConflictFree(s.mappings)
    ensures InstallDefaults(s, specs, ids).Ok?
    ensures |InstallDefaults(s, specs, ids).value.mappings| == |s.mappings| + |specs|
    ensures ConflictFree(InstallDefaults(s, specs, ids).value.mappings)
    decreases |specs|
  {
    if |specs| > 0 {
      var sp := specs[0];
      var c := NewCombination(sp.modifiers, sp.key);
      assert SpecIsValid(sp);
      var m := KeyboardMapping(ids[0], sp.name, c, sp.action, NoParameters, true, true, sp.description);
      assert MappingIsValid(m);
      assert NewMapping(ids[0], sp.name, c, sp.action, NoParameters, true, true, sp.description) == W.Ok(m);
      assert forall k :: 0 <= k < |s.mappings| ==> !ConflictsWith(m, s.mappings[k]);
      AddMappingPreservesConflictFree(s, m);
      var s2 := KeyboardMappingSet(s.mappings + [m]);
      assert AddMapping(s, m) == W.Ok(s2);
      forall i, k | 0 <= i < |specs[1..]| && 0 <= k < |s2.mappings|
        ensures s2.mappings[k].combination != NewCombination(specs[1..][i].modifiers, specs[1..][i].key)
      {
        if k == |s.mappings| {
          assert specs[1..][i] == specs[i + 1];
          CombinationDiffers(sp.modifiers, specs[i + 1].modifiers, sp.key, specs[i + 1].key);
        }
      }
      InstallDefaultsSucceeds(s2, specs[1..], ids[1..]);
    }
  }

  lemma SwitchSpecValid(i: nat)
    requires 1 <= i <= 9
    ensures SpecIsValid(SwitchSpec(i))
  {
    assert SwitchSpec(i).name[0] == 'S';
  }

  lemma WindowSpecsValid()
    ensures forall k :: 0 <= k < 5 ==> SpecIsValid(WindowSpecs()[k])
  {
    var specs := WindowSpecs();
    assert specs[0].name[0] == 'F' && specs[1].name[0] == 'F' && specs[2].name[0] == 'C';
    assert specs[3].name[0] == 'T' && specs[4].name[0] == 'T';
  }

  lemma DefaultSpecsValid()
    ensures forall i :: 0 <= i < 14 ==> SpecIsValid(DefaultSpecs()[i])
  {
    var specs := DefaultSpecs();
    WindowSpecsValid();
    forall i | 0 <= i < 14 ensures SpecIsValid(specs[i]) {
      if i < 9 {
        SwitchSpecValid(i + 1);
      } else {
        assert specs[i] == WindowSpecs()[i - 9];
      }
    }
  }

  /** The window-management shortcuts sharing a key differ in a modifier. */
  lemma WindowSpecsDiffer()
    ensures forall k, l :: 0 <= k < l < 5 ==> SpecsDiffer(WindowSpecs()[k], WindowSpecs()[l])
  {
    var specs := WindowSpecs();
    assert Shift in Elems(specs[1].modifiers) && Shift !in Elems(specs[0].modifiers);
    assert Control in Elems(specs[3].modifiers) && Control !in Elems(specs[4].modifiers);
  }

  lemma DefaultSpecsDiffer()
    ensures forall i, j :: 0 <= i < j < 14 ==> SpecsDiffer(DefaultSpecs()[i], DefaultSpecs()[j])
  {
    var specs := DefaultSpecs();
    WindowSpecsDiffer();
    forall i, j | 0 <= i < j < 14 ensures SpecsDiffer(specs[i], specs[j]) {
      if j < 9 {
        assert specs[i].key == Number(i + 1) && specs[j].key == Number(j + 1);
      } else if i < 9 {
        assert specs[i].key.Number? && specs[j] == WindowSpecs()[j - 9];
      } else {
        assert specs[i] == WindowSpecs()[i - 9] && specs[j] == WindowSpecs()[j - 9];
      }
    }
  }
}
