/** The configuration validator (src/config/validator.rs): thirty named rules, each an
  Error, a Warning or an Info, checked section by section over a whole configuration.
  Unlike the parser's fail-fast checks, the validator collects every finding.

  Each finding is a `ValidationResult`: the rule, the id of the entity it is about and
  that entity's kind. The human-readable message is not modelled. The regular
  expressions become predicates: the shortcut format is the one the parser uses, the
  bundle-identifier expression is a small automaton, and whether a window-title
  pattern compiles is the parameter `regexValid`. `ShortcutCombination::to_config_string`
  is called but never defined in the repository, so it is the parameter `signature`.
 */
module ConfigValidator {
  import opened Wrappers
  import opened Core
  import opened Text
  import opened Seqs
  import WS = Workspaces
  import TP = TilingPatterns
  import WR = WindowRules
  import MC = MonitorConfigurations
  import AP = ApplicationProfiles
  import KM = KeyboardMappings
  import CP = ConfigParser

  // ---------------------------------------------------------------------------
  // Rules
  // ---------------------------------------------------------------------------

  datatype Severity = Error | Warning | Info

  /** The rule names of `default_rules`, one constructor per name string. */
  datatype RuleName =
    | DuplicateWorkspaceName | DuplicateKeyboardShortcut | EmptyWorkspaceName
    | WorkspaceNameTooLong | InvalidKeyboardShortcut | LegacyCommandShortcut
    | WorkspaceDescriptionTooLong | DuplicatePatternName | InvalidMainAreaRatio
    | NegativeGapSize | NegativeWindowMargin | ZeroMaxWindows | HighMaxWindows
    | InvalidWindowTitleRegex | NegativeZOrder | NegativeFixedPosition | InvalidFixedSize
    | DuplicateBundleIdentifier | InvalidBundleIdentifier | EmptyDisplayName
    | InvalidScaleFactor | UnusualScaleFactor | MissingTilingPatternReference
    | MissingWorkspaceReference | MissingApplicationProfileReference
    | MissingKeyboardTargetReference | SystemReservedShortcut | HighWorkspaceCount
    | HighKeyboardMappingCount | HighWindowRuleCount

  datatype ValidationRule = ValidationRule(name: RuleName, severity: Severity)

  /** `default_rules`, in the source's order. */
  function DefaultRules(): (rs: seq<ValidationRule>)
    ensures |rs| == 30
  {
    [ ValidationRule(DuplicateWorkspaceName, Error),
      ValidationRule(DuplicateKeyboardShortcut, Error),
      ValidationRule(EmptyWorkspaceName, Error),
      ValidationRule(WorkspaceNameTooLong, Error),
      ValidationRule(InvalidKeyboardShortcut, Error),
      ValidationRule(LegacyCommandShortcut, Warning),
      ValidationRule(WorkspaceDescriptionTooLong, Warning),
      ValidationRule(DuplicatePatternName, Error),
      ValidationRule(InvalidMainAreaRatio, Error),
      ValidationRule(NegativeGapSize, Error),
      ValidationRule(NegativeWindowMargin, Error),
      ValidationRule(ZeroMaxWindows, Error),
      ValidationRule(HighMaxWindows, Warning),
      ValidationRule(InvalidWindowTitleRegex, Error),
      ValidationRule(NegativeZOrder, Error),
      ValidationRule(NegativeFixedPosition, Error),
      ValidationRule(InvalidFixedSize, Error),
      ValidationRule(DuplicateBundleIdentifier, Error),
      ValidationRule(InvalidBundleIdentifier, Error),
      ValidationRule(EmptyDisplayName, Error),
      ValidationRule(InvalidScaleFactor, Error),
      ValidationRule(UnusualScaleFactor, Warning),
      ValidationRule(MissingTilingPatternReference, Error),
      ValidationRule(MissingWorkspaceReference, Error),
      ValidationRule(MissingApplicationProfileReference, Error),
      ValidationRule(MissingKeyboardTargetReference, Error),
      ValidationRule(SystemReservedShortcut, Warning),
      ValidationRule(HighWorkspaceCount, Info),
      ValidationRule(HighKeyboardMappingCount, Info),
      ValidationRule(HighWindowRuleCount, Info) ]
  }

  /** Where each name sits in `DefaultRules`. */
  function Position(n: RuleName): nat {
    match n
    case DuplicateWorkspaceName => 0
    case DuplicateKeyboardShortcut => 1
    case EmptyWorkspaceName => 2
    case WorkspaceNameTooLong => 3
    case InvalidKeyboardShortcut => 4
    case LegacyCommandShortcut => 5
    case WorkspaceDescriptionTooLong => 6
    case DuplicatePatternName => 7
    case InvalidMainAreaRatio => 8
    case NegativeGapSize => 9
    case NegativeWindowMargin => 10
    case ZeroMaxWindows => 11
    case HighMaxWindows => 12
    case InvalidWindowTitleRegex => 13
    case NegativeZOrder => 14
    case NegativeFixedPosition => 15
    case InvalidFixedSize => 16
    case DuplicateBundleIdentifier => 17
    case InvalidBundleIdentifier => 18
    case EmptyDisplayName => 19
    case InvalidScaleFactor => 20
    case UnusualScaleFactor => 21
    case MissingTilingPatternReference => 22
    case MissingWorkspaceReference => 23
    case MissingApplicationProfileReference => 24
    case MissingKeyboardTargetReference => 25
    case SystemReservedShortcut => 26
    case HighWorkspaceCount => 27
    case HighKeyboardMappingCount => 28
    case HighWindowRuleCount => 29
  }

  const InfoRules: set<RuleName> := {HighWorkspaceCount, HighKeyboardMappingCount, HighWindowRuleCount}

  const WarningRules: set<RuleName> :=
    {LegacyCommandShortcut, WorkspaceDescriptionTooLong, HighMaxWindows, UnusualScaleFactor, SystemReservedShortcut}

  /** The three count rules are informational, five rules are warnings, and every other
      rule is an error. */
  function SeverityOf(n: RuleName): (s: Severity)
    ensures s == Info <==> n in InfoRules
    ensures s == Warning <==> n in WarningRules
  {
    match n
    case HighWorkspaceCount | HighKeyboardMappingCount | HighWindowRuleCount => Info
    case LegacyCommandShortcut | WorkspaceDescriptionTooLong | HighMaxWindows | UnusualScaleFactor
       | SystemReservedShortcut => Warning
    case _ => Error
  }

  /** The rule `get_rule(n).unwrap()` yields, by `GetRuleNeverFails`. */
  function RuleOf(n: RuleName): ValidationRule {
    ValidationRule(n, SeverityOf(n))
  }

  /** Entry `i` of the table sits at the position of its own name and carries the
      severity `SeverityOf` gives that name. */
  predicate EntryConsistent(i: nat)
    requires i < 30
  {
    Position(DefaultRules()[i].name) == i && DefaultRules()[i] == RuleOf(DefaultRules()[i].name)
  }

  lemma EntriesConsistentFrom0()
    ensures forall i :: 0 <= i < 10 ==> EntryConsistent(i)
  {
    forall i | 0 <= i < 10 ensures EntryConsistent(i) {
      if i == 0 {
      } else if i == 1 {
      } else if i == 2 {
      } else if i == 3 {
      } else if i == 4 {
      } else if i == 5 {
      } else if i == 6 {
      } else if i == 7 {
      } else if i == 8 {
      } else {
        assert i == 9;
      }
    }
  }

  lemma EntriesConsistentFrom10()
    ensures forall i :: 10 <= i < 20 ==> EntryConsistent(i)
  {
    forall i | 10 <= i < 20 ensures EntryConsistent(i) {
      if i == 10 {
      } else if i == 11 {
      } else if i == 12 {
      } else if i == 13 {
      } else if i == 14 {
      } else if i == 15 {
      } else if i == 16 {
      } else if i == 17 {
      } else if i == 18 {
      } else {
        assert i == 19;
      }
    }
  }

  lemma EntriesConsistentFrom20()
    ensures forall i :: 20 <= i < 30 ==> EntryConsistent(i)
  {
    forall i | 20 <= i < 30 ensures EntryConsistent(i) {
      if i == 20 {
      } else if i == 21 {
      } else if i == 22 {
      } else if i == 23 {
      } else if i == 24 {
      } else if i == 25 {
      } else if i == 26 {
      } else if i == 27 {
      } else if i == 28 {
      } else {
        assert i == 29;
      }
    }
  }

  /** Every rule name occurs in the table exactly once, with the severity `SeverityOf`
      gives it. */
  lemma DefaultRulesIndexed()
    ensures forall n :: Position(n) < 30 && DefaultRules()[Position(n)] == RuleOf(n)
    ensures forall i :: 0 <= i < 30 ==> Position(DefaultRules()[i].name) == i
  {
    EntriesConsistentFrom0();
    EntriesConsistentFrom10();
    EntriesConsistentFrom20();
    forall n ensures Position(n) < 30 && DefaultRules()[Position(n)] == RuleOf(n) {
      assert EntryConsistent(Position(n));
    }
  }

  /** `get_rule`: the first rule of the table with the given name. */
  function GetRule(n: RuleName): (r: Option<ValidationRule>)
    ensures r.Some? ==> r.value.name == n && r.value in DefaultRules()
  {
    match FirstWhere(DefaultRules(), (rule: ValidationRule) => rule.name == n)
    case None => None
    case Some(i) => Some(DefaultRules()[i])
  }

  /** Every `get_rule(..).unwrap()` of the validator succeeds: the table holds each name
      once, under the severity `SeverityOf` gives it. */
  lemma GetRuleNeverFails(n: RuleName)
    ensures GetRule(n) == Some(RuleOf(n))
    ensures GetRule(n).value == DefaultRules()[Position(n)]
  {
    DefaultRulesIndexed();
    var f := (rule: ValidationRule) => rule.name == n;
    assert f(DefaultRules()[Position(n)]);
    var i := FirstWhere(DefaultRules(), f).value;
    assert Position(DefaultRules()[i].name) == i;
  }

  // ---------------------------------------------------------------------------
  // Results
  // ---------------------------------------------------------------------------

  datatype EntityType =
    | WorkspaceEntity | TilingPatternEntity | WindowRuleEntity | KeyboardMappingEntity
    | ApplicationProfileEntity | MonitorConfigurationEntity | ConfigurationEntity

  datatype ValidationResult = ValidationResult(rule: ValidationRule, entityId: Option<Uuid>, entityType: EntityType)

  /** The finding of rule `n` about one entity. */
  function Issue(n: RuleName, id: Uuid, t: EntityType): ValidationResult {
    ValidationResult(RuleOf(n), Some(id), t)
  }

  /** The findings of the fired rules about one entity, in order. */
  function Tag(names: seq<RuleName>, id: Uuid, t: EntityType): (r: seq<ValidationResult>)
    ensures |r| == |names|
    ensures forall i :: 0 <= i < |names| ==> r[i] == Issue(names[i], id, t)
  {
    seq(|names|, i requires 0 <= i < |names| => Issue(names[i], id, t))
  }

  function If(c: bool, n: RuleName): seq<RuleName> {
    if c then [n] else []
  }

  predicate ErrorFree(rs: seq<ValidationResult>) {
    forall x :: x in rs ==> x.rule.severity != Error
  }

  /** None of the fired rules is an error. */
  predicate Benign(names: seq<RuleName>) {
    forall n :: n in names ==> SeverityOf(n) != Error
  }

  predicate Distinct<T(==)>(s: seq<T>) {
    forall i, j :: 0 <= i < j < |s| ==> s[i] != s[j]
  }

  /** One section of the validator: each entity's fired rules tagged with its id, entity
      after entity, as the `for` loop pushes them. */
  function Section(ids: seq<Uuid>, fired: seq<seq<RuleName>>, t: EntityType): (r: seq<ValidationResult>)
    requires |ids| == |fired|
    ensures forall x :: x in r ==> x.entityType == t && x.entityId.Some? && x.entityId.value in ids
    ensures r == [] <==> forall k :: 0 <= k < |fired| ==> fired[k] == []
  {
    var parts := seq(|ids|, k requires 0 <= k < |ids| => Tag(fired[k], ids[k], t));
    assert forall k :: 0 <= k < |ids| ==> parts[k] == Tag(fired[k], ids[k], t);
    Flatten(parts)
  }

  /** With distinct ids, the findings about entity `k` are exactly the rules fired for it. */
  lemma SectionFindings(ids: seq<Uuid>, fired: seq<seq<RuleName>>, t: EntityType, k: nat, n: RuleName)
    requires |ids| == |fired| && k < |ids| && Distinct(ids)
    ensures Issue(n, ids[k], t) in Section(ids, fired, t) <==> n in fired[k]
  {
    var parts := seq(|ids|, k requires 0 <= k < |ids| => Tag(fired[k], ids[k], t));
    assert forall i :: 0 <= i < |ids| ==> parts[i] == Tag(fired[i], ids[i], t);
    assert Section(ids, fired, t) == Flatten(parts);
    if Issue(n, ids[k], t) in Flatten(parts) {
      FoundWasFired(ids, fired, t, parts, k, n);
    }
    if n in fired[k] {
      var j :| 0 <= j < |fired[k]| && fired[k][j] == n;
      assert parts[k][j] == Issue(n, ids[k], t);
    }
  }

  /** The soundness half of `SectionFindings`: a finding about entity `k` names a rule
      fired for it. */
  lemma FoundWasFired(ids: seq<Uuid>, fired: seq<seq<RuleName>>, t: EntityType,
                      parts: seq<seq<ValidationResult>>, k: nat, n: RuleName)
    requires |ids| == |fired| == |parts| && k < |ids| && Distinct(ids)
    requires forall i :: 0 <= i < |ids| ==> parts[i] == Tag(fired[i], ids[i], t)
    requires Issue(n, ids[k], t) in Flatten(parts)
    ensures n in fired[k]
  {
    var i :| 0 <= i < |parts| && Issue(n, ids[k], t) in parts[i];
    var j :| 0 <= j < |parts[i]| && parts[i][j] == Issue(n, ids[k], t);
    assert ids[i] == ids[k];
    assert parts[i][j].rule.name == fired[i][j];
  }

  /** A section raises no error exactly when no entity fires an error rule. */
  lemma SectionErrorFree(ids: seq<Uuid>, fired: seq<seq<RuleName>>, t: EntityType)
    requires |ids| == |fired|
    ensures ErrorFree(Section(ids, fired, t)) <==> forall k :: 0 <= k < |fired| ==> Benign(fired[k])
  {
    var parts := seq(|ids|, k requires 0 <= k < |ids| => Tag(fired[k], ids[k], t));
    assert forall i :: 0 <= i < |ids| ==> parts[i] == Tag(fired[i], ids[i], t);
    if ErrorFree(Flatten(parts)) {
      forall k, n | 0 <= k < |fired| && n in fired[k] ensures SeverityOf(n) != Error {
        var j :| 0 <= j < |fired[k]| && fired[k][j] == n;
        assert parts[k][j] in Flatten(parts);
      }
    }
  }

  /** Every finding of a section is of one of the rules its entities can fire. */
  lemma SectionRules(ids: seq<Uuid>, fired: seq<seq<RuleName>>, t: EntityType, names: set<RuleName>)
    requires |ids| == |fired|
    requires forall k, n :: 0 <= k < |fired| && n in fired[k] ==> n in names
    ensures forall x :: x in Section(ids, fired, t) ==> x.rule.name in names && x.rule == RuleOf(x.rule.name)
  {
    var parts := seq(|ids|, k requires 0 <= k < |ids| => Tag(fired[k], ids[k], t));
    assert forall i :: 0 <= i < |ids| ==> parts[i] == Tag(fired[i], ids[i], t);
    forall x | x in Flatten(parts) ensures x.rule.name in names && x.rule == RuleOf(x.rule.name) {
      var i :| 0 <= i < |parts| && x in parts[i];
      var j :| 0 <= j < |parts[i]| && parts[i][j] == x;
      assert fired[i][j] in fired[i];
    }
  }

  /** The duplicate checks insert `key -> id` into a `HashMap` entry by entry. Entry `k`
      is reported when the insert hands back an id, the one of the latest earlier entry
      with the same key, and that id is not entry `k`'s own. */
  predicate Displaced<T, K(==)>(s: seq<T>, key: T -> K, id: T -> Uuid, k: nat)
    requires k < |s|
  {
    var j := LastWhere(s[..k], (x: T) => key(x) == key(s[k]));
    j.Some? && id(s[j.value]) != id(s[k])
  }

  predicate UniqueIds<T>(s: seq<T>, id: T -> Uuid) {
    forall i, j :: 0 <= i < j < |s| ==> id(s[i]) != id(s[j])
  }

  /** With distinct ids, an entry is reported exactly when an earlier entry has its key. */
  lemma DisplacedIff<T, K>(s: seq<T>, key: T -> K, id: T -> Uuid, k: nat)
    requires k < |s| && UniqueIds(s, id)
    ensures Displaced(s, key, id, k) <==> exists j :: 0 <= j < k && key(s[j]) == key(s[k])
  {
    var f := (x: T) => key(x) == key(s[k]);
    if exists j :: 0 <= j < k && key(s[j]) == key(s[k]) {
      var j :| 0 <= j < k && key(s[j]) == key(s[k]);
      assert f(s[..k][j]);
    }
  }

  /** An entry listed twice in a row under the same id is not a duplicate of itself. */
  lemma RepeatIsNotDisplaced<T, K>(s: seq<T>, key: T -> K, id: T -> Uuid, k: nat)
    requires 0 < k < |s| && s[k - 1] == s[k]
    ensures !Displaced(s, key, id, k)
  {
    var f := (x: T) => key(x) == key(s[k]);
    assert f(s[..k][k - 1]);
  }

  // ---------------------------------------------------------------------------
  // Workspaces
  // ---------------------------------------------------------------------------

  function WorkspaceName(w: WS.Workspace): string { w.name }
  function WorkspaceShortcut(w: WS.Workspace): string { w.keyboardShortcut }
  function WorkspaceId(w: WS.Workspace): Uuid { w.id }

  function WorkspaceIds(ws: seq<WS.Workspace>): (ids: seq<Uuid>)
    ensures |ids| == |ws| && forall k :: 0 <= k < |ws| ==> ids[k] == ws[k].id
  {
    seq(|ws|, k requires 0 <= k < |ws| => ws[k].id)
  }

  /** The workspace checks, in the order the loop makes them. */
  const WorkspaceChecks: seq<RuleName> := [
    DuplicateWorkspaceName, DuplicateKeyboardShortcut, EmptyWorkspaceName, WorkspaceNameTooLong,
    InvalidKeyboardShortcut, LegacyCommandShortcut, WorkspaceDescriptionTooLong]

  /** Whether check `n` fires for workspace `k`. */
  predicate WorkspaceFires(ws: seq<WS.Workspace>, k: nat, n: RuleName)
    requires k < |ws|
  {
    var w := ws[k];
    match n
    case DuplicateWorkspaceName => Displaced(ws, WorkspaceName, WorkspaceId, k)
    case DuplicateKeyboardShortcut => Displaced(ws, WorkspaceShortcut, WorkspaceId, k)
    case EmptyWorkspaceName => |w.name| == 0
    case WorkspaceNameTooLong => Utf8Len(w.name) > 100
    case InvalidKeyboardShortcut => !CP.ShortcutFormatOk(w.keyboardShortcut)
    case LegacyCommandShortcut => Contains(w.keyboardShortcut, CP.LeadingCommand)
    case WorkspaceDescriptionTooLong => Utf8Len(w.description.GetOr("")) > 500
    case _ => false
  }

  /** The rules workspace `k` fires, in the order they are checked. */
  function WorkspaceFired(ws: seq<WS.Workspace>, k: nat): (fired: seq<RuleName>)
    requires k < |ws|
    ensures forall n :: n in fired <==> n in WorkspaceChecks && WorkspaceFires(ws, k, n)
  {
    Filter(WorkspaceChecks, (n: RuleName) => WorkspaceFires(ws, k, n))
  }

  function WorkspacesFired(ws: seq<WS.Workspace>): (fired: seq<seq<RuleName>>)
    ensures |fired| == |ws| && forall k :: 0 <= k < |ws| ==> fired[k] == WorkspaceFired(ws, k)
  {
    seq(|ws|, k requires 0 <= k < |ws| => WorkspaceFired(ws, k))
  }

  /** `validate_workspaces`. */
  function ValidateWorkspaces(ws: seq<WS.Workspace>): (r: seq<ValidationResult>)
    ensures forall x :: x in r ==> x.entityType == WorkspaceEntity && x.entityId.Some? && x.rule.name in WorkspaceChecks
  {
    SectionRules(WorkspaceIds(ws), WorkspacesFired(ws), WorkspaceEntity, set n | n in WorkspaceChecks);
    Section(WorkspaceIds(ws), WorkspacesFired(ws), WorkspaceEntity)
  }

  /** With distinct ids, the section reports rule `n` about workspace `k` exactly when
      that check fires for it. */
  lemma WorkspaceReported(ws: seq<WS.Workspace>, k: nat)
    requires k < |ws| && UniqueIds(ws, WorkspaceId)
    ensures forall n :: Issue(n, ws[k].id, WorkspaceEntity) in ValidateWorkspaces(ws)
                        <==> n in WorkspaceChecks && WorkspaceFires(ws, k, n)
  {
    forall n ensures Issue(n, ws[k].id, WorkspaceEntity) in ValidateWorkspaces(ws)
                     <==> n in WorkspaceChecks && WorkspaceFires(ws, k, n) {
      SectionFindings(WorkspaceIds(ws), WorkspacesFired(ws), WorkspaceEntity, k, n);
    }
  }

  /** Each workspace check in terms of the workspace list. */
  lemma WorkspaceFiresIff(ws: seq<WS.Workspace>, k: nat)
    requires k < |ws| && UniqueIds(ws, WorkspaceId)
    ensures var w := ws[k];
            && (WorkspaceFires(ws, k, DuplicateWorkspaceName) <==> exists j :: 0 <= j < k && ws[j].name == w.name)
            && (WorkspaceFires(ws, k, DuplicateKeyboardShortcut)
                <==> exists j :: 0 <= j < k && ws[j].keyboardShortcut == w.keyboardShortcut)
            && (WorkspaceFires(ws, k, EmptyWorkspaceName) <==> |w.name| == 0)
            && (WorkspaceFires(ws, k, WorkspaceNameTooLong) <==> Utf8Len(w.name) > 100)
            && (WorkspaceFires(ws, k, InvalidKeyboardShortcut) <==> !CP.ShortcutFormatOk(w.keyboardShortcut))
            && (WorkspaceFires(ws, k, LegacyCommandShortcut) <==> Contains(w.keyboardShortcut, CP.LeadingCommand))
            && (WorkspaceFires(ws, k, WorkspaceDescriptionTooLong)
                <==> w.description.Some? && Utf8Len(w.description.value) > 500)
  {
    WorkspaceDuplicatesIff(ws, k);
    assert Utf8Len("") == 0;
  }

  /** The two duplicate checks: an earlier workspace holds the same name or shortcut. */
  lemma WorkspaceDuplicatesIff(ws: seq<WS.Workspace>, k: nat)
    requires k < |ws| && UniqueIds(ws, WorkspaceId)
    ensures WorkspaceFires(ws, k, DuplicateWorkspaceName) <==> exists j :: 0 <= j < k && ws[j].name == ws[k].name
    ensures WorkspaceFires(ws, k, DuplicateKeyboardShortcut)
            <==> exists j :: 0 <= j < k && ws[j].keyboardShortcut == ws[k].keyboardShortcut
  {
    DisplacedIff(ws, WorkspaceName, WorkspaceId, k);
    DisplacedIff(ws, WorkspaceShortcut, WorkspaceId, k);
  }

  /** What the workspace section reports about workspace `k`, rule by rule. */
  lemma WorkspaceFindings(ws: seq<WS.Workspace>, k: nat)
    requires k < |ws| && UniqueIds(ws, WorkspaceId)
    ensures var r, w := ValidateWorkspaces(ws), ws[k];
            && (Issue(DuplicateWorkspaceName, w.id, WorkspaceEntity) in r
                <==> exists j :: 0 <= j < k && ws[j].name == w.name)
            && (Issue(DuplicateKeyboardShortcut, w.id, WorkspaceEntity) in r
                <==> exists j :: 0 <= j < k && ws[j].keyboardShortcut == w.keyboardShortcut)
            && (Issue(EmptyWorkspaceName, w.id, WorkspaceEntity) in r <==> |w.name| == 0)
            && (Issue(WorkspaceNameTooLong, w.id, WorkspaceEntity) in r <==> Utf8Len(w.name) > 100)
            && (Issue(InvalidKeyboardShortcut, w.id, WorkspaceEntity) in r <==> !CP.ShortcutFormatOk(w.keyboardShortcut))
            && (Issue(LegacyCommandShortcut, w.id, WorkspaceEntity) in r <==> Contains(w.keyboardShortcut, CP.LeadingCommand))
            && (Issue(WorkspaceDescriptionTooLong, w.id, WorkspaceEntity) in r
                <==> w.description.Some? && Utf8Len(w.description.value) > 500)
  {
    WorkspaceReported(ws, k);
    WorkspaceFiresIff(ws, k);
  }

  /** The conditions under which the workspace section raises no error. */
  predicate WorkspacesSound(ws: seq<WS.Workspace>) {
    && (forall i, j :: 0 <= i < j < |ws| ==> ws[i].name != ws[j].name && ws[i].keyboardShortcut != ws[j].keyboardShortcut)
    && (forall i :: 0 <= i < |ws| ==>
          |ws[i].name| > 0 && Utf8Len(ws[i].name) <= 100 && CP.ShortcutFormatOk(ws[i].keyboardShortcut))
  }

  /** Of the workspace checks, only the legacy-shortcut and description-length ones are
      not errors. */
  lemma WorkspaceBenignChecks(ws: seq<WS.Workspace>, k: nat)
    requires k < |ws|
    ensures Benign(WorkspaceFired(ws, k)) <==>
              && !WorkspaceFires(ws, k, DuplicateWorkspaceName) && !WorkspaceFires(ws, k, DuplicateKeyboardShortcut)
              && !WorkspaceFires(ws, k, EmptyWorkspaceName) && !WorkspaceFires(ws, k, WorkspaceNameTooLong)
              && !WorkspaceFires(ws, k, InvalidKeyboardShortcut)
  {
    var fired := WorkspaceFired(ws, k);
    if !Benign(fired) {
      var n :| n in fired && SeverityOf(n) == Error;
    }
  }

  /** Workspace `k` raises no error: its name and shortcut are new, and both are well-formed. */
  predicate WorkspaceSoundAt(ws: seq<WS.Workspace>, k: nat)
    requires k < |ws|
  {
    && (forall j :: 0 <= j < k ==> ws[j].name != ws[k].name && ws[j].keyboardShortcut != ws[k].keyboardShortcut)
    && |ws[k].name| > 0 && Utf8Len(ws[k].name) <= 100 && CP.ShortcutFormatOk(ws[k].keyboardShortcut)
  }

  lemma WorkspaceBenign(ws: seq<WS.Workspace>, k: nat)
    requires k < |ws| && UniqueIds(ws, WorkspaceId)
    ensures Benign(WorkspaceFired(ws, k)) <==> WorkspaceSoundAt(ws, k)
  {
    WorkspaceBenignChecks(ws, k);
    WorkspaceFiresIff(ws, k);
  }

  lemma WorkspacesSoundAtEach(ws: seq<WS.Workspace>)
    ensures WorkspacesSound(ws) <==> forall k :: 0 <= k < |ws| ==> WorkspaceSoundAt(ws, k)
  {
    if forall k :: 0 <= k < |ws| ==> WorkspaceSoundAt(ws, k) {
      forall i, j | 0 <= i < j < |ws|
        ensures ws[i].name != ws[j].name && ws[i].keyboardShortcut != ws[j].keyboardShortcut
      {
        assert WorkspaceSoundAt(ws, j);
      }
      forall i | 0 <= i < |ws|
        ensures |ws[i].name| > 0 && Utf8Len(ws[i].name) <= 100 && CP.ShortcutFormatOk(ws[i].keyboardShortcut)
      {
        assert WorkspaceSoundAt(ws, i);
      }
    }
    if WorkspacesSound(ws) {
      forall k | 0 <= k < |ws| ensures WorkspaceSoundAt(ws, k) {
        assert forall j :: 0 <= j < k ==> ws[j].name != ws[k].name && ws[j].keyboardShortcut != ws[k].keyboardShortcut;
      }
    }
  }

  /** The workspace section is error-free exactly when names and shortcuts are unique and
      every name and shortcut is well-formed. */
  lemma WorkspacesErrorFreeIff(ws: seq<WS.Workspace>)
    requires UniqueIds(ws, WorkspaceId)
    ensures ErrorFree(ValidateWorkspaces(ws)) <==> WorkspacesSound(ws)
  {
    var fired := WorkspacesFired(ws);
    SectionErrorFree(WorkspaceIds(ws), fired, WorkspaceEntity);
    forall k | 0 <= k < |ws| ensures Benign(fired[k]) <==> WorkspaceSoundAt(ws, k) {
      WorkspaceBenign(ws, k);
    }
    WorkspacesSoundAtEach(ws);
  }

  // ---------------------------------------------------------------------------
  // Tiling patterns
  // ---------------------------------------------------------------------------

  function PatternName(p: TP.TilingPattern): string { p.name }
  function PatternId(p: TP.TilingPattern): Uuid { p.id }

  function PatternIds(ps: seq<TP.TilingPattern>): (ids: seq<Uuid>)
    ensures |ids| == |ps| && forall k :: 0 <= k < |ps| ==> ids[k] == ps[k].id
  {
    seq(|ps|, k requires 0 <= k < |ps| => ps[k].id)
  }

  function PatternFired(ps: seq<TP.TilingPattern>, k: nat): seq<RuleName>
    requires k < |ps|
  {
    var p := ps[k];
    If(Displaced(ps, PatternName, PatternId, k), DuplicatePatternName)
    + If(p.mainAreaRatio < 0.1 || p.mainAreaRatio > 0.9, InvalidMainAreaRatio)
    + If(p.maxWindows == 0, ZeroMaxWindows)
    + If(p.maxWindows > 50, HighMaxWindows)
  }

  function PatternsFired(ps: seq<TP.TilingPattern>): (fired: seq<seq<RuleName>>)
    ensures |fired| == |ps| && forall k :: 0 <= k < |ps| ==> fired[k] == PatternFired(ps, k)
  {
    seq(|ps|, k requires 0 <= k < |ps| => PatternFired(ps, k))
  }

  /** `validate_tiling_patterns`. The negative gap and margin rules are never raised:
      both fields are unsigned. */
  function ValidatePatterns(ps: seq<TP.TilingPattern>): (r: seq<ValidationResult>)
    ensures forall x :: x in r ==> x.entityType == TilingPatternEntity
                                   && x.rule.name in {DuplicatePatternName, InvalidMainAreaRatio, ZeroMaxWindows, HighMaxWindows}
  {
    SectionRules(PatternIds(ps), PatternsFired(ps), TilingPatternEntity,
                 {DuplicatePatternName, InvalidMainAreaRatio, ZeroMaxWindows, HighMaxWindows});
    Section(PatternIds(ps), PatternsFired(ps), TilingPatternEntity)
  }

  lemma PatternBenign(ps: seq<TP.TilingPattern>, k: nat)
    requires k < |ps| && UniqueIds(ps, PatternId)
    ensures Benign(PatternFired(ps, k)) <==>
              && (forall j :: 0 <= j < k ==> ps[j].name != ps[k].name)
              && TP.RatioInRange(ps[k].mainAreaRatio) && ps[k].maxWindows > 0
  {
    DisplacedIff(ps, PatternName, PatternId, k);
    var fired := PatternFired(ps, k);
    if Benign(fired) {
      assert DuplicatePatternName !in fired && InvalidMainAreaRatio !in fired && ZeroMaxWindows !in fired;
    }
  }

  /** The pattern section is error-free exactly when names are unique and every pattern
      would pass `TilingPattern::validate`'s ratio and window-limit checks. */
  lemma PatternsErrorFreeIff(ps: seq<TP.TilingPattern>)
    requires UniqueIds(ps, PatternId)
    ensures ErrorFree(ValidatePatterns(ps)) <==>
              && (forall i, j :: 0 <= i < j < |ps| ==> ps[i].name != ps[j].name)
              && (forall i :: 0 <= i < |ps| ==> TP.RatioInRange(ps[i].mainAreaRatio) && ps[i].maxWindows > 0)
  {
    SectionErrorFree(PatternIds(ps), PatternsFired(ps), TilingPatternEntity);
    forall k | 0 <= k < |ps| ensures Benign(PatternFired(ps, k)) <==>
              && (forall j :: 0 <= j < k ==> ps[j].name != ps[k].name)
              && TP.RatioInRange(ps[k].mainAreaRatio) && ps[k].maxWindows > 0
    {
      PatternBenign(ps, k);
    }
  }

  /** Patterns that pass `TilingPattern::validate`, under distinct names, raise no error. */
  lemma ValidPatternsAreErrorFree(ps: seq<TP.TilingPattern>)
    requires UniqueIds(ps, PatternId)
    requires forall i, j :: 0 <= i < j < |ps| ==> ps[i].name != ps[j].name
    requires forall i :: 0 <= i < |ps| ==> TP.Validate(ps[i]).Pass?
    ensures ErrorFree(ValidatePatterns(ps))
  {
    PatternsErrorFreeIff(ps);
  }

  /** A window limit above fifty is only a warning. */
  lemma HighLimitIsWarning(ps: seq<TP.TilingPattern>, k: nat)
    requires k < |ps| && UniqueIds(ps, PatternId)
    ensures Issue(HighMaxWindows, ps[k].id, TilingPatternEntity) in ValidatePatterns(ps) <==> ps[k].maxWindows > 50
    ensures RuleOf(HighMaxWindows).severity == Warning
  {
    PatternIdsDistinct(ps);
    SectionFindings(PatternIds(ps), PatternsFired(ps), TilingPatternEntity, k, HighMaxWindows);
    HighLimitFired(ps, k);
  }

  lemma PatternIdsDistinct(ps: seq<TP.TilingPattern>)
    requires UniqueIds(ps, PatternId)
    ensures Distinct(PatternIds(ps))
  {
    forall i, j | 0 <= i < j < |ps| ensures PatternIds(ps)[i] != PatternIds(ps)[j] {
      assert PatternId(ps[i]) != PatternId(ps[j]);
    }
  }

  /** The high-limit rule fires for a pattern exactly when its limit exceeds fifty. */
  lemma HighLimitFired(ps: seq<TP.TilingPattern>, k: nat)
    requires k < |ps|
    ensures HighMaxWindows in PatternsFired(ps)[k] <==> ps[k].maxWindows > 50
  {
    var p := ps[k];
    var front := If(Displaced(ps, PatternName, PatternId, k), DuplicatePatternName)
                 + If(p.mainAreaRatio < 0.1 || p.mainAreaRatio > 0.9, InvalidMainAreaRatio)
                 + If(p.maxWindows == 0, ZeroMaxWindows);
    assert HighMaxWindows !in front;
    assert PatternsFired(ps)[k] == front + If(p.maxWindows > 50, HighMaxWindows);
  }

  // ---------------------------------------------------------------------------
  // Window rules
  // ---------------------------------------------------------------------------

  function WindowRuleIds(rules: seq<WR.WindowRule>): (ids: seq<Uuid>)
    ensures |ids| == |rules| && forall k :: 0 <= k < |rules| ==> ids[k] == rules[k].id
  {
    seq(|rules|, k requires 0 <= k < |rules| => rules[k].id)
  }

  function WindowRuleFired(rule: WR.WindowRule, regexValid: string -> bool): seq<RuleName> {
    If(rule.windowTitlePattern.Some? && !regexValid(rule.windowTitlePattern.value), InvalidWindowTitleRegex)
    + If(rule.fixedGeometry.Some? && (rule.fixedGeometry.value.width == 0 || rule.fixedGeometry.value.height == 0),
         InvalidFixedSize)
  }

  function WindowRulesFired(rules: seq<WR.WindowRule>, regexValid: string -> bool): (fired: seq<seq<RuleName>>)
    ensures |fired| == |rules| && forall k :: 0 <= k < |rules| ==> fired[k] == WindowRuleFired(rules[k], regexValid)
  {
    seq(|rules|, k requires 0 <= k < |rules| => WindowRuleFired(rules[k], regexValid))
  }

  /** `validate_window_rules`: every finding is an error. The z-order and fixed-position
      rules are never raised: neither field is checked. */
  function ValidateWindowRules(rules: seq<WR.WindowRule>, regexValid: string -> bool): (r: seq<ValidationResult>)
    ensures forall x :: x in r ==> x.entityType == WindowRuleEntity && x.rule.severity == Error
                                   && x.rule.name in {InvalidWindowTitleRegex, InvalidFixedSize}
  {
    SectionRules(WindowRuleIds(rules), WindowRulesFired(rules, regexValid), WindowRuleEntity,
                 {InvalidWindowTitleRegex, InvalidFixedSize});
    WindowRuleErrors();
    Section(WindowRuleIds(rules), WindowRulesFired(rules, regexValid), WindowRuleEntity)
  }

  lemma WindowRuleErrors()
    ensures forall n :: n in {InvalidWindowTitleRegex, InvalidFixedSize} ==> RuleOf(n).severity == Error
  {
    assert SeverityOf(InvalidWindowTitleRegex) == Error;
    assert SeverityOf(InvalidFixedSize) == Error;
  }

  /** A rule set is reported clean exactly when every title pattern compiles and every
      fixed geometry has positive sides. */
  lemma WindowRulesEmptyIff(rules: seq<WR.WindowRule>, regexValid: string -> bool)
    ensures ValidateWindowRules(rules, regexValid) == [] <==>
              forall i :: 0 <= i < |rules| ==>
                && (rules[i].windowTitlePattern.Some? ==> regexValid(rules[i].windowTitlePattern.value))
                && (rules[i].fixedGeometry.Some? ==>
                      rules[i].fixedGeometry.value.width > 0 && rules[i].fixedGeometry.value.height > 0)
  {
  }

  /** Rules that pass `WindowRule::validate` raise nothing here. */
  lemma ValidWindowRulesRaiseNothing(rules: seq<WR.WindowRule>, regexValid: string -> bool)
    requires forall i :: 0 <= i < |rules| ==> WR.Validate(rules[i], regexValid).Pass?
    ensures ValidateWindowRules(rules, regexValid) == []
  {
    WindowRulesEmptyIff(rules, regexValid);
  }

  // ---------------------------------------------------------------------------
  // Keyboard mappings
  // ---------------------------------------------------------------------------

  const ReservedShortcuts: seq<string> := [
    "cmd+space", "cmd+tab", "cmd+q", "cmd+w", "cmd+a", "cmd+s", "cmd+d", "cmd+f", "cmd+z", "cmd+x",
    "cmd+c", "cmd+v", "cmd+shift+z", "cmd+shift+4", "cmd+shift+3", "ctrl+space", "ctrl+up",
    "ctrl+down", "ctrl+left", "ctrl+right"]

  /** `is_system_reserved_shortcut`: the lower-cased signature is on the reserved list. */
  function IsSystemReserved(sig: string): (r: bool)
    ensures r ==> StartsWith(ToLower(sig), "cmd+") || StartsWith(ToLower(sig), "ctrl+")
    ensures r ==> 5 <= |sig| <= 12
  {
    ReservedModifiers();
    ToLower(sig) in ReservedShortcuts
  }

  /** Every reserved shortcut is a command or control chord of five to twelve characters. */
  lemma ReservedModifiers()
    ensures forall k :: 0 <= k < |ReservedShortcuts| ==>
              && (StartsWith(ReservedShortcuts[k], "cmd+") || StartsWith(ReservedShortcuts[k], "ctrl+"))
              && 5 <= |ReservedShortcuts[k]| <= 12
  {
    forall k | 0 <= k < |ReservedShortcuts|
      ensures StartsWith(ReservedShortcuts[k], "cmd+") || StartsWith(ReservedShortcuts[k], "ctrl+")
    {
      var w := ReservedShortcuts[k];
      if k < 15 {
        assert w[..4] == "cmd+";
      } else {
        assert w[..5] == "ctrl+";
      }
    }
  }

  /** The check ignores ASCII case. */
  lemma ReservedIgnoresCase(sig: string)
    ensures IsSystemReserved(ToLower(sig)) <==> IsSystemReserved(sig)
  {
    ToLowerIdempotent(sig);
  }

  lemma ExampleReserved(a: string, b: string, c: string)
    requires a == "cmd+space" && b == "CMD+Tab" && c == "opt+1"
    ensures IsSystemReserved(a) && IsSystemReserved(b) && !IsSystemReserved(c)
  {
    LowersTo(a, ReservedShortcuts[0]);
    LowersTo(b, ReservedShortcuts[1]);
    assert ToLower(c)[0] == 'o';
    forall i | 0 <= i < |ReservedShortcuts| ensures ReservedShortcuts[i][0] != 'o' { }
  }

  /** Lower-casing character by character gives `lowered`. */
  lemma LowersTo(s: string, lowered: string)
    requires |s| == |lowered| && forall i :: 0 <= i < |s| ==> ToLowerChar(s[i]) == lowered[i]
    ensures ToLower(s) == lowered
  {
  }

  function MappingId(m: KM.KeyboardMapping): Uuid { m.id }

  function SignatureKey(signature: KM.ShortcutCombination -> string): KM.KeyboardMapping -> string {
    (m: KM.KeyboardMapping) => signature(m.combination)
  }

  function MappingIds(ms: seq<KM.KeyboardMapping>): (ids: seq<Uuid>)
    ensures |ids| == |ms| && forall k :: 0 <= k < |ms| ==> ids[k] == ms[k].id
  {
    seq(|ms|, k requires 0 <= k < |ms| => ms[k].id)
  }

  /** The mapping checks, in the order the loop makes them. */
  const MappingChecks: seq<RuleName> := [
    DuplicateKeyboardShortcut, InvalidKeyboardShortcut, LegacyCommandShortcut, SystemReservedShortcut]

  /** Whether check `n` fires for mapping `k`. A shortcut `validate` rejects is reported
      once, and only a shortcut it accepts is held against the format. */
  predicate MappingFires(ms: seq<KM.KeyboardMapping>, k: nat, signature: KM.ShortcutCombination -> string, n: RuleName)
    requires k < |ms|
  {
    var c := ms[k].combination;
    match n
    case DuplicateKeyboardShortcut => Displaced(ms, SignatureKey(signature), MappingId, k)
    case InvalidKeyboardShortcut => KM.ValidateCombination(c).Fail? || !CP.ShortcutFormatOk(signature(c))
    case LegacyCommandShortcut => KM.Command in c.modifiers && KM.Option !in c.modifiers
    case SystemReservedShortcut => IsSystemReserved(signature(c))
    case _ => false
  }

  /** The rules mapping `k` fires, in the order they are checked. */
  function MappingFired(ms: seq<KM.KeyboardMapping>, k: nat, signature: KM.ShortcutCombination -> string)
    : (fired: seq<RuleName>)
    requires k < |ms|
    ensures forall n :: n in fired <==> n in MappingChecks && MappingFires(ms, k, signature, n)
  {
    Filter(MappingChecks, (n: RuleName) => MappingFires(ms, k, signature, n))
  }

  function MappingsFired(ms: seq<KM.KeyboardMapping>, signature: KM.ShortcutCombination -> string)
    : (fired: seq<seq<RuleName>>)
    ensures |fired| == |ms| && forall k :: 0 <= k < |ms| ==> fired[k] == MappingFired(ms, k, signature)
  {
    seq(|ms|, k requires 0 <= k < |ms| => MappingFired(ms, k, signature))
  }

  /** `validate_keyboard_mappings`. */
  function ValidateKeyboardMappings(ms: seq<KM.KeyboardMapping>, signature: KM.ShortcutCombination -> string)
    : (r: seq<ValidationResult>)
    ensures forall x :: x in r ==> x.entityType == KeyboardMappingEntity && x.rule.name in MappingChecks
  {
    SectionRules(MappingIds(ms), MappingsFired(ms, signature), KeyboardMappingEntity, set n | n in MappingChecks);
    Section(MappingIds(ms), MappingsFired(ms, signature), KeyboardMappingEntity)
  }

  /** With distinct ids, the section reports rule `n` about mapping `k` exactly when that
      check fires for it. */
  lemma MappingReported(ms: seq<KM.KeyboardMapping>, k: nat, signature: KM.ShortcutCombination -> string)
    requires k < |ms| && UniqueIds(ms, MappingId)
    ensures forall n :: Issue(n, ms[k].id, KeyboardMappingEntity) in ValidateKeyboardMappings(ms, signature)
                        <==> n in MappingChecks && MappingFires(ms, k, signature, n)
  {
    forall n ensures Issue(n, ms[k].id, KeyboardMappingEntity) in ValidateKeyboardMappings(ms, signature)
                     <==> n in MappingChecks && MappingFires(ms, k, signature, n) {
      SectionFindings(MappingIds(ms), MappingsFired(ms, signature), KeyboardMappingEntity, k, n);
    }
  }

  /** Each mapping check in terms of the mapping list. */
  lemma MappingFiresIff(ms: seq<KM.KeyboardMapping>, k: nat, signature: KM.ShortcutCombination -> string)
    requires k < |ms| && UniqueIds(ms, MappingId)
    ensures var c := ms[k].combination;
            && (MappingFires(ms, k, signature, DuplicateKeyboardShortcut)
                <==> exists j :: 0 <= j < k && signature(ms[j].combination) == signature(c))
            && (MappingFires(ms, k, signature, InvalidKeyboardShortcut)
                <==> KM.ValidateCombination(c).Fail? || !CP.ShortcutFormatOk(signature(c)))
            && (MappingFires(ms, k, signature, LegacyCommandShortcut)
                <==> KM.Command in c.modifiers && KM.Option !in c.modifiers)
            && (MappingFires(ms, k, signature, SystemReservedShortcut) <==> IsSystemReserved(signature(c)))
  {
    DisplacedIff(ms, SignatureKey(signature), MappingId, k);
  }

  /** What the mapping section reports about mapping `k`, rule by rule. */
  lemma MappingFindings(ms: seq<KM.KeyboardMapping>, k: nat, signature: KM.ShortcutCombination -> string)
    requires k < |ms| && UniqueIds(ms, MappingId)
    ensures var r, m := ValidateKeyboardMappings(ms, signature), ms[k];
            && (Issue(DuplicateKeyboardShortcut, m.id, KeyboardMappingEntity) in r
                <==> exists j :: 0 <= j < k && signature(ms[j].combination) == signature(m.combination))
            && (Issue(InvalidKeyboardShortcut, m.id, KeyboardMappingEntity) in r
                <==> KM.ValidateCombination(m.combination).Fail? || !CP.ShortcutFormatOk(signature(m.combination)))
            && (Issue(LegacyCommandShortcut, m.id, KeyboardMappingEntity) in r
                <==> KM.Command in m.combination.modifiers && KM.Option !in m.combination.modifiers)
            && (Issue(SystemReservedShortcut, m.id, KeyboardMappingEntity) in r <==> IsSystemReserved(signature(m.combination)))
  {
    MappingReported(ms, k, signature);
    MappingFiresIff(ms, k, signature);
  }

  /** A mapping that also holds Option draws no legacy warning. */
  lemma OptionShortcutsAreNotLegacy(ms: seq<KM.KeyboardMapping>, k: nat, signature: KM.ShortcutCombination -> string)
    requires k < |ms| && UniqueIds(ms, MappingId) && KM.Option in ms[k].combination.modifiers
    ensures Issue(LegacyCommandShortcut, ms[k].id, KeyboardMappingEntity) !in ValidateKeyboardMappings(ms, signature)
  {
    MappingFindings(ms, k, signature);
  }

  // ---------------------------------------------------------------------------
  // Application profiles
  // ---------------------------------------------------------------------------

  predicate IsBundleSeparator(c: char) { c == '.' || c == '-' }

  /** The automaton of `^[a-zA-Z0-9]+([\.-][a-zA-Z0-9]+)*$`. `expectAlnum` holds at the
      start and right after a separator, where only a letter or digit may follow. */
  predicate BundleScan(s: string, expectAlnum: bool)
    decreases |s|
  {
    if |s| == 0 then !expectAlnum
    else if IsAsciiAlphanumeric(s[0]) then BundleScan(s[1..], false)
    else if IsBundleSeparator(s[0]) && !expectAlnum then BundleScan(s[1..], true)
    else false
  }

  predicate BundleIdMatches(s: string) {
    BundleScan(s, true)
  }

  /** The same language stated character by character: letters, digits, dots and
      dashes only, a letter or digit at both ends and no two separators together. */
  predicate BundleIdWellFormed(s: string) {
    && |s| > 0
    && IsAsciiAlphanumeric(s[0]) && IsAsciiAlphanumeric(s[|s| - 1])
    && (forall i :: 0 <= i < |s| ==> IsAsciiAlphanumeric(s[i]) || IsBundleSeparator(s[i]))
    && (forall i :: 0 <= i < |s| - 1 ==> !(IsBundleSeparator(s[i]) && IsBundleSeparator(s[i + 1])))
  }

  predicate ScanInvariant(s: string, expectAlnum: bool) {
    && (expectAlnum ==> |s| > 0 && IsAsciiAlphanumeric(s[0]))
    && (|s| > 0 ==> IsAsciiAlphanumeric(s[|s| - 1]))
    && (forall i :: 0 <= i < |s| ==> IsAsciiAlphanumeric(s[i]) || IsBundleSeparator(s[i]))
    && (forall i :: 0 <= i < |s| - 1 ==> !(IsBundleSeparator(s[i]) && IsBundleSeparator(s[i + 1])))
  }

  lemma {:induction false} BundleScanIff(s: string, expectAlnum: bool)
    ensures BundleScan(s, expectAlnum) <==> ScanInvariant(s, expectAlnum)
    decreases |s|
  {
    if |s| > 0 {
      var t := s[1..];
      assert forall i :: 1 <= i < |s| ==> s[i] == t[i - 1];
      if IsAsciiAlphanumeric(s[0]) {
        BundleScanIff(t, false);
        if ScanInvariant(t, false) {
          assert ScanInvariant(s, expectAlnum);
        }
      } else if IsBundleSeparator(s[0]) && !expectAlnum {
        BundleScanIff(t, true);
        if ScanInvariant(s, expectAlnum) {
          assert |s| > 1;
          assert !IsBundleSeparator(s[1]);
        }
        if ScanInvariant(t, true) {
          assert ScanInvariant(s, expectAlnum);
        }
      }
    }
  }

  /** The automaton accepts exactly the well-formed bundle identifiers. */
  lemma BundleIdMatchesIff(s: string)
    ensures BundleIdMatches(s) <==> BundleIdWellFormed(s)
  {
    BundleScanIff(s, true);
  }

  lemma ExampleBundleIds(good: string, doubled: string, trailing: string)
    requires good == "com.apple.Safari" && doubled == "com..app" && trailing == "com.app-"
    ensures BundleIdMatches(good) && !BundleIdMatches(doubled) && !BundleIdMatches(trailing)
  {
    BundleIdMatchesIff(good);
    BundleIdMatchesIff(doubled);
    BundleIdMatchesIff(trailing);
    assert IsBundleSeparator(doubled[3]) && IsBundleSeparator(doubled[4]);
    assert !IsAsciiAlphanumeric(trailing[|trailing| - 1]);
  }

  function ProfileBundle(p: AP.ApplicationProfile): string { p.bundleIdentifier }
  function ProfileId(p: AP.ApplicationProfile): Uuid { p.id }

  function ProfileIds(ps: seq<AP.ApplicationProfile>): (ids: seq<Uuid>)
    ensures |ids| == |ps| && forall k :: 0 <= k < |ps| ==> ids[k] == ps[k].id
  {
    seq(|ps|, k requires 0 <= k < |ps| => ps[k].id)
  }

  function ProfileFired(ps: seq<AP.ApplicationProfile>, k: nat): seq<RuleName>
    requires k < |ps|
  {
    var p := ps[k];
    If(Displaced(ps, ProfileBundle, ProfileId, k), DuplicateBundleIdentifier)
    + If(!BundleIdMatches(p.bundleIdentifier), InvalidBundleIdentifier)
    + If(|p.displayName| == 0, EmptyDisplayName)
  }

  function ProfilesFired(ps: seq<AP.ApplicationProfile>): (fired: seq<seq<RuleName>>)
    ensures |fired| == |ps| && forall k :: 0 <= k < |ps| ==> fired[k] == ProfileFired(ps, k)
  {
    seq(|ps|, k requires 0 <= k < |ps| => ProfileFired(ps, k))
  }

  /** `validate_application_profiles`: every finding is an error. */
  function ValidateProfiles(ps: seq<AP.ApplicationProfile>): (r: seq<ValidationResult>)
    ensures forall x :: x in r ==> x.entityType == ApplicationProfileEntity && x.rule.severity == Error
  {
    SectionRules(ProfileIds(ps), ProfilesFired(ps), ApplicationProfileEntity,
                 {DuplicateBundleIdentifier, InvalidBundleIdentifier, EmptyDisplayName});
    Section(ProfileIds(ps), ProfilesFired(ps), ApplicationProfileEntity)
  }

  /** The profile section is silent exactly when bundle identifiers are distinct (the
      profile set's own invariant) and well-formed, and no display name is empty. */
  lemma ProfilesEmptyIff(ps: seq<AP.ApplicationProfile>)
    requires UniqueIds(ps, ProfileId)
    ensures ValidateProfiles(ps) == [] <==>
              && AP.DistinctBundles(ps)
              && forall i :: 0 <= i < |ps| ==> BundleIdWellFormed(ps[i].bundleIdentifier) && |ps[i].displayName| > 0
  {
    forall k | 0 <= k < |ps| ensures ProfileFired(ps, k) == [] <==>
              && (forall j :: 0 <= j < k ==> ps[j].bundleIdentifier != ps[k].bundleIdentifier)
              && BundleIdWellFormed(ps[k].bundleIdentifier) && |ps[k].displayName| > 0
    {
      DisplacedIff(ps, ProfileBundle, ProfileId, k);
      BundleIdMatchesIff(ps[k].bundleIdentifier);
    }
  }

  // ---------------------------------------------------------------------------
  // Monitor configurations
  // ---------------------------------------------------------------------------

  function MonitorIds(cs: seq<MC.MonitorConfiguration>): (ids: seq<Uuid>)
    ensures |ids| == |cs| && forall k :: 0 <= k < |cs| ==> ids[k] == cs[k].id
  {
    seq(|cs|, k requires 0 <= k < |cs| => cs[k].id)
  }

  function MonitorFired(m: MC.MonitorConfiguration): seq<RuleName> {
    If(m.scaleFactor <= 0.0, InvalidScaleFactor)
    + If(m.scaleFactor < 0.5 || m.scaleFactor > 3.0, UnusualScaleFactor)
  }

  function MonitorsFired(cs: seq<MC.MonitorConfiguration>): (fired: seq<seq<RuleName>>)
    ensures |fired| == |cs| && forall k :: 0 <= k < |cs| ==> fired[k] == MonitorFired(cs[k])
  {
    seq(|cs|, k requires 0 <= k < |cs| => MonitorFired(cs[k]))
  }

  /** `validate_monitor_configurations`. */
  function ValidateMonitors(cs: seq<MC.MonitorConfiguration>): (r: seq<ValidationResult>)
    ensures forall x :: x in r ==> x.entityType == MonitorConfigurationEntity
                                   && x.rule.name in {InvalidScaleFactor, UnusualScaleFactor}
  {
    SectionRules(MonitorIds(cs), MonitorsFired(cs), MonitorConfigurationEntity, {InvalidScaleFactor, UnusualScaleFactor});
    Section(MonitorIds(cs), MonitorsFired(cs), MonitorConfigurationEntity)
  }

  /** A non-positive scale is an error and, lying below the typical range, also a
      warning; a positive scale outside 0.5 to 3.0 is only a warning. */
  lemma MonitorScaleFindings(m: MC.MonitorConfiguration)
    ensures var fired := MonitorFired(m);
            && (Benign(fired) <==> m.scaleFactor > 0.0)
            && (fired == [] <==> 0.5 <= m.scaleFactor <= 3.0)
            && (m.scaleFactor <= 0.0 ==> fired == [InvalidScaleFactor, UnusualScaleFactor])
  {
    if m.scaleFactor <= 0.0 {
      assert InvalidScaleFactor in MonitorFired(m);
    }
  }

  lemma MonitorsErrorFreeIff(cs: seq<MC.MonitorConfiguration>)
    ensures ErrorFree(ValidateMonitors(cs)) <==> forall i :: 0 <= i < |cs| ==> cs[i].scaleFactor > 0.0
  {
    SectionErrorFree(MonitorIds(cs), MonitorsFired(cs), MonitorConfigurationEntity);
    forall k | 0 <= k < |cs| ensures Benign(MonitorFired(cs[k])) <==> cs[k].scaleFactor > 0.0 {
      MonitorScaleFindings(cs[k]);
    }
  }

  // ---------------------------------------------------------------------------
  // Whole configurations
  // ---------------------------------------------------------------------------

  /** The configuration the validator reads. It holds full keyboard mappings, where the
      parser's configuration holds their string form. */
  datatype Configuration = Configuration(
    workspaces: seq<WS.Workspace>,
    patterns: seq<TP.TilingPattern>,
    windowRules: seq<WR.WindowRule>,
    monitorConfigs: seq<MC.MonitorConfiguration>,
    keyboardMappings: seq<KM.KeyboardMapping>,
    applicationProfiles: seq<AP.ApplicationProfile>)

  function KnownPatterns(c: Configuration): set<Uuid> { set p | p in c.patterns :: p.id }
  function KnownWorkspaces(c: Configuration): set<Uuid> { set w | w in c.workspaces :: w.id }
  function KnownProfiles(c: Configuration): set<Uuid> { set p | p in c.applicationProfiles :: p.id }

  function WorkspaceRefsFired(c: Configuration, w: WS.Workspace): seq<RuleName> {
    If(w.tilingPatternId !in KnownPatterns(c), MissingTilingPatternReference)
  }

  function WindowRuleRefsFired(c: Configuration, rule: WR.WindowRule): seq<RuleName> {
    If(rule.workspaceId !in KnownWorkspaces(c), MissingWorkspaceReference)
    + If(rule.applicationProfileId.Some? && rule.applicationProfileId.value !in KnownProfiles(c),
         MissingApplicationProfileReference)
  }

  function MappingRefsFired(c: Configuration, m: KM.KeyboardMapping): seq<RuleName> {
    If(m.parameters.WorkspaceId? && m.parameters.workspace !in KnownWorkspaces(c), MissingKeyboardTargetReference)
  }

  function MonitorRefsFired(c: Configuration, m: MC.MonitorConfiguration): seq<RuleName> {
    If(m.workspaceId !in KnownWorkspaces(c), MissingWorkspaceReference)
    + If(m.primaryPatternId !in KnownPatterns(c), MissingTilingPatternReference)
    + If(m.secondaryPatternId.Some? && m.secondaryPatternId.value !in KnownPatterns(c), MissingTilingPatternReference)
  }

  /** Every id a configuration refers to names an entity of that configuration. */
  predicate ReferencesResolve(c: Configuration) {
    && (forall i :: 0 <= i < |c.workspaces| ==> c.workspaces[i].tilingPatternId in KnownPatterns(c))
    && (forall i :: 0 <= i < |c.windowRules| ==>
          && c.windowRules[i].workspaceId in KnownWorkspaces(c)
          && (c.windowRules[i].applicationProfileId.Some? ==> c.windowRules[i].applicationProfileId.value in KnownProfiles(c)))
    && (forall i :: 0 <= i < |c.keyboardMappings| ==>
          c.keyboardMappings[i].parameters.WorkspaceId? ==> c.keyboardMappings[i].parameters.workspace in KnownWorkspaces(c))
    && (forall i :: 0 <= i < |c.monitorConfigs| ==>
          && c.monitorConfigs[i].workspaceId in KnownWorkspaces(c)
          && c.monitorConfigs[i].primaryPatternId in KnownPatterns(c)
          && (c.monitorConfigs[i].secondaryPatternId.Some? ==> c.monitorConfigs[i].secondaryPatternId.value in KnownPatterns(c)))
  }

  const ReferenceRules: set<RuleName> :=
    {MissingTilingPatternReference, MissingWorkspaceReference, MissingApplicationProfileReference, MissingKeyboardTargetReference}

  /** The reference rules are all errors. */
  lemma ReferenceRulesAreErrors(n: RuleName)
    requires n in ReferenceRules
    ensures SeverityOf(n) == Error
  {
  }

  /** A section whose entities only fire reference rules reports only reference errors. */
  lemma ReferenceSectionRules(ids: seq<Uuid>, fired: seq<seq<RuleName>>, t: EntityType)
    requires |ids| == |fired|
    requires forall k, n :: 0 <= k < |fired| && n in fired[k] ==> n in ReferenceRules
    ensures forall x :: x in Section(ids, fired, t) ==> x.rule.name in ReferenceRules && x.rule.severity == Error
  {
    SectionRules(ids, fired, t, ReferenceRules);
    forall x | x in Section(ids, fired, t) ensures x.rule.severity == Error {
      ReferenceRulesAreErrors(x.rule.name);
    }
  }

  function WorkspaceRefsAll(c: Configuration): (fired: seq<seq<RuleName>>)
    ensures |fired| == |c.workspaces|
    ensures forall k :: 0 <= k < |fired| ==> fired[k] == WorkspaceRefsFired(c, c.workspaces[k])
  {
    seq(|c.workspaces|, k requires 0 <= k < |c.workspaces| => WorkspaceRefsFired(c, c.workspaces[k]))
  }

  function WindowRuleRefsAll(c: Configuration): (fired: seq<seq<RuleName>>)
    ensures |fired| == |c.windowRules|
    ensures forall k :: 0 <= k < |fired| ==> fired[k] == WindowRuleRefsFired(c, c.windowRules[k])
  {
    seq(|c.windowRules|, k requires 0 <= k < |c.windowRules| => WindowRuleRefsFired(c, c.windowRules[k]))
  }

  function MappingRefsAll(c: Configuration): (fired: seq<seq<RuleName>>)
    ensures |fired| == |c.keyboardMappings|
    ensures forall k :: 0 <= k < |fired| ==> fired[k] == MappingRefsFired(c, c.keyboardMappings[k])
  {
    seq(|c.keyboardMappings|, k requires 0 <= k < |c.keyboardMappings| => MappingRefsFired(c, c.keyboardMappings[k]))
  }

  function MonitorRefsAll(c: Configuration): (fired: seq<seq<RuleName>>)
    ensures |fired| == |c.monitorConfigs|
    ensures forall k :: 0 <= k < |fired| ==> fired[k] == MonitorRefsFired(c, c.monitorConfigs[k])
  {
    seq(|c.monitorConfigs|, k requires 0 <= k < |c.monitorConfigs| => MonitorRefsFired(c, c.monitorConfigs[k]))
  }

  /** Workspaces whose tiling pattern is unknown. */
  function WorkspaceRefSection(c: Configuration): (r: seq<ValidationResult>)
    ensures forall x :: x in r ==> x.rule.name in ReferenceRules && x.rule.severity == Error
    ensures r == [] <==> forall i :: 0 <= i < |c.workspaces| ==> c.workspaces[i].tilingPatternId in KnownPatterns(c)
  {
    ReferenceSectionRules(WorkspaceIds(c.workspaces), WorkspaceRefsAll(c), WorkspaceEntity);
    Section(WorkspaceIds(c.workspaces), WorkspaceRefsAll(c), WorkspaceEntity)
  }

  /** Window rules whose workspace or application profile is unknown. */
  function WindowRuleRefSection(c: Configuration): (r: seq<ValidationResult>)
    ensures forall x :: x in r ==> x.rule.name in ReferenceRules && x.rule.severity == Error
    ensures r == [] <==> forall i :: 0 <= i < |c.windowRules| ==>
                           && c.windowRules[i].workspaceId in KnownWorkspaces(c)
                           && (c.windowRules[i].applicationProfileId.Some? ==>
                                 c.windowRules[i].applicationProfileId.value in KnownProfiles(c))
  {
    ReferenceSectionRules(WindowRuleIds(c.windowRules), WindowRuleRefsAll(c), WindowRuleEntity);
    Section(WindowRuleIds(c.windowRules), WindowRuleRefsAll(c), WindowRuleEntity)
  }

  /** Keyboard mappings that switch to an unknown workspace. */
  function MappingRefSection(c: Configuration): (r: seq<ValidationResult>)
    ensures forall x :: x in r ==> x.rule.name in ReferenceRules && x.rule.severity == Error
    ensures r == [] <==> forall i :: 0 <= i < |c.keyboardMappings| ==>
                           c.keyboardMappings[i].parameters.WorkspaceId? ==>
                             c.keyboardMappings[i].parameters.workspace in KnownWorkspaces(c)
  {
    ReferenceSectionRules(MappingIds(c.keyboardMappings), MappingRefsAll(c), KeyboardMappingEntity);
    Section(MappingIds(c.keyboardMappings), MappingRefsAll(c), KeyboardMappingEntity)
  }

  /** Monitor configurations whose workspace or either pattern is unknown. */
  function MonitorRefSection(c: Configuration): (r: seq<ValidationResult>)
    ensures forall x :: x in r ==> x.rule.name in ReferenceRules && x.rule.severity == Error
    ensures r == [] <==> forall i :: 0 <= i < |c.monitorConfigs| ==>
                           && c.monitorConfigs[i].workspaceId in KnownWorkspaces(c)
                           && c.monitorConfigs[i].primaryPatternId in KnownPatterns(c)
                           && (c.monitorConfigs[i].secondaryPatternId.Some? ==>
                                 c.monitorConfigs[i].secondaryPatternId.value in KnownPatterns(c))
  {
    ReferenceSectionRules(MonitorIds(c.monitorConfigs), MonitorRefsAll(c), MonitorConfigurationEntity);
    Section(MonitorIds(c.monitorConfigs), MonitorRefsAll(c), MonitorConfigurationEntity)
  }

  /** `validate_cross_references`: one error per dangling reference, workspaces first,
      then window rules, keyboard mappings and monitor configurations. */
  function ValidateCrossReferences(c: Configuration): (r: seq<ValidationResult>)
    ensures forall x :: x in r ==> x.rule.severity == Error && x.rule.name in ReferenceRules
  {
    WorkspaceRefSection(c) + WindowRuleRefSection(c) + MappingRefSection(c) + MonitorRefSection(c)
  }

  /** No cross-reference finding exactly when every reference resolves. */
  lemma CrossReferencesEmptyIff(c: Configuration)
    ensures ValidateCrossReferences(c) == [] <==> ReferencesResolve(c)
  {
  }

  /** `validate_performance_implications`: informational notes past fixed counts. */
  function ValidatePerformance(c: Configuration): (r: seq<ValidationResult>)
    ensures forall x :: x in r ==> x.rule.severity == Info && x.entityId.None? && x.entityType == ConfigurationEntity
    ensures r == [] <==> |c.workspaces| <= 20 && |c.keyboardMappings| <= 100 && |c.windowRules| <= 200
    ensures |r| <= 3
  {
    (if |c.workspaces| > 20 then [ValidationResult(RuleOf(HighWorkspaceCount), None, ConfigurationEntity)] else [])
    + (if |c.keyboardMappings| > 100 then [ValidationResult(RuleOf(HighKeyboardMappingCount), None, ConfigurationEntity)] else [])
    + (if |c.windowRules| > 200 then [ValidationResult(RuleOf(HighWindowRuleCount), None, ConfigurationEntity)] else [])
  }

  /** `validate_full_config`: the sections in the source's order. */
  function ValidateFullConfig(c: Configuration, signature: KM.ShortcutCombination -> string, regexValid: string -> bool)
    : (r: seq<ValidationResult>)
    ensures forall x :: x in r <==>
              || x in ValidateWorkspaces(c.workspaces) || x in ValidatePatterns(c.patterns)
              || x in ValidateWindowRules(c.windowRules, regexValid)
              || x in ValidateKeyboardMappings(c.keyboardMappings, signature)
              || x in ValidateProfiles(c.applicationProfiles) || x in ValidateMonitors(c.monitorConfigs)
              || x in ValidateCrossReferences(c) || x in ValidatePerformance(c)
  {
    ValidateWorkspaces(c.workspaces) + ValidatePatterns(c.patterns) + ValidateWindowRules(c.windowRules, regexValid)
    + ValidateKeyboardMappings(c.keyboardMappings, signature) + ValidateProfiles(c.applicationProfiles)
    + ValidateMonitors(c.monitorConfigs) + ValidateCrossReferences(c) + ValidatePerformance(c)
  }

  /** The errors among the findings, in order. */
  function Errors(rs: seq<ValidationResult>): (r: seq<ValidationResult>)
    ensures forall x :: x in r <==> x in rs && x.rule.severity == Error
    ensures |r| <= |rs|
  {
    if |rs| == 0 then []
    else (if rs[0].rule.severity == Error then [rs[0]] else []) + Errors(rs[1..])
  }

  /** `validate_config` in src/config/persistence.rs, applied to the findings of
      `validate_full_config`: the save is refused with exactly the error findings, in
      order; warnings and notes never refuse it. */
  function CheckBeforeSave(findings: seq<ValidationResult>): (r: Outcome<seq<ValidationResult>>)
    ensures r.Pass? <==> ErrorFree(findings)
    ensures r.Fail? ==> |r.error| > 0 && forall x :: x in r.error <==> x in findings && x.rule.severity == Error
  {
    var errors := Errors(findings);
    if |errors| > 0 then
      assert errors[0] in errors;
      Fail(errors)
    else
      assert forall x :: x in findings ==> x !in errors;
      Pass
  }

  /** The full report is error-free exactly when each of its sections is. */
  lemma FullConfigErrorFree(c: Configuration, signature: KM.ShortcutCombination -> string, regexValid: string -> bool)
    ensures ErrorFree(ValidateFullConfig(c, signature, regexValid)) <==>
              && ErrorFree(ValidateWorkspaces(c.workspaces)) && ErrorFree(ValidatePatterns(c.patterns))
              && ErrorFree(ValidateWindowRules(c.windowRules, regexValid))
              && ErrorFree(ValidateKeyboardMappings(c.keyboardMappings, signature))
              && ErrorFree(ValidateProfiles(c.applicationProfiles)) && ErrorFree(ValidateMonitors(c.monitorConfigs))
              && ErrorFree(ValidateCrossReferences(c))
  {
  }

  /** In a section whose every finding is an error, error-free means empty. */
  lemma AllErrorsFreeIffEmpty(rs: seq<ValidationResult>)
    requires forall x :: x in rs ==> x.rule.severity == Error
    ensures ErrorFree(rs) <==> rs == []
  {
    if rs != [] {
      assert rs[0] in rs;
    }
  }

  /** A configuration is saved exactly when every section is free of errors and all its
      references resolve; the performance notes never stand in the way. */
  lemma SavedIff(c: Configuration, signature: KM.ShortcutCombination -> string, regexValid: string -> bool)
    ensures CheckBeforeSave(ValidateFullConfig(c, signature, regexValid)).Pass? <==>
              && ErrorFree(ValidateWorkspaces(c.workspaces)) && ErrorFree(ValidatePatterns(c.patterns))
              && ValidateWindowRules(c.windowRules, regexValid) == []
              && ErrorFree(ValidateKeyboardMappings(c.keyboardMappings, signature))
              && ValidateProfiles(c.applicationProfiles) == [] && ErrorFree(ValidateMonitors(c.monitorConfigs))
              && ReferencesResolve(c)
  {
    FullConfigErrorFree(c, signature, regexValid);
    AllErrorsFreeIffEmpty(ValidateWindowRules(c.windowRules, regexValid));
    AllErrorsFreeIffEmpty(ValidateProfiles(c.applicationProfiles));
    AllErrorsFreeIffEmpty(ValidateCrossReferences(c));
    CrossReferencesEmptyIff(c);
  }
}
