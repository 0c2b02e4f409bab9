/** The configuration parser's checks and its Command-to-Option shortcut migration.

  Reading files and decoding TOML are not modelled: every operation here starts from
  the decoded records. The parser's keyboard-mapping records carry the shortcut as text
  and an optional target workspace id, unlike the keyboard-mapping model; they are
  modelled as written, as `ParsedMapping`. The parser's running list of migration
  warnings is returned by each operation instead of being accumulated in place.
 */
module ConfigParser {
  import opened Wrappers
  import opened Core
  import opened Text
  import opened Seqs
  import WS = Workspaces
  import TP = TilingPatterns
  import WR = WindowRules
  import MC = MonitorConfigurations
  import AP = ApplicationProfiles

  /** A JSON value the parser carries through without reading it, kept as its text. */
  type JsonText = string

  datatype ParsedMapping = ParsedMapping(
    id: Uuid,
    shortcutCombination: string,
    actionType: string,
    targetId: Option<Uuid>,
    parameters: Option<JsonText>,
    enabled: bool,
    globalScope: bool)

  /** A mapping in the legacy, Command-based format. */
  datatype LegacyMapping = LegacyMapping(
    id: Uuid,
    shortcutCombination: string,
    actionType: string,
    targetId: Option<Uuid>,
    parameters: Option<JsonText>,
    enabled: bool,
    globalScope: bool,
    modifierPreference: Option<string>)

  datatype WorkspaceConfig = WorkspaceConfig(
    workspaces: seq<WS.Workspace>,
    patterns: seq<TP.TilingPattern>,
    windowRules: seq<WR.WindowRule>,
    monitorConfigs: seq<MC.MonitorConfiguration>,
    keyboardMappings: seq<ParsedMapping>,
    applicationProfiles: seq<AP.ApplicationProfile>)

  /** The validation failures, one per message the parser produces. */
  datatype ParseError =
    | DuplicateWorkspaceName(name: string)
    | DuplicateKeyboardShortcut(shortcut: string)
    | EmptyWorkspaceName
    | WorkspaceNameTooLong(name: string)
    | RatioOutOfRange(ratio: real)
    | MaxWindowsNotPositive
    | DuplicateShortcutCombination(combination: string)
    | InvalidShortcutFormat(combination: string)
    | DuplicateBundleIdentifier(bundleIdentifier: string)
    | NonPositiveScaleFactor
    | MissingTilingPattern(workspaceName: string, patternId: Uuid)
    | MissingTargetWorkspace(targetId: Uuid)

  datatype MigrationWarning =
    | CommandShortcutDetected(shortcut: string)
    | MigratedShortcut(before: string, after: string)
    | MigratedWorkspace(workspaceName: string, before: string, after: string)
    | MigrationCompleted

  // ---------------------------------------------------------------------------
  // Command-to-Option migration
  // ---------------------------------------------------------------------------

  const LeadingCommand: string := "cmd+"
  const LeadingOption: string := "opt+"
  const InnerCommand: string := "+cmd+"
  const InnerOption: string := "+opt+"

  /** `migrate_shortcut_combination`. A shortcut starting with "cmd+" has every "cmd+"
      replaced by "opt+"; otherwise one containing "+cmd+" has every non-overlapping
      "+cmd+" replaced by "+opt+"; any other shortcut is kept. */
  function MigrateShortcut(c: string): (r: string)
    ensures |r| == |c|
    ensures !Contains(c, LeadingCommand) ==> r == c
    ensures !StartsWith(c, LeadingCommand) && !Contains(c, InnerCommand) ==> r == c
  {
    ReplaceAllLength(c, LeadingCommand, LeadingOption);
    ReplaceAllLength(c, InnerCommand, InnerOption);
    InnerNeedsLeading(c);
    if StartsWith(c, LeadingCommand) then ReplaceAll(c, LeadingCommand, LeadingOption)
    else if Contains(c, InnerCommand) then ReplaceAll(c, InnerCommand, InnerOption)
    else c
  }

  /** Replacing a pattern by a text of the same length keeps the length. */
  lemma {:induction false} ReplaceAllLength(s: string, pat: string, rep: string)
    requires |pat| > 0
    ensures |pat| == |rep| ==> |ReplaceAll(s, pat, rep)| == |s|
    decreases |s|
  {
    if |s| > 0 {
      if StartsWith(s, pat) {
        ReplaceAllLength(s[|pat|..], pat, rep);
      } else {
        ReplaceAllLength(s[1..], pat, rep);
      }
    }
  }

  /** Every "+cmd+" contains a "cmd+". */
  lemma InnerNeedsLeading(s: string)
    ensures Contains(s, InnerCommand) ==> Contains(s, LeadingCommand)
  {
    ContainsIffOccurs(s, InnerCommand);
    ContainsIffOccurs(s, LeadingCommand);
    if Contains(s, InnerCommand) {
      var i :| OccursAt(s, InnerCommand, i);
      assert s[i + 1..i + 5] == s[i..i + 5][1..];
      assert OccursAt(s, LeadingCommand, i + 1);
    }
  }

  /** A prefix none of whose characters can start `sub` adds no occurrence of it. */
  lemma {:induction false} ContainsAfterForeignPrefix(a: string, b: string, sub: string)
    requires |sub| > 0 && forall k :: 0 <= k < |a| ==> a[k] != sub[0]
    ensures Contains(a + b, sub) <==> Contains(b, sub)
    decreases |a|
  {
    if |a| > 0 {
      if |sub| <= |a + b| {
        assert (a + b)[..|sub|][0] == a[0] != sub[0];
      }
      assert (a + b)[1..] == a[1..] + b;
      ContainsAfterForeignPrefix(a[1..], b, sub);
    } else {
      assert a + b == b;
    }
  }

  /** A replaced text whose first character does not start "opt+" begins with a copied
      character of the original. */
  lemma ReplacedHead(t: string)
    requires |ReplaceAll(t, LeadingCommand, LeadingOption)| > 0
    requires ReplaceAll(t, LeadingCommand, LeadingOption)[0] != 'o'
    ensures |t| > 0 && !StartsWith(t, LeadingCommand)
    ensures ReplaceAll(t, LeadingCommand, LeadingOption)[0] == t[0]
    ensures ReplaceAll(t, LeadingCommand, LeadingOption)[1..] == ReplaceAll(t[1..], LeadingCommand, LeadingOption)
  {
  }

  /** Replacing every "cmd+" by "opt+" leaves no "cmd+" behind: a new occurrence cannot
      straddle a replacement, because "opt+" shares no character with the start of
      "cmd+" and no suffix of it begins "cmd+". */
  lemma {:induction false} NoCommandAfterReplace(s: string)
    ensures !Contains(ReplaceAll(s, LeadingCommand, LeadingOption), LeadingCommand)
    decreases |s|
  {
    var r := ReplaceAll(s, LeadingCommand, LeadingOption);
    if |s| == 0 {
    } else if StartsWith(s, LeadingCommand) {
      NoCommandAfterReplace(s[4..]);
      ContainsAfterForeignPrefix(LeadingOption, ReplaceAll(s[4..], LeadingCommand, LeadingOption), LeadingCommand);
    } else {
      var r1 := ReplaceAll(s[1..], LeadingCommand, LeadingOption);
      NoCommandAfterReplace(s[1..]);
      assert r == [s[0]] + r1 && r[1..] == r1;
      if StartsWith(r, LeadingCommand) {
        ReplacedHead(s[1..]);
        assert s[1..][1..] == s[2..];
        ReplacedHead(s[2..]);
        assert false;
      }
    }
  }

  /** A shortcut that started with "cmd+" has no "cmd+" left once migrated. */
  lemma MigrateLeadingRemovesCommand(c: string)
    requires StartsWith(c, LeadingCommand)
    ensures !Contains(MigrateShortcut(c), LeadingCommand)
  {
    NoCommandAfterReplace(c);
  }

  /** Migrating a shortcut that started with "cmd+" a second time changes nothing. */
  lemma MigrateLeadingIdempotent(c: string)
    requires StartsWith(c, LeadingCommand)
    ensures MigrateShortcut(MigrateShortcut(c)) == MigrateShortcut(c)
  {
    NoCommandAfterReplace(c);
  }

  /** "cmd+1" becomes "opt+1". */
  lemma ExampleCommandOne(c: string)
    requires c == "cmd+1"
    ensures MigrateShortcut(c) == "opt+1"
  {
    assert StartsWith(c, LeadingCommand);
    assert c == LeadingCommand + "1";
    assert ReplaceAll("1", LeadingCommand, LeadingOption) == "1";
  }

  lemma ReplaceInnerCmdOne(x: string)
    requires x == "cmd+1"
    ensures ReplaceAll(x, InnerCommand, InnerOption) == x
  {
    ReplaceAllShort("+1", InnerCommand, InnerOption);
    assert x == "cmd" + "+1";
    ReplaceAllForeignRun("cmd", "+1", InnerCommand, InnerOption);
  }

  lemma ReplaceInnerTwice(x: string)
    requires x == "ctrl+cmd+cmd+1"
    ensures ReplaceAll(x, InnerCommand, InnerOption) == "ctrl+opt+cmd+1"
  {
    ReplaceInnerCmdOne("cmd+1");
    CtrlHasNoPlus();
    ReplaceOneInner("ctrl", "cmd+1");
    CtrlCmdCmdShape(x);
  }

  lemma CtrlHasNoPlus()
    ensures '+' !in "ctrl"
  {
    forall k | 0 <= k < |"ctrl"| ensures "ctrl"[k] != '+' { }
  }

  /** How "ctrl+cmd+cmd+1" and "ctrl+opt+cmd+1" split around their first "+…+". */
  lemma CtrlCmdCmdShape(x: string)
    requires x == "ctrl+cmd+cmd+1"
    ensures x == "ctrl" + InnerCommand + "cmd+1"
    ensures "ctrl" + InnerOption + "cmd+1" == "ctrl+opt+cmd+1"
  {
  }

  /** One "+cmd+" between a plus-free head and a tail with nothing to replace becomes
      "+opt+". */
  lemma ReplaceOneInner(head: string, tail: string)
    requires '+' !in head && ReplaceAll(tail, InnerCommand, InnerOption) == tail
    ensures ReplaceAll(head + InnerCommand + tail, InnerCommand, InnerOption) == head + InnerOption + tail
  {
    ReplaceAllHead(InnerCommand, tail, InnerOption);
    assert head + InnerCommand + tail == head + (InnerCommand + tail);
    ReplaceAllForeignRun(head, InnerCommand + tail, InnerCommand, InnerOption);
  }

  lemma ReplaceInnerOnce(x: string)
    requires x == "ctrl+opt+cmd+1"
    ensures ReplaceAll(x, InnerCommand, InnerOption) == "ctrl+opt+opt+1"
  {
    ReplaceAllShort("1", InnerCommand, InnerOption);
    ReplaceAllHead(InnerCommand, "1", InnerOption);
    ReplaceAllForeignRun("opt", InnerCommand + "1", InnerCommand, InnerOption);
    var tail := "+opt" + (InnerCommand + "1");
    assert !StartsWith(tail, InnerCommand) && tail[1..] == "opt" + (InnerCommand + "1");
    assert x == "ctrl" + tail;
    ReplaceAllForeignRun("ctrl", tail, InnerCommand, InnerOption);
  }

  /** The shortcut takes the inner branch: it does not start with "cmd+" but has "+cmd+"
      at position `at`. */
  lemma TakesInnerBranch(x: string, at: nat)
    requires |x| >= 4 && x[..4] != LeadingCommand && OccursAt(x, InnerCommand, at)
    ensures MigrateShortcut(x) == ReplaceAll(x, InnerCommand, InnerOption)
  {
    ContainsIffOccurs(x, InnerCommand);
  }

  /** The inner replacement is not idempotent: the scan resumes after each replaced
      "+cmd+", so in "ctrl+cmd+cmd+1" the second "cmd" shares its leading '+' with the
      first and survives one pass, to be replaced by the next. */
  lemma InnerMigrationNotIdempotent(c: string)
    requires c == "ctrl+cmd+cmd+1"
    ensures MigrateShortcut(c) == "ctrl+opt+cmd+1"
    ensures MigrateShortcut(MigrateShortcut(c)) == "ctrl+opt+opt+1"
  {
    assert c[4..9] == InnerCommand;
    assert c[..4][1] != LeadingCommand[1];
    TakesInnerBranch(c, 4);
    ReplaceInnerTwice(c);
    var once := "ctrl+opt+cmd+1";
    assert once[8..13] == InnerCommand;
    assert once[..4][1] != LeadingCommand[1];
    TakesInnerBranch(once, 8);
    ReplaceInnerOnce(once);
  }

  /** A legacy record with its combination migrated and its other fields kept. */
  function MigrateLegacy(m: LegacyMapping): (r: ParsedMapping)
    ensures r.id == m.id && r.actionType == m.actionType && r.targetId == m.targetId
    ensures r.parameters == m.parameters
    ensures r.enabled == m.enabled && r.globalScope == m.globalScope
    ensures r.shortcutCombination == MigrateShortcut(m.shortcutCombination)
  {
    ParsedMapping(m.id, MigrateShortcut(m.shortcutCombination), m.actionType, m.targetId, m.parameters,
                  m.enabled, m.globalScope)
  }

  predicate LegacyChanges(m: LegacyMapping) {
    MigrateShortcut(m.shortcutCombination) != m.shortcutCombination
  }

  /** `migrate_legacy_keyboard_mappings`: every record is migrated in order, and one
      warning is produced per combination that actually changed. */
  function MigrateLegacyMappings(legacy: seq<LegacyMapping>): (r: (seq<ParsedMapping>, seq<MigrationWarning>))
    ensures |r.0| == |legacy|
    ensures forall i :: 0 <= i < |legacy| ==> r.0[i] == MigrateLegacy(legacy[i])
    ensures forall w :: w in r.1 ==> w.MigratedShortcut? && w.before != w.after && w.after == MigrateShortcut(w.before)
    ensures |r.1| == Count(legacy, LegacyChanges)
  {
    if |legacy| == 0 then ([], [])
    else
      var m := legacy[0];
      var rest := MigrateLegacyMappings(legacy[1..]);
      assert forall i :: 1 <= i < |legacy| ==> legacy[i] == legacy[1..][i - 1];
      var warning := if LegacyChanges(m) then [MigratedShortcut(m.shortcutCombination, MigrateShortcut(m.shortcutCombination))] else [];
      ([MigrateLegacy(m)] + rest.0, warning + rest.1)
  }

  /** A legacy list already free of Command shortcuts migrates silently. */
  lemma CommandFreeLegacyIsSilent(legacy: seq<LegacyMapping>)
    requires forall i :: 0 <= i < |legacy| ==> !Contains(legacy[i].shortcutCombination, LeadingCommand)
    ensures MigrateLegacyMappings(legacy).1 == []
    ensures forall i :: 0 <= i < |legacy| ==>
              MigrateLegacyMappings(legacy).0[i].shortcutCombination == legacy[i].shortcutCombination
  {
  }

  /** The number of workspaces whose shortcut the migration changes. */
  function ChangedShortcuts(ws: seq<WS.Workspace>): nat {
    Count(ws, (w: WS.Workspace) => MigrateShortcut(w.keyboardShortcut) != w.keyboardShortcut)
  }

  /** The workspace loop of `migrate_keyboard_shortcuts`: only shortcuts containing
      "cmd+" are migrated, with one warning per actual change. */
  function MigrateWorkspaces(ws: seq<WS.Workspace>): (r: (seq<WS.Workspace>, seq<MigrationWarning>))
    ensures |r.0| == |ws|
    ensures forall i :: 0 <= i < |ws| ==>
              r.0[i] == ws[i].(keyboardShortcut := MigrateShortcut(ws[i].keyboardShortcut))
    ensures |r.1| == ChangedShortcuts(ws)
    ensures forall w :: w in r.1 ==> w.MigratedWorkspace? && w.before != w.after && w.after == MigrateShortcut(w.before)
  {
    if |ws| == 0 then ([], [])
    else
      var (rest, warnings) := MigrateWorkspaces(ws[1..]);
      assert forall i :: 1 <= i < |ws| ==> ws[i] == ws[1..][i - 1];
      var (migrated, warning) := MigrateWorkspace(ws[0]);
      ([migrated] + rest, warning + warnings)
  }

  /** One pass of the workspace loop: a shortcut containing "cmd+" is migrated, with a
      warning when that changes it. */
  function MigrateWorkspace(w: WS.Workspace): (r: (WS.Workspace, seq<MigrationWarning>))
    ensures r.0 == w.(keyboardShortcut := MigrateShortcut(w.keyboardShortcut))
    ensures |r.1| == if MigrateShortcut(w.keyboardShortcut) != w.keyboardShortcut then 1 else 0
    ensures forall x :: x in r.1 ==> x.MigratedWorkspace? && x.before != x.after && x.after == MigrateShortcut(x.before)
  {
    if Contains(w.keyboardShortcut, LeadingCommand) then
      var c := MigrateShortcut(w.keyboardShortcut);
      (w.(keyboardShortcut := c), if c != w.keyboardShortcut then [MigratedWorkspace(w.name, w.keyboardShortcut, c)] else [])
    else
      assert w == w.(keyboardShortcut := MigrateShortcut(w.keyboardShortcut));
      (w, [])
  }

  /** `migrate_keyboard_shortcuts`: migrates the workspace shortcuts, leaves the rest of the
      configuration alone, and closes with a summary warning iff something changed. */
  function MigrateKeyboardShortcuts(config: WorkspaceConfig): (r: (WorkspaceConfig, seq<MigrationWarning>))
    ensures r.0 == config.(workspaces := r.0.workspaces)
    ensures |r.0.workspaces| == |config.workspaces|
    ensures forall i :: 0 <= i < |config.workspaces| ==>
              r.0.workspaces[i].keyboardShortcut == MigrateShortcut(config.workspaces[i].keyboardShortcut)
              && r.0.workspaces[i].(keyboardShortcut := config.workspaces[i].keyboardShortcut) == config.workspaces[i]
    ensures |r.1| == 0 <==> forall i :: 0 <= i < |config.workspaces| ==> r.0.workspaces[i] == config.workspaces[i]
    ensures |r.1| > 0 ==> |r.1| == ChangedShortcuts(config.workspaces) + 1 && r.1[|r.1| - 1] == MigrationCompleted
  {
    var (ws, warnings) := MigrateWorkspaces(config.workspaces);
    var changed := |warnings| > 0;
    assert !changed <==> forall i :: 0 <= i < |config.workspaces| ==> ws[i] == config.workspaces[i] by {
      forall i | 0 <= i < |config.workspaces|
        ensures ws[i] == config.workspaces[i] <==>
                MigrateShortcut(config.workspaces[i].keyboardShortcut) == config.workspaces[i].keyboardShortcut
      {
        if ws[i] == config.workspaces[i] {
          assert ws[i].keyboardShortcut == config.workspaces[i].keyboardShortcut;
        }
      }
    }
    (config.(workspaces := ws), if changed then warnings + [MigrationCompleted] else warnings)
  }

  // ---------------------------------------------------------------------------
  // Shortcut format
  // ---------------------------------------------------------------------------

  /** The key class `[a-zA-Z0-9F1-F12]`. Its ranges are a-z, A-Z, 0-9 and `1-F` (the
      characters '1' up to 'F'), so besides letters and digits it also admits
      `: ; < = > ? @`. */
  predicate KeyClassChar(ch: char) {
    IsAsciiAlphanumeric(ch) || '1' <= ch <= 'F'
  }

  predicate KeyMatches(key: string) {
    |key| > 0 && forall i :: 0 <= i < |key| ==> KeyClassChar(key[i])
  }

  /** The format check written on the '+'-separated parts: at least one modifier word,
      then a key from the key class. */
  predicate ShortcutFormatOk(c: string) {
    var parts := Split(c, '+');
    && |parts| >= 2
    && (forall i :: 0 <= i < |parts| - 1 ==> parts[i] in WS.ModifierWords)
    && KeyMatches(parts[|parts| - 1])
  }

  /** `validate_shortcut_format`. */
  function ValidateShortcutFormat(c: string): (r: Outcome<ParseError>)
    ensures r.Pass? <==> ShortcutFormatOk(c)
    ensures r.Fail? ==> r.error == InvalidShortcutFormat(c)
  {
    if ShortcutFormatOk(c) then Pass else Fail(InvalidShortcutFormat(c))
  }

  /** The language of the anchored expression
      `(cmd|ctrl|opt|shift)(\+(cmd|ctrl|opt|shift))*\+[key class]+`: one or more
      modifier words joined by '+', then '+', then one or more key characters. */
  ghost predicate InShortcutLanguage(c: string) {
    exists mods: seq<string>, key: string ::
      && |mods| >= 1 && (forall i :: 0 <= i < |mods| ==> mods[i] in WS.ModifierWords)
      && KeyMatches(key) && WS.Compose(mods, key) == c
  }

  /** The part-wise check accepts exactly the language of the expression. */
  lemma ShortcutFormatIff(c: string)
    ensures ShortcutFormatOk(c) <==> InShortcutLanguage(c)
  {
    var parts := Split(c, '+');
    if ShortcutFormatOk(c) {
      var mods := parts[..|parts| - 1];
      var key := parts[|parts| - 1];
      assert mods + [key] == parts;
      JoinSplit(c, '+');
      assert WS.Compose(mods, key) == c;
    }
    if InShortcutLanguage(c) {
      var mods: seq<string>, key: string :| && |mods| >= 1 && (forall i :: 0 <= i < |mods| ==> mods[i] in WS.ModifierWords)
                                             && KeyMatches(key) && WS.Compose(mods, key) == c;
      var ps := mods + [key];
      WS.ModifierWordsHaveNoPlus();
      forall i | 0 <= i < |ps| ensures '+' !in ps[i] {
        if i < |mods| {
          assert ps[i] == mods[i];
          var k :| 0 <= k < |WS.ModifierWords| && WS.ModifierWords[k] == mods[i];
        } else {
          assert ps[i] == key;
          assert forall j :: 0 <= j < |key| ==> key[j] != '+';
        }
      }
      SplitJoin(ps, '+');
      assert parts == ps;
      assert parts[..|parts| - 1] == mods;
    }
  }

  lemma SplitOptOne(a: string)
    requires a == "opt+1"
    ensures Split(a, '+') == ["opt", "1"]
  {
    SplitSingle("1", '+');
    assert a == "opt" + ['+'] + "1";
    SplitCons("opt", "1", '+');
  }

  lemma SplitOptShiftOne(b: string)
    requires b == "opt+shift+1"
    ensures Split(b, '+') == ["opt", "shift", "1"]
  {
    var tail := "shift" + ['+'] + "1";
    SplitSingle("1", '+');
    SplitCons("shift", "1", '+');
    assert b == "opt" + ['+'] + tail;
    SplitCons("opt", tail, '+');
  }

  lemma SplitCtrlAltOne(b: string)
    requires b == "ctrl+alt+1"
    ensures Split(b, '+') == ["ctrl", "alt", "1"]
  {
    SplitSingle("1", '+');
    assert "alt+1" == "alt" + ['+'] + "1";
    SplitCons("alt", "1", '+');
    assert b == "ctrl" + ['+'] + "alt+1";
    SplitCons("ctrl", "alt+1", '+');
  }

  lemma SplitWithAlt(b: string)
    requires b == "cmd+ctrl+alt+1"
    ensures Split(b, '+') == ["cmd", "ctrl", "alt", "1"]
  {
    var cmd, rest := b[..3], b[4..];
    assert cmd == "cmd" && rest == "ctrl+alt+1";
    SplitCtrlAltOne(rest);
    assert b == cmd + ['+'] + rest;
    SplitCons(cmd, rest, '+');
  }

  /** "opt+1" and "opt+shift+1" are accepted. */
  lemma ExampleFormatAccepted(a: string, b: string)
    requires a == "opt+1" && b == "opt+shift+1"
    ensures ValidateShortcutFormat(a).Pass? && ValidateShortcutFormat(b).Pass?
  {
    SplitOptOne(a);
    SplitOptShiftOne(b);
    assert WS.ModifierWords[2] == "opt" && WS.ModifierWords[3] == "shift";
  }

  /** "invalid" has no modifier and "cmd+ctrl+alt+1" uses the unknown word "alt". */
  lemma ExampleFormatRejected(a: string, b: string)
    requires a == "invalid" && b == "cmd+ctrl+alt+1"
    ensures ValidateShortcutFormat(a).Fail? && ValidateShortcutFormat(b).Fail?
  {
    SplitSingle(a, '+');
    SplitWithAlt(b);
    assert Split(b, '+')[2] !in WS.ModifierWords;
  }

  /** The class quirk: "opt+:" is accepted although ':' is not alphanumeric. */
  lemma ExampleColonKeyAccepted(a: string)
    requires a == "opt+:"
    ensures ValidateShortcutFormat(a).Pass?
  {
    SplitSingle(":", '+');
    assert a == "opt" + ['+'] + ":";
    SplitCons("opt", ":", '+');
    assert WS.ModifierWords[2] == "opt";
  }

  // ---------------------------------------------------------------------------
  // Fail-fast validators
  // ---------------------------------------------------------------------------

  /** What `validate_workspaces` reports for the k-th workspace, given the ones before it. */
  function WorkspaceProblem(ws: seq<WS.Workspace>, k: nat): Option<ParseError>
    requires k < |ws|
  {
    if exists i :: 0 <= i < k && ws[i].name == ws[k].name then Some(DuplicateWorkspaceName(ws[k].name))
    else if exists i :: 0 <= i < k && ws[i].keyboardShortcut == ws[k].keyboardShortcut then
      Some(DuplicateKeyboardShortcut(ws[k].keyboardShortcut))
    else if |ws[k].name| == 0 then Some(EmptyWorkspaceName)
    else if Utf8Len(ws[k].name) > 100 then Some(WorkspaceNameTooLong(ws[k].name))
    else None
  }

  /** `validate_workspaces`: walks the list once, keeping the names and shortcuts seen so
      far, and stops at the first duplicate name, duplicate shortcut, empty name or
      name longer than 100 bytes. */
  method ValidateWorkspaces(ws: seq<WS.Workspace>) returns (r: Outcome<ParseError>)
    ensures r.Pass? <==> forall k :: 0 <= k < |ws| ==> WorkspaceProblem(ws, k).None?
    ensures r.Fail? ==> exists k :: 0 <= k < |ws| && WorkspaceProblem(ws, k) == Some(r.error)
                                    && forall j :: 0 <= j < k ==> WorkspaceProblem(ws, j).None?
  {
    var names: set<string> := {};
    var shortcuts: set<string> := {};
    for k := 0 to |ws|
      invariant names == set i | 0 <= i < k :: ws[i].name
      invariant shortcuts == set i | 0 <= i < k :: ws[i].keyboardShortcut
      invariant forall j :: 0 <= j < k ==> WorkspaceProblem(ws, j).None?
    {
      var w := ws[k];
      if w.name in names {
        var i :| 0 <= i < k && ws[i].name == w.name;
        assert WorkspaceProblem(ws, k) == Some(DuplicateWorkspaceName(w.name));
        return Fail(DuplicateWorkspaceName(w.name));
      }
      assert !exists i :: 0 <= i < k && ws[i].name == w.name;
      names := names + {w.name};
      if w.keyboardShortcut in shortcuts {
        var i :| 0 <= i < k && ws[i].keyboardShortcut == w.keyboardShortcut;
        assert WorkspaceProblem(ws, k) == Some(DuplicateKeyboardShortcut(w.keyboardShortcut));
        return Fail(DuplicateKeyboardShortcut(w.keyboardShortcut));
      }
      assert !exists i :: 0 <= i < k && ws[i].keyboardShortcut == w.keyboardShortcut;
      shortcuts := shortcuts + {w.keyboardShortcut};
      if |w.name| == 0 {
        assert WorkspaceProblem(ws, k) == Some(EmptyWorkspaceName);
        return Fail(EmptyWorkspaceName);
      }
      if Utf8Len(w.name) > 100 {
        assert WorkspaceProblem(ws, k) == Some(WorkspaceNameTooLong(w.name));
        return Fail(WorkspaceNameTooLong(w.name));
      }
    }
    return Pass;
  }

  /** The workspaces pass exactly when names and shortcuts are pairwise distinct and every
      name is non-empty and at most 100 bytes. */
  lemma WorkspacesPassIff(ws: seq<WS.Workspace>)
    ensures (forall k :: 0 <= k < |ws| ==> WorkspaceProblem(ws, k).None?) <==>
            && (forall i, j :: 0 <= i < j < |ws| ==> ws[i].name != ws[j].name)
            && (forall i, j :: 0 <= i < j < |ws| ==> ws[i].keyboardShortcut != ws[j].keyboardShortcut)
            && (forall k :: 0 <= k < |ws| ==> 0 < |ws[k].name| && Utf8Len(ws[k].name) <= 100)
  {
    if forall k :: 0 <= k < |ws| ==> WorkspaceProblem(ws, k).None? {
      forall i, j | 0 <= i < j < |ws| ensures ws[i].name != ws[j].name && ws[i].keyboardShortcut != ws[j].keyboardShortcut {
        assert WorkspaceProblem(ws, j).None?;
      }
      forall k | 0 <= k < |ws| ensures 0 < |ws[k].name| && Utf8Len(ws[k].name) <= 100 {
        assert WorkspaceProblem(ws, k).None?;
      }
    } else {
      var k :| 0 <= k < |ws| && WorkspaceProblem(ws, k).Some?;
      if exists i :: 0 <= i < k && ws[i].name == ws[k].name {
        var i :| 0 <= i < k && ws[i].name == ws[k].name;
      } else if exists i :: 0 <= i < k && ws[i].keyboardShortcut == ws[k].keyboardShortcut {
        var i :| 0 <= i < k && ws[i].keyboardShortcut == ws[k].keyboardShortcut;
      }
    }
  }

  /** What `validate_patterns` reports for one pattern: the ratio is checked before the
      window allowance. */
  function PatternProblem(p: TP.TilingPattern): (r: Option<ParseError>)
    ensures r.None? <==> TP.RatioInRange(p.mainAreaRatio) && p.maxWindows > 0
  {
    if p.mainAreaRatio < 0.1 || p.mainAreaRatio > 0.9 then Some(RatioOutOfRange(p.mainAreaRatio))
    else if p.maxWindows == 0 then Some(MaxWindowsNotPositive)
    else None
  }

  /** `validate_patterns`: the first pattern with a ratio outside [0.1, 0.9] or no window
      allowance fails the list. */
  function ValidatePatterns(ps: seq<TP.TilingPattern>): (r: Outcome<ParseError>)
    ensures r.Pass? <==> forall i :: 0 <= i < |ps| ==> TP.RatioInRange(ps[i].mainAreaRatio) && ps[i].maxWindows > 0
    ensures r == Fail(MaxWindowsNotPositive) || r.Pass? ||
            (r.Fail? && r.error.RatioOutOfRange? && !TP.RatioInRange(r.error.ratio)
             && exists i :: 0 <= i < |ps| && ps[i].mainAreaRatio == r.error.ratio)
    ensures r.Fail? ==> exists k :: 0 <= k < |ps| && PatternProblem(ps[k]) == Some(r.error)
                                    && forall j :: 0 <= j < k ==> PatternProblem(ps[j]).None?
  {
    if |ps| == 0 then Pass
    else if ps[0].mainAreaRatio < 0.1 || ps[0].mainAreaRatio > 0.9 then Fail(RatioOutOfRange(ps[0].mainAreaRatio))
    else if ps[0].maxWindows == 0 then Fail(MaxWindowsNotPositive)
    else
      assert forall i :: 1 <= i < |ps| ==> ps[i] == ps[1..][i - 1];
      var r := ValidatePatterns(ps[1..]);
      FirstProblemShifts(ps, r);
      r
  }

  /** A first failing pattern of the tail, behind a head without a problem, is the first
      failing pattern of the whole list. */
  lemma FirstProblemShifts(ps: seq<TP.TilingPattern>, r: Outcome<ParseError>)
    requires |ps| > 0 && PatternProblem(ps[0]).None?
    requires r.Fail? ==> exists k :: 0 <= k < |ps[1..]| && PatternProblem(ps[1..][k]) == Some(r.error)
                                     && forall j :: 0 <= j < k ==> PatternProblem(ps[1..][j]).None?
    ensures r.Fail? ==> exists k :: 0 <= k < |ps| && PatternProblem(ps[k]) == Some(r.error)
                                    && forall j :: 0 <= j < k ==> PatternProblem(ps[j]).None?
  {
    if r.Fail? {
      var k :| 0 <= k < |ps[1..]| && PatternProblem(ps[1..][k]) == Some(r.error)
               && forall j :: 0 <= j < k ==> PatternProblem(ps[1..][j]).None?;
      assert PatternProblem(ps[k + 1]) == Some(r.error);
      forall j | 0 <= j < k + 1 ensures PatternProblem(ps[j]).None? {
        if j > 0 { assert ps[j] == ps[1..][j - 1]; }
      }
    }
  }

  /** What `validate_keyboard_mappings` reports for the k-th mapping. */
  function MappingProblem(ms: seq<ParsedMapping>, k: nat): Option<ParseError>
    requires k < |ms|
  {
    if exists i :: 0 <= i < k && ms[i].shortcutCombination == ms[k].shortcutCombination then
      Some(DuplicateShortcutCombination(ms[k].shortcutCombination))
    else if !ShortcutFormatOk(ms[k].shortcutCombination) then Some(InvalidShortcutFormat(ms[k].shortcutCombination))
    else None
  }

  /** The warnings for Command-based combinations, in list order. */
  function CommandWarnings(ms: seq<ParsedMapping>): (r: seq<MigrationWarning>)
    ensures forall w :: w in r ==> w.CommandShortcutDetected? && Contains(w.shortcut, LeadingCommand)
  {
    if |ms| == 0 then []
    else
      var last := ms[|ms| - 1].shortcutCombination;
      CommandWarnings(ms[..|ms| - 1]) + if Contains(last, LeadingCommand) then [CommandShortcutDetected(last)] else []
  }

  /** `validate_keyboard_mappings`: stops at the first repeated or malformed combination;
      warns, along the way, about each Command-based one. */
  method ValidateKeyboardMappings(ms: seq<ParsedMapping>) returns (r: Outcome<ParseError>, warnings: seq<MigrationWarning>)
    ensures r.Pass? <==> forall k :: 0 <= k < |ms| ==> MappingProblem(ms, k).None?
    ensures r.Fail? ==> exists k :: 0 <= k < |ms| && MappingProblem(ms, k) == Some(r.error)
                                    && forall j :: 0 <= j < k ==> MappingProblem(ms, j).None?
    ensures r.Pass? ==> warnings == CommandWarnings(ms)
    ensures forall w :: w in warnings ==> w.CommandShortcutDetected? && Contains(w.shortcut, LeadingCommand)
  {
    var combinations: set<string> := {};
    warnings := [];
    for k := 0 to |ms|
      invariant combinations == set i | 0 <= i < k :: ms[i].shortcutCombination
      invariant forall j :: 0 <= j < k ==> MappingProblem(ms, j).None?
      invariant warnings == CommandWarnings(ms[..k])
    {
      var c := ms[k].shortcutCombination;
      if c in combinations {
        var i :| 0 <= i < k && ms[i].shortcutCombination == c;
        assert MappingProblem(ms, k) == Some(DuplicateShortcutCombination(c));
        return Fail(DuplicateShortcutCombination(c)), warnings;
      }
      assert !exists i :: 0 <= i < k && ms[i].shortcutCombination == c;
      combinations := combinations + {c};
      var format := ValidateShortcutFormat(c);
      if format.Fail? {
        assert MappingProblem(ms, k) == Some(InvalidShortcutFormat(c));
        return format, warnings;
      }
      assert ms[..k + 1][..k] == ms[..k];
      if Contains(c, LeadingCommand) {
        warnings := warnings + [CommandShortcutDetected(c)];
      }
    }
    assert ms[..|ms|] == ms;
    return Pass, warnings;
  }

  /** `validate_application_profiles`: the first repeated bundle id fails the list. */
  method ValidateApplicationProfiles(ps: seq<AP.ApplicationProfile>) returns (r: Outcome<ParseError>)
    ensures r.Pass? <==> AP.DistinctBundles(ps)
    ensures r.Fail? ==> r.error.DuplicateBundleIdentifier?
                        && exists i, j :: 0 <= i < j < |ps| && ps[i].bundleIdentifier == ps[j].bundleIdentifier == r.error.bundleIdentifier
    ensures r.Fail? ==> exists j :: && 0 <= j < |ps| && AP.DistinctBundles(ps[..j])
                                    && (exists i :: 0 <= i < j && ps[i].bundleIdentifier == ps[j].bundleIdentifier)
                                    && r.error.bundleIdentifier == ps[j].bundleIdentifier
  {
    var bundles: set<string> := {};
    for k := 0 to |ps|
      invariant bundles == set i | 0 <= i < k :: ps[i].bundleIdentifier
      invariant AP.DistinctBundles(ps[..k])
    {
      var b := ps[k].bundleIdentifier;
      if b in bundles {
        var i :| 0 <= i < k && ps[i].bundleIdentifier == b;
        assert AP.DistinctBundles(ps[..k]) && ps[i].bundleIdentifier == ps[k].bundleIdentifier;
        return Fail(DuplicateBundleIdentifier(b));
      }
      bundles := bundles + {b};
      assert forall i :: 0 <= i < k ==> ps[..k + 1][i] == ps[..k][i];
    }
    assert ps[..|ps|] == ps;
    return Pass;
  }

  /** `validate_monitor_configurations`: every scale factor must be positive. */
  function ValidateMonitorConfigurations(cs: seq<MC.MonitorConfiguration>): (r: Outcome<ParseError>)
    ensures r.Pass? <==> forall i :: 0 <= i < |cs| ==> cs[i].scaleFactor > 0.0
    ensures r.Fail? ==> r.error == NonPositiveScaleFactor
  {
    match FirstWhere(cs, (c: MC.MonitorConfiguration) => c.scaleFactor <= 0.0)
    case None => Pass
    case Some(_) => Fail(NonPositiveScaleFactor)
  }

  function PatternIds(ps: seq<TP.TilingPattern>): set<Uuid> {
    set i | 0 <= i < |ps| :: ps[i].id
  }

  function WorkspaceIds(ws: seq<WS.Workspace>): set<Uuid> {
    set i | 0 <= i < |ws| :: ws[i].id
  }

  /** Every workspace names an existing pattern and every mapping target is an existing
      workspace. */
  predicate ReferencesResolve(config: WorkspaceConfig) {
    && (forall i :: 0 <= i < |config.workspaces| ==> config.workspaces[i].tilingPatternId in PatternIds(config.patterns))
    && (forall i :: 0 <= i < |config.keyboardMappings| ==>
          config.keyboardMappings[i].targetId.None?
          || config.keyboardMappings[i].targetId.value in WorkspaceIds(config.workspaces))
  }

  /** The `j`-th mapping has no target or targets an existing workspace. */
  predicate MappingTargetResolves(config: WorkspaceConfig, j: nat)
    requires j < |config.keyboardMappings|
  {
    config.keyboardMappings[j].targetId.None? || config.keyboardMappings[j].targetId.value in WorkspaceIds(config.workspaces)
  }

  /** `validate_cross_references`: the first workspace with a missing pattern, else the first
      mapping with a missing target, fails the configuration. */
  function ValidateCrossReferences(config: WorkspaceConfig): (r: Outcome<ParseError>)
    ensures r.Pass? <==> ReferencesResolve(config)
    ensures r.Fail? && r.error.MissingTilingPattern? ==>
              && r.error.patternId !in PatternIds(config.patterns)
              && exists i :: && 0 <= i < |config.workspaces|
                             && config.workspaces[i].name == r.error.workspaceName
                             && config.workspaces[i].tilingPatternId == r.error.patternId
                             && forall j :: 0 <= j < i ==> config.workspaces[j].tilingPatternId in PatternIds(config.patterns)
    ensures r.Fail? && r.error.MissingTargetWorkspace? ==>
              && r.error.targetId !in WorkspaceIds(config.workspaces)
              && (forall i :: 0 <= i < |config.workspaces| ==> config.workspaces[i].tilingPatternId in PatternIds(config.patterns))
              && exists i :: && 0 <= i < |config.keyboardMappings|
                             && config.keyboardMappings[i].targetId == Some(r.error.targetId)
                             && forall j :: 0 <= j < i ==> MappingTargetResolves(config, j)
    ensures r.Fail? ==> r.error.MissingTilingPattern? || r.error.MissingTargetWorkspace?
  {
    var patternIds := PatternIds(config.patterns);
    var workspaceIds := WorkspaceIds(config.workspaces);
    match FirstWhere(config.workspaces, (w: WS.Workspace) => w.tilingPatternId !in patternIds)
    case Some(i) =>
      Fail(MissingTilingPattern(config.workspaces[i].name, config.workspaces[i].tilingPatternId))
    case None =>
      match FirstWhere(config.keyboardMappings, (m: ParsedMapping) => m.targetId.Some? && m.targetId.value !in workspaceIds)
      case Some(i) => Fail(MissingTargetWorkspace(config.keyboardMappings[i].targetId.value))
      case None => Pass
  }

  /** `validate_config`: workspaces, patterns, keyboard mappings, application profiles,
      monitor configurations, then cross references, stopping at the first failure. */
  method ValidateConfig(config: WorkspaceConfig) returns (r: Outcome<ParseError>, warnings: seq<MigrationWarning>)
    ensures r.Pass? <==>
              && (forall k :: 0 <= k < |config.workspaces| ==> WorkspaceProblem(config.workspaces, k).None?)
              && ValidatePatterns(config.patterns).Pass?
              && (forall k :: 0 <= k < |config.keyboardMappings| ==> MappingProblem(config.keyboardMappings, k).None?)
              && AP.DistinctBundles(config.applicationProfiles)
              && ValidateMonitorConfigurations(config.monitorConfigs).Pass?
              && ReferencesResolve(config)
    ensures r.Pass? ==> warnings == CommandWarnings(config.keyboardMappings)
  {
    warnings := [];
    r := ValidateWorkspaces(config.workspaces);
    if r.Fail? { return; }
    r := ValidatePatterns(config.patterns);
    if r.Fail? { return; }
    r, warnings := ValidateKeyboardMappings(config.keyboardMappings);
    if r.Fail? { return; }
    r := ValidateApplicationProfiles(config.applicationProfiles);
    if r.Fail? { return; }
    r := ValidateMonitorConfigurations(config.monitorConfigs);
    if r.Fail? { return; }
    r := ValidateCrossReferences(config);
  }
}
