/** A workspace: a named group of windows with a switching shortcut, a default tiling
  pattern and an `Inactive`/`Active`/`Modified` state. This module holds the request
  validators, construction, partial update and the state machine.
 */
module Workspaces {
  import opened Wrappers
  import opened Core
  import opened Text

  datatype WorkspaceState = Inactive | Active | Modified

  /** Timestamps are plain integers supplied by the caller. */
  datatype Workspace = Workspace(
    id: Uuid,
    name: string,
    description: Option<string>,
    keyboardShortcut: string,
    tilingPatternId: Uuid,
    monitorAssignments: map<string, string>,
    autoArrange: bool,
    createdAt: int,
    lastUsed: Option<int>,
    state: WorkspaceState)

  datatype CreateRequest = CreateRequest(
    name: string,
    description: Option<string>,
    keyboardShortcut: string,
    tilingPatternId: Option<Uuid>,
    autoArrange: Option<bool>)

  datatype UpdateRequest = UpdateRequest(
    name: Option<string>,
    description: Option<string>,
    keyboardShortcut: Option<string>,
    tilingPatternId: Option<Uuid>,
    autoArrange: Option<bool>)

  /** The reasons a request is refused; the code reports each as a `ValidationError`. */
  datatype WorkspaceError =
    | EmptyName
    | NameTooLong
    | EmptyShortcut
    | MissingModifierOrKey
    | InvalidModifier(modifier: string)
    | InvalidKey(key: string)
    | DescriptionTooLong

  /** Limits, in UTF-8 bytes as `str::len` counts them. */
  const MaxNameBytes: nat := 100
  const MaxDescriptionBytes: nat := 500

  // ---------------------------------------------------------------------------
  // Textual shortcuts such as "ctrl+opt+F1"
  // ---------------------------------------------------------------------------

  const ModifierWords: seq<string> := ["cmd", "ctrl", "opt", "shift"]

  /** The last part: non-empty, and either all alphanumeric or starting with 'F'. */
  predicate KeyWordIsValid(k: string) {
    |k| > 0 && ((forall i :: 0 <= i < |k| ==> IsAsciiAlphanumeric(k[i])) || k[0] == 'F')
  }

  /** The first part that is not a modifier word, if any. */
  function FirstInvalidModifier(parts: seq<string>): (r: Option<string>)
    ensures r.None? <==> forall i :: 0 <= i < |parts| ==> parts[i] in ModifierWords
    ensures r.Some? ==> r.value !in ModifierWords
    ensures r.Some? ==> exists i :: 0 <= i < |parts| && parts[i] == r.value
                                   && forall j :: 0 <= j < i ==> parts[j] in ModifierWords
  {
    if |parts| == 0 then None
    else if parts[0] !in ModifierWords then Some(parts[0])
    else
      var r := FirstInvalidModifier(parts[1..]);
      if r.Some? then
        var i :| 0 <= i < |parts[1..]| && parts[1..][i] == r.value
          && forall j :: 0 <= j < i ==> parts[1..][j] in ModifierWords;
        assert parts[i + 1] == r.value;
        r
      else r
  }

  /** `validate_keyboard_shortcut`: checks emptiness, then the number of '+'-separated
      parts, then every modifier in order, then the key. */
  function ValidateKeyboardShortcut(s: string): (r: Outcome<WorkspaceError>)
    ensures r == Fail(EmptyShortcut) <==> |s| == 0
    ensures r == Fail(MissingModifierOrKey) <==> |s| > 0 && '+' !in s
    ensures r.Fail? && r.error.InvalidModifier? ==> r.error.modifier !in ModifierWords
    ensures r.Fail? && r.error.InvalidKey? ==> !KeyWordIsValid(r.error.key)
  {
    if |s| == 0 then Fail(EmptyShortcut)
    else
      var parts := Split(s, '+');
      SplitSingle(s, '+');
      if |parts| < 2 then
        Fail(MissingModifierOrKey)
      else
        match FirstInvalidModifier(parts[..|parts| - 1])
        case Some(p) => Fail(InvalidModifier(p))
        case None =>
          var key := parts[|parts| - 1];
          if KeyWordIsValid(key) then Pass else Fail(InvalidKey(key))
  }

  /** The accepted shape: one or more modifier words and a valid key. */
  predicate ShortcutShape(mods: seq<string>, key: string) {
    && |mods| >= 1
    && (forall i :: 0 <= i < |mods| ==> mods[i] in ModifierWords)
    && KeyWordIsValid(key)
    && '+' !in key
  }

  /** The shortcut text written for `mods` and `key`. */
  function Compose(mods: seq<string>, key: string): string {
    Join(mods + [key], '+')
  }

  /** Independent description of a valid shortcut: it is written from some accepted shape. */
  ghost predicate WellFormedShortcut(s: string) {
    exists mods, key :: ShortcutShape(mods, key) && Compose(mods, key) == s
  }

  lemma ModifierWordsHaveNoPlus()
    ensures forall i :: 0 <= i < |ModifierWords| ==> '+' !in ModifierWords[i]
  {
    assert ModifierWords[0] == "cmd" && ModifierWords[1] == "ctrl";
    assert ModifierWords[2] == "opt" && ModifierWords[3] == "shift";
  }

  /** A shortcut passes validation exactly when it is written from an accepted shape. */
  lemma ValidateShortcutIff(s: string)
    ensures ValidateKeyboardShortcut(s).Pass? <==> WellFormedShortcut(s)
  {
    var parts := Split(s, '+');
    if ValidateKeyboardShortcut(s).Pass? {
      var mods := parts[..|parts| - 1];
      var key := parts[|parts| - 1];
      assert mods + [key] == parts;
      JoinSplit(s, '+');
      assert ShortcutShape(mods, key) && Compose(mods, key) == s;
    }
    if WellFormedShortcut(s) {
      var mods, key :| ShortcutShape(mods, key) && Compose(mods, key) == s;
      var ps := mods + [key];
      ModifierWordsHaveNoPlus();
      forall i | 0 <= i < |ps| ensures '+' !in ps[i] {
        if i < |mods| {
          assert ps[i] == mods[i];
          var k :| 0 <= k < |ModifierWords| && ModifierWords[k] == mods[i];
        }
      }
      SplitJoin(ps, '+');
      assert parts == ps;
      assert s == mods[0] + ['+'] + Join(ps[1..], '+');
      assert parts[..|parts| - 1] == mods;
    }
  }

  /** "cmd+1", from the workspace tests, is accepted. */
  lemma ExampleCmd1()
    ensures ValidateKeyboardShortcut("cmd+1").Pass?
  {
    assert ["cmd"] + ["1"] == ["cmd", "1"];
    assert Compose(["cmd"], "1") == Join(["cmd", "1"], '+');
    assert ShortcutShape(["cmd"], "1") && Compose(["cmd"], "1") == "cmd+1";
    ValidateShortcutIff("cmd+1");
  }

  /** "ctrl+opt+F1", from the workspace tests, is accepted. */
  lemma ExampleCtrlOptF1()
    ensures ValidateKeyboardShortcut("ctrl+opt+F1").Pass?
  {
    assert ["ctrl", "opt"] + ["F1"] == ["ctrl", "opt", "F1"];
    assert Compose(["ctrl", "opt"], "F1") == Join(["ctrl", "opt", "F1"], '+');
    assert ShortcutShape(["ctrl", "opt"], "F1") && Compose(["ctrl", "opt"], "F1") == "ctrl+opt+F1";
    ValidateShortcutIff("ctrl+opt+F1");
  }

  /** "" and "cmd", from the workspace tests, are refused for their shape. */
  lemma ExampleEmptyAndBare()
    ensures ValidateKeyboardShortcut("") == Fail(EmptyShortcut)
    ensures ValidateKeyboardShortcut("cmd") == Fail(MissingModifierOrKey)
  {
  }

  /** A single word outside the modifier words, before the key, is the modifier reported. */
  lemma UnknownModifierRefused(modifier: string, key: string)
    requires '+' !in modifier && '+' !in key && modifier !in ModifierWords
    ensures ValidateKeyboardShortcut(modifier + "+" + key) == Fail(InvalidModifier(modifier))
  {
    var s := modifier + "+" + key;
    assert s == modifier + ['+'] + key;
    SplitCons(modifier, key, '+');
    SplitSingle(key, '+');
    var parts := Split(s, '+');
    assert parts == [modifier, key];
    assert parts[..|parts| - 1] == [modifier];
  }

  /** "invalid+1", from the workspace tests, is refused for its modifier. */
  lemma ExampleInvalidModifier()
    ensures ValidateKeyboardShortcut("invalid+1") == Fail(InvalidModifier("invalid"))
  {
    var modifier := "invalid";
    assert '+' !in modifier by {
      forall k | 0 <= k < |modifier| ensures modifier[k] != '+' { }
    }
    assert modifier !in ModifierWords by {
      assert |modifier| == 7;
      forall k | 0 <= k < |ModifierWords| ensures |ModifierWords[k]| < 7 { }
    }
    UnknownModifierRefused(modifier, "1");
    assert modifier + "+" + "1" == "invalid+1";
  }

  /** "cmd+", from the workspace tests, is refused for its empty key. */
  lemma ExampleEmptyKey()
    ensures ValidateKeyboardShortcut("cmd+") == Fail(InvalidKey(""))
  {
    SplitJoin(["cmd", ""], '+');
    assert Join(["cmd", ""], '+') == "cmd+";
  }

  // ---------------------------------------------------------------------------
  // Requests
  // ---------------------------------------------------------------------------

  predicate DescriptionFits(d: Option<string>) {
    d.Some? ==> Utf8Len(d.value) <= MaxDescriptionBytes
  }

  predicate NameIsValid(n: string) {
    !AllWhitespace(n) && Utf8Len(n) <= MaxNameBytes
  }

  /** The name checks shared by both validators: blank first, then length. */
  function ValidateName(n: string): (r: Outcome<WorkspaceError>)
    ensures r.Pass? <==> NameIsValid(n)
    ensures r.Fail? ==> r.error == (if AllWhitespace(n) then EmptyName else NameTooLong)
  {
    BlankIffAllWhitespace(n);
    if IsBlank(n) then Fail(EmptyName)
    else if Utf8Len(n) > MaxNameBytes then Fail(NameTooLong)
    else Pass
  }

  ghost predicate CreateRequestIsValid(req: CreateRequest) {
    NameIsValid(req.name) && WellFormedShortcut(req.keyboardShortcut) && DescriptionFits(req.description)
  }

  /** `validate_create_request`: name, then shortcut, then description. */
  function ValidateCreateRequest(req: CreateRequest): (r: Outcome<WorkspaceError>)
    ensures r.Pass? <==> CreateRequestIsValid(req)
    ensures !NameIsValid(req.name) ==> r == ValidateName(req.name)
    ensures NameIsValid(req.name) && !WellFormedShortcut(req.keyboardShortcut)
            ==> r == ValidateKeyboardShortcut(req.keyboardShortcut)
    ensures NameIsValid(req.name) && WellFormedShortcut(req.keyboardShortcut) && !DescriptionFits(req.description)
            ==> r == Fail(DescriptionTooLong)
  {
    ValidateShortcutIff(req.keyboardShortcut);
    if ValidateName(req.name).Fail? then ValidateName(req.name)
    else if ValidateKeyboardShortcut(req.keyboardShortcut).Fail? then ValidateKeyboardShortcut(req.keyboardShortcut)
    else if !DescriptionFits(req.description) then Fail(DescriptionTooLong)
    else Pass
  }

  ghost predicate UpdateRequestIsValid(req: UpdateRequest) {
    && (req.name.Some? ==> NameIsValid(req.name.value))
    && (req.keyboardShortcut.Some? ==> WellFormedShortcut(req.keyboardShortcut.value))
    && DescriptionFits(req.description)
  }

  /** `validate_update_request`: the same checks, applied only to the fields given. */
  function ValidateUpdateRequest(req: UpdateRequest): (r: Outcome<WorkspaceError>)
    ensures r.Pass? <==> UpdateRequestIsValid(req)
    ensures req.name.Some? && !NameIsValid(req.name.value) ==> r == ValidateName(req.name.value)
  {
    if req.name.Some? && ValidateName(req.name.value).Fail? then ValidateName(req.name.value)
    else if req.keyboardShortcut.Some? && ValidateKeyboardShortcut(req.keyboardShortcut.value).Fail? then
      ValidateShortcutIff(req.keyboardShortcut.value);
      ValidateKeyboardShortcut(req.keyboardShortcut.value)
    else if !DescriptionFits(req.description) then Fail(DescriptionTooLong)
    else
      assert req.keyboardShortcut.Some? ==> WellFormedShortcut(req.keyboardShortcut.value) by {
        if req.keyboardShortcut.Some? { ValidateShortcutIff(req.keyboardShortcut.value); }
      }
      Pass
  }

  /** What every stored workspace satisfies. */
  ghost predicate WorkspaceIsValid(w: Workspace) {
    NameIsValid(w.name) && WellFormedShortcut(w.keyboardShortcut) && DescriptionFits(w.description)
  }

  /** Once active, a workspace has a last-use time. */
  predicate StateConsistent(w: Workspace) {
    w.state != Inactive ==> w.lastUsed.Some?
  }

  /** `Workspace::new` with the fresh id and the current time supplied by the caller. */
  function NewWorkspace(req: CreateRequest, defaultPatternId: Uuid, freshId: Uuid, now: int)
    : (r: Result<Workspace, WorkspaceError>)
    ensures r.Ok? <==> CreateRequestIsValid(req)
    ensures r.Err? ==> Fail(r.error) == ValidateCreateRequest(req)
    ensures r.Ok? ==> && r.value.id == freshId
                      && r.value.name == req.name
                      && r.value.description == req.description
                      && r.value.keyboardShortcut == req.keyboardShortcut
                      && r.value.tilingPatternId == req.tilingPatternId.GetOr(defaultPatternId)
                      && r.value.autoArrange == req.autoArrange.GetOr(true)
                      && r.value.monitorAssignments == map[]
                      && r.value.createdAt == now
                      && r.value.lastUsed == None
                      && r.value.state == Inactive
    ensures r.Ok? ==> WorkspaceIsValid(r.value) && StateConsistent(r.value)
  {
    match ValidateCreateRequest(req)
    case Fail(e) => Err(e)
    case Pass =>
      Ok(Workspace(freshId, req.name, req.description, req.keyboardShortcut,
                   req.tilingPatternId.GetOr(defaultPatternId), map[],
                   req.autoArrange.GetOr(true), now, None, Inactive))
  }

  /** `Workspace::update`: the workspace after the call, and the outcome. On failure the
      workspace is returned untouched; on success each field given in the request replaces
      the stored one and nothing else changes. */
  function Update(w: Workspace, req: UpdateRequest): (r: (Workspace, Outcome<WorkspaceError>))
    ensures r.1.Pass? <==> UpdateRequestIsValid(req)
    ensures r.1.Fail? ==> r.0 == w
    ensures r.1.Pass? ==> && r.0.name == req.name.GetOr(w.name)
                          && r.0.description == (if req.description.Some? then req.description else w.description)
                          && r.0.keyboardShortcut == req.keyboardShortcut.GetOr(w.keyboardShortcut)
                          && r.0.tilingPatternId == req.tilingPatternId.GetOr(w.tilingPatternId)
                          && r.0.autoArrange == req.autoArrange.GetOr(w.autoArrange)
    ensures r.0.id == w.id && r.0.createdAt == w.createdAt && r.0.lastUsed == w.lastUsed
            && r.0.state == w.state && r.0.monitorAssignments == w.monitorAssignments
  {
    match ValidateUpdateRequest(req)
    case Fail(e) => (w, Fail(e))
    case Pass =>
      var w1 := if req.name.Some? then w.(name := req.name.value) else w;
      var w2 := if req.description.Some? then w1.(description := req.description) else w1;
      var w3 := if req.keyboardShortcut.Some? then w2.(keyboardShortcut := req.keyboardShortcut.value) else w2;
      var w4 := if req.tilingPatternId.Some? then w3.(tilingPatternId := req.tilingPatternId.value) else w3;
      var w5 := if req.autoArrange.Some? then w4.(autoArrange := req.autoArrange.value) else w4;
      (w5, Pass)
  }

  /** A valid workspace stays valid through any update, accepted or refused. */
  lemma UpdatePreservesValid(w: Workspace, req: UpdateRequest)
    requires WorkspaceIsValid(w) && StateConsistent(w)
    ensures WorkspaceIsValid(Update(w, req).0) && StateConsistent(Update(w, req).0)
  {
  }

  /** Applying the same update twice is the same as applying it once. */
  lemma UpdateIdempotent(w: Workspace, req: UpdateRequest)
    ensures Update(Update(w, req).0, req).0 == Update(w, req).0
  {
  }

  /** An update that gives no field succeeds and changes nothing. */
  lemma EmptyUpdateIsIdentity(w: Workspace)
    ensures Update(w, UpdateRequest(None, None, None, None, None)) == (w, Pass)
  {
  }

  // ---------------------------------------------------------------------------
  // State machine
  // ---------------------------------------------------------------------------

  /** Everything but the state and the last-use time. */
  predicate SameConfiguration(a: Workspace, b: Workspace) {
    a.(state := Inactive, lastUsed := None) == b.(state := Inactive, lastUsed := None)
  }

  /** `is_active`: true in `Active` only, not in `Modified`. */
  function IsActive(w: Workspace): (r: bool)
    ensures r && StateConsistent(w) ==> w.lastUsed.Some?
  {
    w.state == Active
  }

  /** `activate`: from any state to `Active`, stamping the last use. */
  function Activate(w: Workspace, now: int): (r: Workspace)
    ensures IsActive(r) && r.lastUsed == Some(now)
    ensures SameConfiguration(r, w)
    ensures StateConsistent(r)
  {
    w.(state := Active, lastUsed := Some(now))
  }

  /** `deactivate`: `Active` and `Modified` become `Inactive`; `Inactive` stays. */
  function Deactivate(w: Workspace): (r: Workspace)
    ensures r.state == Inactive && !IsActive(r)
    ensures SameConfiguration(r, w) && r.lastUsed == w.lastUsed
    ensures w.state == Inactive ==> r == w
  {
    if w.state.Active? || w.state.Modified? then w.(state := Inactive) else w
  }

  /** `mark_modified`: only an `Active` workspace becomes `Modified`. */
  function MarkModified(w: Workspace): (r: Workspace)
    ensures r.state == Modified <==> w.state == Active || w.state == Modified
    ensures w.state != Active ==> r == w
    ensures !IsActive(r)
    ensures SameConfiguration(r, w) && r.lastUsed == w.lastUsed
  {
    if w.state.Active? then w.(state := Modified) else w
  }

  /** Every transition keeps the state consistent with the last-use time. */
  lemma TransitionsPreserveConsistency(w: Workspace, now: int)
    requires StateConsistent(w)
    ensures StateConsistent(Activate(w, now))
    ensures StateConsistent(Deactivate(w))
    ensures StateConsistent(MarkModified(w))
  {
  }

  /** `Modified` is reachable only through `Active`: marking a workspace that was never
      activated leaves it inactive. */
  lemma ModifiedNeedsActivation(w: Workspace)
    requires w.state == Inactive
    ensures MarkModified(w).state == Inactive
    ensures Deactivate(MarkModified(w)) == w
  {
  }

  /** The life cycle of the workspace tests: activate, mark modified, deactivate. */
  lemma LifeCycle(w: Workspace, now: int)
    requires w.state == Inactive
    ensures var a := Activate(w, now);
            var m := MarkModified(a);
            var d := Deactivate(m);
            IsActive(a) && m.state == Modified && !IsActive(m) && d.state == Inactive
            && d.lastUsed == Some(now) && SameConfiguration(d, w)
  {
  }
}
