/** Window rules: how the windows of one application (chosen by an exact identifier or a
  glob) are placed, stacked and focused within a workspace.

  Window-title patterns are regular expressions. Regular expressions are not modelled:
  the operations that use them take two parameters standing for the regex engine, one
  saying whether a pattern compiles and one saying whether a compiled pattern matches a
  title.
 */
module WindowRules {
  import opened Wrappers
  import opened Core
  import opened Text

  datatype PositioningRule = Auto | Fixed | Floating | Fullscreen

  datatype FocusBehavior = Never | OnCreate | OnSwitch

  datatype FocusContext = WindowCreated | WorkspaceSwitch

  datatype FixedGeometry = FixedGeometry(x: i32, y: i32, width: u32, height: u32)

  datatype WindowRule = WindowRule(
    id: Uuid,
    workspaceId: Uuid,
    applicationIdentifier: string,
    windowTitlePattern: Option<string>,
    positioningRule: PositioningRule,
    fixedGeometry: Option<FixedGeometry>,
    zOrderPriority: u32,
    focusBehavior: FocusBehavior,
    applicationProfileId: Option<Uuid>)

  /** `WindowRuleError`. The regex engine's message is not modelled. */
  datatype WindowRuleError =
    | EmptyApplicationIdentifier
    | EmptyWindowTitlePattern
    | InvalidRegexPattern(pattern: string)
    | MissingFixedGeometry
    | InvalidGeometryDimensions
    | GeometryOutOfBounds

  // ---------------------------------------------------------------------------
  // Glob matching
  // ---------------------------------------------------------------------------

  predicate HasWildcard(s: string) {
    '*' in s || '?' in s
  }

  /** The number of `*` in a glob: the only characters that may match no text. */
  function Stars(pattern: string): (n: nat)
    ensures n <= |pattern|
    ensures n == 0 <==> '*' !in pattern
  {
    if |pattern| == 0 then 0 else (if pattern[0] == '*' then 1 else 0) + Stars(pattern[1..])
  }

  /** `glob_match`: the identifier becomes the anchored regex in which `*` is `.*`, `?` is
      `.` and every other character stands for itself. A regex `.` matches any
      character except a line feed. */
  function GlobMatch(pattern: string, text: string): (r: bool)
    ensures r ==> |pattern| <= |text| + Stars(pattern)
    ensures r && Stars(pattern) == 0 ==> |text| == |pattern|
    decreases |pattern| + |text|
  {
    if |pattern| == 0 then |text| == 0
    else if pattern[0] == '*' then
      GlobMatch(pattern[1..], text) || (|text| > 0 && text[0] != '\n' && GlobMatch(pattern, text[1..]))
    else if pattern[0] == '?' then
      |text| > 0 && text[0] != '\n' && GlobMatch(pattern[1..], text[1..])
    else
      |text| > 0 && text[0] == pattern[0] && GlobMatch(pattern[1..], text[1..])
  }

  /** Without wildcards a glob matches exactly the identifier itself. */
  lemma {:induction false} GlobWithoutWildcardsIsEquality(pattern: string, text: string)
    requires !HasWildcard(pattern)
    ensures GlobMatch(pattern, text) <==> pattern == text
    decreases |pattern|
  {
    if |pattern| > 0 && |text| > 0 {
      assert !HasWildcard(pattern[1..]) by {
        assert forall c :: c in pattern[1..] ==> c in pattern;
      }
      GlobWithoutWildcardsIsEquality(pattern[1..], text[1..]);
      if pattern == text {
        assert pattern[1..] == text[1..];
      } else if pattern[0] == text[0] {
        assert pattern == [pattern[0]] + pattern[1..] && text == [text[0]] + text[1..];
      }
    }
  }

  /** Every glob matches its own text: a `*` can match itself, and so can a `?`. */
  lemma {:induction false} GlobMatchesItself(pattern: string)
    ensures GlobMatch(pattern, pattern)
    decreases |pattern|
  {
    if |pattern| > 0 {
      GlobMatchesItself(pattern[1..]);
      if pattern[0] == '*' {
        assert GlobMatch(pattern, pattern[1..]) by {
          assert GlobMatch(pattern[1..], pattern[1..]);
        }
      }
    }
  }

  /** A `*` followed by the rest of a glob matches any line-free prefix before a match of
      the rest. */
  lemma {:induction false} StarSkipsPrefix(rest: string, prefix: string, text: string)
    requires '\n' !in prefix && GlobMatch(rest, text)
    ensures GlobMatch(['*'] + rest, prefix + text)
    decreases |prefix|
  {
    var pattern := ['*'] + rest;
    assert pattern[1..] == rest;
    if |prefix| > 0 {
      StarSkipsPrefix(rest, prefix[1..], text);
      assert (prefix + text)[1..] == prefix[1..] + text;
      assert (prefix + text)[0] == prefix[0] && prefix[0] in prefix;
    } else {
      assert prefix + text == text;
    }
  }

  /** A lone `*` matches exactly the texts without a line feed. */
  lemma {:induction false} StarAlone(text: string)
    ensures GlobMatch("*", text) <==> '\n' !in text
    decreases |text|
  {
    assert "*"[1..] == "";
    if |text| > 0 {
      StarAlone(text[1..]);
      assert text == [text[0]] + text[1..];
    }
  }

  /** A literal followed by `*` matches exactly the texts that start with the literal and
      continue without a line feed: `com.apple.*` matches every Apple bundle id. */
  lemma {:induction false} PrefixStar(literal: string, text: string)
    requires !HasWildcard(literal)
    ensures GlobMatch(literal + "*", text) <==> StartsWith(text, literal) && '\n' !in text[|literal|..]
    decreases |literal|
  {
    if |literal| == 0 {
      assert literal + "*" == "*";
      StarAlone(text);
    } else {
      var pattern := literal + "*";
      assert pattern[0] == literal[0] && pattern[1..] == literal[1..] + "*";
      assert !HasWildcard(literal[1..]) by {
        assert forall c :: c in literal[1..] ==> c in literal;
      }
      assert literal[0] != '*' && literal[0] != '?' by { assert literal[0] in literal; }
      if |text| > 0 {
        PrefixStar(literal[1..], text[1..]);
        if StartsWith(text, literal) {
          assert text[1..][..|literal| - 1] == literal[1..];
          assert text[1..][|literal| - 1..] == text[|literal|..];
        }
        if text[0] == literal[0] && StartsWith(text[1..], literal[1..]) {
          assert text[..|literal|] == [text[0]] + text[1..][..|literal| - 1];
          assert text[1..][|literal| - 1..] == text[|literal|..];
        }
      }
    }
  }

  /** An identifier matches the rule's application identifier: by glob when it holds a
      wildcard, by equality otherwise. */
  function AppMatches(ruleIdentifier: string, appIdentifier: string): (r: bool)
    ensures ruleIdentifier == appIdentifier ==> r
    ensures r && Stars(ruleIdentifier) == 0 ==> |appIdentifier| == |ruleIdentifier|
  {
    GlobMatchesItself(ruleIdentifier);
    if HasWildcard(ruleIdentifier) then GlobMatch(ruleIdentifier, appIdentifier)
    else ruleIdentifier == appIdentifier
  }

  /** Either way, an application identifier without wildcards matches only itself. */
  lemma AppMatchesExact(ruleIdentifier: string, appIdentifier: string)
    requires !HasWildcard(ruleIdentifier)
    ensures AppMatches(ruleIdentifier, appIdentifier) <==> ruleIdentifier == appIdentifier
  {
  }

  /** The glob `com.apple.*` takes in every Apple application and not Chrome. */
  lemma ExampleAppleGlob(name: string)
    requires '\n' !in name
    ensures AppMatches("com.apple.*", "com.apple." + name)
    ensures !AppMatches("com.apple.*", "com.google.Chrome")
  {
    AppleGlobIsPrefixStar();
    var literal := "com.apple.";
    PrefixStar(literal, literal + name);
    assert (literal + name)[..|literal|] == literal;
    assert (literal + name)[|literal|..] == name;
    AppleGlobRejectsChrome();
  }

  /** `com.apple.*` is the wildcard-free literal `com.apple.` followed by a star. */
  lemma AppleGlobIsPrefixStar()
    ensures "com.apple.*" == "com.apple." + "*"
    ensures HasWildcard("com.apple.*") && !HasWildcard("com.apple.")
  {
    var literal := "com.apple.";
    assert "com.apple.*" == literal + "*";
    assert ("com.apple.*")[10] == '*';
    assert !HasWildcard(literal) by {
      forall k | 0 <= k < |literal| ensures literal[k] != '*' && literal[k] != '?' { }
    }
  }

  lemma AppleGlobRejectsChrome()
    ensures !AppMatches("com.apple.*", "com.google.Chrome")
  {
    AppleGlobIsPrefixStar();
    var literal := "com.apple.";
    PrefixStar(literal, "com.google.Chrome");
    assert "com.google.Chrome"[4] != literal[4];
  }

  // ---------------------------------------------------------------------------
  // Matching, geometry and focus
  // ---------------------------------------------------------------------------

  /** `matches`. A rule that does not match the application does not match. A title
      pattern, when set, must match the given title; with no title given it does not
      match. A title pattern that does not compile is an error. */
  function Matches(rule: WindowRule, appIdentifier: string, title: Option<string>,
                   regexValid: string -> bool, regexMatches: (string, string) -> bool)
    : (r: Result<bool, WindowRuleError>)
    ensures !AppMatches(rule.applicationIdentifier, appIdentifier) ==> r == Ok(false)
    ensures rule.windowTitlePattern.None? ==> r == Ok(AppMatches(rule.applicationIdentifier, appIdentifier))
    ensures rule.windowTitlePattern.Some? && title.None? ==> r == Ok(false)
    ensures r.Err? <==> && AppMatches(rule.applicationIdentifier, appIdentifier)
                        && rule.windowTitlePattern.Some? && title.Some?
                        && !regexValid(rule.windowTitlePattern.value)
    ensures r.Err? ==> r.error == InvalidRegexPattern(rule.windowTitlePattern.value)
    ensures r == Ok(true) <==> && AppMatches(rule.applicationIdentifier, appIdentifier)
                               && match rule.windowTitlePattern
                                  case None => true
                                  case Some(p) => title.Some? && regexValid(p) && regexMatches(p, title.value)
  {
    if !AppMatches(rule.applicationIdentifier, appIdentifier) then Ok(false)
    else
      match rule.windowTitlePattern
      case None => Ok(true)
      case Some(p) =>
        match title
        case None => Ok(false)
        case Some(t) => if regexValid(p) then Ok(regexMatches(p, t)) else Err(InvalidRegexPattern(p))
  }

  /** `get_effective_geometry`: only a fixed rule has a geometry, its own or else the
      default. */
  function EffectiveGeometry(rule: WindowRule, default: Option<FixedGeometry>): (r: Option<FixedGeometry>)
    ensures rule.positioningRule != Fixed ==> r.None?
    ensures rule.positioningRule == Fixed && rule.fixedGeometry.Some? ==> r == rule.fixedGeometry
    ensures rule.positioningRule == Fixed && rule.fixedGeometry.None? ==> r == default
  {
    if rule.positioningRule == Fixed then
      if rule.fixedGeometry.Some? then rule.fixedGeometry else default
    else None
  }

  /** `has_z_order_priority`. */
  function HasZOrderPriority(rule: WindowRule): (r: bool)
    ensures r <==> rule.zOrderPriority != 0
  {
    rule.zOrderPriority > 0
  }

  /** `should_auto_focus`. */
  function ShouldAutoFocus(rule: WindowRule, context: FocusContext): (r: bool)
    ensures r <==> (rule.focusBehavior == OnCreate && context == WindowCreated)
                   || (rule.focusBehavior == OnSwitch && context == WorkspaceSwitch)
  {
    match context
    case WindowCreated => rule.focusBehavior == OnCreate
    case WorkspaceSwitch => rule.focusBehavior == OnSwitch
  }

  /** A rule auto-focuses in at most one of the two contexts, and a `Never` rule in none. */
  lemma AutoFocusAtMostOnce(rule: WindowRule)
    ensures !(ShouldAutoFocus(rule, WindowCreated) && ShouldAutoFocus(rule, WorkspaceSwitch))
    ensures rule.focusBehavior == Never ==> !ShouldAutoFocus(rule, WindowCreated) && !ShouldAutoFocus(rule, WorkspaceSwitch)
  {
  }

  // ---------------------------------------------------------------------------
  // Validation and construction
  // ---------------------------------------------------------------------------

  /** `validate`. The checks run in this order: a blank application identifier, a blank
      or non-compiling title pattern, a fixed rule without geometry, a geometry with a
      zero side. */
  function Validate(rule: WindowRule, regexValid: string -> bool): (r: Outcome<WindowRuleError>)
    ensures r.Pass? <==> && !IsBlank(rule.applicationIdentifier)
                         && (rule.windowTitlePattern.Some? ==>
                               !IsBlank(rule.windowTitlePattern.value) && regexValid(rule.windowTitlePattern.value))
                         && (rule.positioningRule == Fixed ==> rule.fixedGeometry.Some?)
                         && (rule.fixedGeometry.Some? ==>
                               rule.fixedGeometry.value.width > 0 && rule.fixedGeometry.value.height > 0)
    ensures IsBlank(rule.applicationIdentifier) ==> r == Fail(EmptyApplicationIdentifier)
    ensures r.Fail? ==> !r.error.GeometryOutOfBounds?
  {
    if IsBlank(rule.applicationIdentifier) then Fail(EmptyApplicationIdentifier)
    else if rule.windowTitlePattern.Some? && IsBlank(rule.windowTitlePattern.value) then Fail(EmptyWindowTitlePattern)
    else if rule.windowTitlePattern.Some? && !regexValid(rule.windowTitlePattern.value) then
      Fail(InvalidRegexPattern(rule.windowTitlePattern.value))
    else if rule.positioningRule == Fixed && rule.fixedGeometry.None? then Fail(MissingFixedGeometry)
    else if rule.fixedGeometry.Some? && (rule.fixedGeometry.value.width == 0 || rule.fixedGeometry.value.height == 0) then
      Fail(InvalidGeometryDimensions)
    else Pass
  }

  /** `WindowRule::new`: the rule under a fresh id, if it validates. */
  function New(freshId: Uuid, workspaceId: Uuid, applicationIdentifier: string, titlePattern: Option<string>,
               positioning: PositioningRule, geometry: Option<FixedGeometry>, zOrder: u32,
               focus: FocusBehavior, profileId: Option<Uuid>, regexValid: string -> bool)
    : (r: Result<WindowRule, WindowRuleError>)
    ensures r.Ok? <==> && !IsBlank(applicationIdentifier)
                       && (titlePattern.Some? ==> !IsBlank(titlePattern.value) && regexValid(titlePattern.value))
                       && (positioning == Fixed ==> geometry.Some?)
                       && (geometry.Some? ==> geometry.value.width > 0 && geometry.value.height > 0)
    ensures r.Ok? ==> r.value == WindowRule(freshId, workspaceId, applicationIdentifier, titlePattern, positioning,
                                            geometry, zOrder, focus, profileId)
    ensures IsBlank(applicationIdentifier) ==> r == Err(EmptyApplicationIdentifier)
    ensures !IsBlank(applicationIdentifier) && titlePattern.None? && positioning == Fixed && geometry.None?
            ==> r == Err(MissingFixedGeometry)
  {
    var rule := WindowRule(freshId, workspaceId, applicationIdentifier, titlePattern, positioning, geometry,
                           zOrder, focus, profileId);
    match Validate(rule, regexValid)
    case Pass => Ok(rule)
    case Fail(e) => Err(e)
  }

  /** A valid fixed rule always has an effective geometry, and it is the rule's own. */
  lemma ValidFixedRuleHasGeometry(rule: WindowRule, regexValid: string -> bool, default: Option<FixedGeometry>)
    requires Validate(rule, regexValid).Pass? && rule.positioningRule == Fixed
    ensures EffectiveGeometry(rule, default) == rule.fixedGeometry
    ensures EffectiveGeometry(rule, default).Some?
    ensures EffectiveGeometry(rule, default).value.width > 0 && EffectiveGeometry(rule, default).value.height > 0
  {
  }

  /** `WindowRule::default`: a valid automatic rule for a placeholder application. */
  function DefaultRule(id: Uuid, workspaceId: Uuid): (r: WindowRule)
    ensures r.id == id && r.workspaceId == workspaceId
    ensures forall regexValid :: Validate(r, regexValid).Pass?
    ensures EffectiveGeometry(r, None).None?
    ensures !HasZOrderPriority(r)
    ensures ShouldAutoFocus(r, WindowCreated) == ShouldAutoFocus(r, WorkspaceSwitch) == false
  {
    var s := "com.example.app";
    assert !IsWhitespace(s[0]);
    assert !IsBlank(s) by { BlankIffAllWhitespace(s); }
    WindowRule(id, workspaceId, s, None, Auto, None, 0, Never, None)
  }
}
