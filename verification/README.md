# tillers, modelled in Dafny

tillers is a keyboard-driven tiling window manager for macOS. This project models its
sequential control logic as immutable datatypes and pure state-transition functions,
and proves what that logic promises:

- **Keyboard shortcuts.** A shortcut combination is normalised by sorting and
  de-duplicating its modifiers, then validated. The mapping table keeps the invariant
  that no two enabled mappings with different ids share a combination. The keyboard
  handler forces the Option (⌥) modifier, refuses reserved shortcuts, and turns a
  pressed combination into the event of its mapping.
- **Workspaces.** Each workspace has an `Inactive`/`Active`/`Modified` life cycle and
  a textual shortcut validator. The workspace manager keeps names and shortcuts
  unique, enforces a capacity limit, and keeps an active-workspace pointer that always
  names an existing workspace.
- **Layouts.** The integer master-stack, grid and columns layouts of a tiling pattern
  are modelled over `int`. The tiling engine's same three layouts, computed in `f64`,
  are modelled over `real`.
- **Entity rules.**
  - Window rules: exact and glob application matching, effective geometry and focus.
  - Monitor configurations: monitor recognition, pattern choice, usable-area
    intersection, and the per-workspace configuration set.
  - Application profiles: detection rules, positioning, preferred patterns, and the
    profile set keyed by bundle id.
- **Configuration.**
  - The parser's fail-fast checks and its Command-to-Option shortcut migration.
  - The validator's thirty named rules, collected section by section.
  - The error-severity gate applied before a configuration is saved.
- **Coordination and resilience.**
  - The orchestrator's tileable-window filter, arrange guards, cyclic focus and
    shortcut dispatch.
  - The window manager's cache over the in-memory accessibility provider.
  - Error recovery: backoff, circuit breakers, strategy choice, the bounded retry
    loop, and the health summary.

Every `async` service method becomes one atomic step. It takes the service state as a
value and returns the next state with its answer. Values the program draws from
outside are parameters: fresh UUIDs, the clock, `HashMap` iteration order, and the
regex engine.

## Model

| member | source | states |
|---|---|---|
| KeyboardMappings.SortByName | src/models/keyboard_mapping.rs:287-289 | the modifiers come out ordered by variant name (Command, Control, Function, Option, Shift) and form a permutation of the input |
| KeyboardMappings.Dedup | src/models/keyboard_mapping.rs:290 | removing consecutive repeats keeps the same set of modifiers and the first one |
| KeyboardMappings.DedupStrictlySorted | src/models/keyboard_mapping.rs:289-290 | after sorting, removing consecutive repeats leaves no duplicate at all |
| KeyboardMappings.NewCombination | src/models/keyboard_mapping.rs:287-296 | the key is untouched; the modifiers are strictly ordered by name and are exactly the modifiers given |
| KeyboardMappings.NormalizeBySet | src/models/keyboard_mapping.rs:287-296 | two modifier lists with the same members give the same combination, whatever their order or repetition |
| KeyboardMappings.NormalizeIdempotent | src/models/keyboard_mapping.rs:287-296 | building a combination from an already built one changes nothing |
| KeyboardMappings.ValidateCombination | src/models/keyboard_mapping.rs:299-326 | an invalid key (non-ASCII-letter, number above 9, function key outside 1..12) is reported before an empty modifier list; otherwise it passes |
| KeyboardMappings.ActionParametersMatchTable | src/models/keyboard_mapping.rs:171-194 | the match arms accept exactly the action/parameter pairs of the compatibility table, and every action accepts at least one kind |
| KeyboardMappings.Validate | src/models/keyboard_mapping.rs:247-282 | failures come in source order: blank name, combination, action/parameter mismatch, zero resize amount, blank workspace name, blank monitor id; it passes exactly when every field check holds |
| KeyboardMappings.NewMapping | src/models/keyboard_mapping.rs:146-168 | a mapping with the fresh id is returned exactly when it validates, with every field as given |
| KeyboardMappings.ConflictsSymmetric | src/models/keyboard_mapping.rs:238-244 | conflict is symmetric and never holds between mappings with the same id |
| KeyboardMappings.FirstConflict | src/models/keyboard_mapping.rs:346-352 | finds the first stored mapping the new one conflicts with, or reports that there is none |
| KeyboardMappings.AddMapping | src/models/keyboard_mapping.rs:344-356 | refuses with ConflictingShortcut, changing nothing, exactly when some stored mapping conflicts; otherwise appends |
| KeyboardMappings.AddMappingPreservesConflictFree | src/models/keyboard_mapping.rs:344-356 | no two enabled mappings with different ids share a combination after a successful insert if none did before |
| KeyboardMappings.RemoveMapping | src/models/keyboard_mapping.rs:359-367 | returns true and drops exactly the first entry with the id, or returns false and leaves the set unchanged |
| KeyboardMappings.RemoveMappingPreservesConflictFree | src/models/keyboard_mapping.rs:359-367 | removing a mapping keeps the table conflict-free |
| KeyboardMappings.FindByShortcut | src/models/keyboard_mapping.rs:369-373 | returns the first enabled mapping with an equal combination, or None exactly when there is none |
| KeyboardMappings.FindByShortcutUnambiguous | src/models/keyboard_mapping.rs:344-373 | in a conflict-free table every enabled mapping bound to a combination is the one the lookup finds |
| KeyboardMappings.GlobalMappings | src/models/keyboard_mapping.rs:376-382 | holds exactly the enabled mappings with global scope |
| KeyboardMappings.LocalMappings | src/models/keyboard_mapping.rs:384-389 | holds exactly the enabled mappings without global scope |
| KeyboardMappings.GlobalLocalPartition | src/models/keyboard_mapping.rs:376-389 | the global and local lists together are a permutation of the enabled mappings |
| KeyboardMappings.DefaultMapping | src/models/keyboard_mapping.rs:533-548 | the default mapping (Cmd+A, show overview) is valid, enabled and global |
| KeyboardMappings.DefaultSpecs | src/models/keyboard_mapping.rs:392-462 | the default table binds Cmd+1 … Cmd+9 to workspace switches, then five window shortcuts |
| KeyboardMappings.InstallDefaultsSucceeds | src/models/keyboard_mapping.rs:392-462 | inserting valid, pairwise different shortcuts into a table that binds none of them never fails and keeps it conflict-free |
| KeyboardMappings.CreateDefault | src/models/keyboard_mapping.rs:391-462 | the default set is created without error and holds fourteen mappings, no two in conflict |
| KeyboardMappings.ConflictsWith | src/models/keyboard_mapping.rs:237-243 | two mappings conflict only when they are distinct, share a combination and are both enabled; a disabled mapping conflicts with nothing |
| KeyboardHandling.NewHandler | src/services/keyboard_handler.rs:40-46 | a new handler has an empty table, the given reserved set, and satisfies the handler invariant |
| KeyboardHandling.ReplaceCommand | src/services/keyboard_handler.rs:137-139 | the Command-to-Option migration leaves no Command, has Option exactly when Option or Command was there, and keeps every other modifier |
| KeyboardHandling.EnforceOptionModifier | src/services/keyboard_handler.rs:133-153 | the stored combination has Option and no Command, keeps the key and the other modifiers, and is reported as changed exactly when the input did not already follow that convention |
| KeyboardHandling.EnforceOptionIdempotent | src/services/keyboard_handler.rs:133-153 | enforcing twice changes nothing the second time |
| KeyboardHandling.Register | src/services/keyboard_handler.rs:49-90 | a reserved combination (after enforcement) is refused and bumps conflicts_prevented; otherwise registration succeeds exactly when the mapping validates and conflicts with nothing stored, appends it, counts a migration when enforcement changed it, and on failure stores nothing |
| KeyboardHandling.RegisterPreservesValid | src/services/keyboard_handler.rs:49-90 | after registering, the table is conflict-free, every stored shortcut uses Option, and registered_mappings equals the stored count |
| KeyboardHandling.Unregister | src/services/keyboard_handler.rs:92-99 | returns whether a mapping with that id was removed; nothing changes otherwise, and the counter follows the table |
| KeyboardHandling.UnregisterPreservesValid | src/services/keyboard_handler.rs:92-99 | unregistering keeps the handler invariant |
| KeyboardHandling.HandleShortcut | src/services/keyboard_handler.rs:102-121 | returns the event (id, action, parameters, scope) of the first enabled mapping bound to the combination, None exactly when there is none, and counts a triggered event only on a match |
| KeyboardHandling.RegisterThenHandle | src/services/keyboard_handler.rs:49-121 | after registering an enabled mapping under a new id, pressing its stored shortcut yields that mapping's event |
| Workspaces.FirstInvalidModifier | src/models/workspace.rs:248-256 | finds the first part outside {cmd, ctrl, opt, shift}, or reports that every part is a modifier word |
| Workspaces.ValidateKeyboardShortcut | src/models/workspace.rs:234-270 | an empty shortcut and one without '+' get their own errors; a reported modifier is not a modifier word and a reported key is not a valid key |
| Workspaces.ValidateShortcutIff | src/models/workspace.rs:234-270 | a shortcut passes exactly when it is one or more modifier words and a valid key (non-empty, alphanumeric or starting with 'F') joined by '+' |
| Workspaces.ExampleCmd1 | src/models/workspace.rs:359 | "cmd+1" passes |
| Workspaces.ExampleCtrlOptF1 | src/models/workspace.rs:361 | "ctrl+opt+F1" passes |
| Workspaces.ExampleEmptyAndBare | src/models/workspace.rs:364-365 | "" and "cmd" fail with their own errors |
| Workspaces.UnknownModifierRefused | src/models/workspace.rs:248-256 | a shortcut of one word outside the modifier words, a plus and a key is refused, naming that word as the invalid modifier |
| Workspaces.ExampleInvalidModifier | src/models/workspace.rs:366 | "invalid+1" fails on its modifier |
| Workspaces.ExampleEmptyKey | src/models/workspace.rs:367 | "cmd+" fails on its empty key |
| Workspaces.ValidateName | src/models/workspace.rs:171-182 | a name passes exactly when it is not blank and at most 100 bytes; a blank name is reported before a long one |
| Workspaces.ValidateCreateRequest | src/models/workspace.rs:170-197 | passes exactly when name, shortcut and description (at most 500 bytes) are valid, reporting them in that order |
| Workspaces.ValidateUpdateRequest | src/models/workspace.rs:200-231 | passes exactly when every field given is valid |
| Workspaces.NewWorkspace | src/models/workspace.rs:95-114 | a valid request yields an Inactive workspace with the fresh id, no last-used time, the request's pattern or else the default, and auto-arrange defaulting to true; an invalid one yields the validation error |
| Workspaces.Update | src/models/workspace.rs:117-142 | an invalid request changes nothing; a valid one overwrites exactly the fields given and leaves id, state and times alone |
| Workspaces.UpdatePreservesValid | src/models/workspace.rs:117-142 | an update keeps a valid workspace valid |
| Workspaces.UpdateIdempotent | src/models/workspace.rs:117-142 | applying the same update twice equals applying it once |
| Workspaces.EmptyUpdateIsIdentity | src/models/workspace.rs:117-142 | an update that gives no field changes nothing |
| Workspaces.IsActive | src/models/workspace.rs:164-167 | an active workspace in a consistent state has a last-use time |
| Workspaces.Activate | src/models/workspace.rs:145-148 | any state becomes Active with last_used set to now; nothing else changes |
| Workspaces.Deactivate | src/models/workspace.rs:151-155 | Active and Modified become Inactive; Inactive is left untouched |
| Workspaces.MarkModified | src/models/workspace.rs:158-162 | only Active moves to Modified; every other state is left alone |
| Workspaces.ModifiedNeedsActivation | src/models/workspace.rs:151-162 | an Inactive workspace cannot be marked modified |
| Workspaces.LifeCycle | src/models/workspace.rs:145-167 | activate, mark modified, deactivate: is_active holds only in Active, and the round trip returns to Inactive with last_used kept |
| Workspaces.TransitionsPreserveConsistency | src/models/workspace.rs:145-162 | activating, deactivating and marking modified all keep the rule that a workspace that is not inactive has a last-used time |
| WorkspaceManagement.NewManager | src/services/workspace_manager.rs:94-106 | a new manager is empty, has no active workspace and satisfies the registry invariant |
| WorkspaceManagement.Lookup | src/services/workspace_manager.rs:311-318 | finds the workspace with that id exactly when the id is a key |
| WorkspaceManagement.Switch | src/services/workspace_manager.rs:448-501 | an unknown id gives WorkspaceNotFound and changes nothing; otherwise the id becomes active, only that workspace's last_used is set, switch_count grows by one, and the previous active id is reported in the activation event |
| WorkspaceManagement.SwitchPreservesValid | src/services/workspace_manager.rs:448-501 | switching keeps ids, names and shortcuts unique, the count within the limit and the active id a key |
| WorkspaceManagement.Create | src/services/workspace_manager.rs:227-309 | fails, in this order, at the limit, on a used name or on a used shortcut, each bumping error_count with the map unchanged; succeeds exactly when none of these holds and the request is valid, adding exactly the new entry, which carries the request's name, description, shortcut and pattern (or the default pattern), counting it, and activating it, stamped with the time, if nothing was active |
| WorkspaceManagement.CreatePreservesValid | src/services/workspace_manager.rs:227-309 | creating keeps names and shortcuts pairwise distinct, the count within the limit and the active id a key |
| WorkspaceManagement.UpdateWorkspace | src/services/workspace_manager.rs:342-391 | a name or shortcut held by another id is refused, an unknown id gives WorkspaceNotFound, and otherwise only that entry is replaced |
| WorkspaceManagement.UpdatePreservesValid | src/services/workspace_manager.rs:342-391 | an update keeps the registry invariant |
| WorkspaceManagement.Delete | src/services/workspace_manager.rs:394-445 | an unknown id changes nothing; otherwise the entry is removed and counted, and a deleted active workspace hands over to a remaining key, or to None when none remains; every other entry is left as it was, except that the workspace handed over to is stamped with the time |
| WorkspaceManagement.Reassign | src/services/workspace_manager.rs:407-423 | after removing the active workspace the active id is None exactly when the map is empty, else the first remaining key in iteration order, which alone is stamped with the time |
| WorkspaceManagement.DeletePreservesValid | src/services/workspace_manager.rs:394-445 | deleting keeps the registry invariant, in particular the active id is None or a key |
| WorkspaceManagement.FindByName | src/services/workspace_manager.rs:504-511 | returns exactly the workspaces whose lowercased name contains the lowercased pattern |
| WorkspaceManagement.FindByNameIgnoresCase | src/services/workspace_manager.rs:504-511 | searching for the lowercased pattern finds the same workspaces as searching for the pattern |
| WorkspaceManagement.FindByNameEmptyPattern | src/services/workspace_manager.rs:504-511 | an empty pattern lists every workspace, in the registry's order |
| WorkspaceManagement.FindByShortcut | src/services/workspace_manager.rs:514-520 | returns a workspace with exactly that shortcut, or None exactly when none has it |
| WorkspaceManagement.FindByShortcutUnique | src/services/workspace_manager.rs:514-520 | in a valid registry the shortcut lookup returns the one workspace holding that shortcut |
| WorkspaceManagement.IsLimitReached | src/services/workspace_manager.rs:535-538 | in a valid registry the limit is reached exactly when it holds max_workspaces entries; a limit of zero is always reached |
| WorkspaceManagement.LimitRefusesCreate | src/services/workspace_manager.rs:535-538 | at the limit a create is refused, and a valid registry at the limit holds exactly max_workspaces entries |
| WorkspaceManagement.ValidateAll | src/services/workspace_manager.rs:588-625 | reports nothing exactly when names and shortcuts are pairwise distinct |
| WorkspaceManagement.FindingsEmptyIff | src/services/workspace_manager.rs:596-622 | after scanning a prefix, nothing is reported exactly when that prefix has no repeated name or shortcut |
| TilingPatterns.New | src/models/tiling_pattern.rs:61-90 | a ratio outside [0.1, 0.9] is rejected first, then a zero window limit; the pattern is built exactly when both checks pass, with the given fields |
| TilingPatterns.Validate | src/models/tiling_pattern.rs:251-267 | a pattern passes exactly when its ratio is in [0.1, 0.9], its window limit is positive and its name is not blank; the ratio error is reported before the limit error |
| TilingPatterns.NewThenValidate | src/models/tiling_pattern.rs:61-90 | a pattern that construction accepts passes validation exactly when its name is not blank (construction does not check the name) |
| TilingPatterns.DefaultPattern | src/models/tiling_pattern.rs:290-301 | the default pattern keeps the given id, its main-area ratio lies in the accepted range and it allows at least one window |
| TilingPatterns.DefaultPatternIsValid | src/models/tiling_pattern.rs:289-302 | the default pattern (master-stack, ratio 0.6, gap 10, margin 10, at most 10 windows) passes validation |
| TilingPatterns.Inset | src/models/tiling_pattern.rs:106-111 | the effective area lies inside the screen, shifted by the margin and shrunk by twice the margin in each dimension |
| TilingPatterns.CeilSqrt | src/models/tiling_pattern.rs:184 | the column count is the least number whose square covers the window count |
| TilingPatterns.CeilDiv | src/models/tiling_pattern.rs:185 | the row count is the least number of full rows of that many columns that covers the window count |
| TilingPatterns.ComputeLayout | src/models/tiling_pattern.rs:93-121 | a layout always succeeds with one rectangle per window and no overflow area; with no windows the main area is the whole screen, otherwise the margin-inset screen |
| TilingPatterns.MasterStackShape | src/models/tiling_pattern.rs:124-173 | one window gets the whole area; otherwise the first window gets the ratio's share of the width at full height, the stack column fills the rest of the width after the gap, and all rectangles lie inside the area without overlapping |
| TilingPatterns.ColumnsShape | src/models/tiling_pattern.rs:211-237 | each window gets an equal-width, full-height column at its index's offset; columns lie inside the area and do not overlap |
| TilingPatterns.GridShape | src/models/tiling_pattern.rs:176-208 | the grid has the least square column count; all cells share one size; window i sits in column i mod cols and row i div cols; cells lie inside the area and do not overlap |
| TilingPatterns.ComputeLayoutSound | src/models/tiling_pattern.rs:93-248 | for every algorithm, every window rectangle lies inside the margin-inset screen and no two overlap |
| TilingPatterns.CustomIsGrid | src/models/tiling_pattern.rs:240-248 | the custom algorithm lays windows out exactly as the grid does |
| TilingPatterns.SingleMasterFillsInset | src/models/tiling_pattern.rs:131-133 | a single master-stack window fills the whole margin-inset screen |
| TilingPatterns.ExampleSingleWindow | src/models/tiling_pattern.rs:342-363 | on a 1000x800 screen the default pattern places one window at (10, 10) with size 980x780 |
| TilingPatterns.ExampleMasterStackMainWidth | src/models/tiling_pattern.rs:365-382 | on a 1000x800 screen with three windows the default pattern gives the main window 588x780 |
| TilingPatterns.ColumnsFullHeight | src/models/tiling_pattern.rs:222-230 | every column is as tall as the margin-inset screen |
| TilingPatterns.ExampleColumnsFullHeight | src/models/tiling_pattern.rs:405-425 | on a 1000x800 screen, three columns are each 780 tall |
| TilingPatterns.GridOfFour | src/models/tiling_pattern.rs:176-208 | four grid windows form a 2x2 grid: windows 0 and 1 share a row and a width, windows 0 and 2 share a column and a height |
| TilingPatterns.ExampleGridTwoByTwo | src/models/tiling_pattern.rs:384-403 | on a 1000x800 screen the default pattern's grid of four has equal widths along a row and equal heights down a column |
| TilingEngine.NewEngine | src/services/tiling_engine.rs:33-38 | a new engine has counted no layout requests and remembers no window count or algorithm |
| TilingEngine.MakeRect | src/services/tiling_engine.rs:203-206 | the rectangle starts at the given point; each side is the requested length when that is at least 1 and exactly 1 otherwise |
| TilingEngine.ApplyMargin | src/services/tiling_engine.rs:208-216 | the frame starts one margin inside the area's corner and ends one margin before its far edges, unless the usable length is below 1, in which case that side is 1 |
| TilingEngine.MasterStack | src/services/tiling_engine.rs:83-131 | one window gets the margin-inset area; with more, the layout fails with the too-small error exactly when the usable width or height is not positive; otherwise there is one frame per window, each at least 1x1, the first being the master frame and the rest the stack frames in order |
| TilingEngine.MasterTakesShare | src/services/tiling_engine.rs:103-118 | the master frame sits at the inset origin, is as wide as the larger of the ratio and 0.4 times the usable width, and spans the usable height |
| TilingEngine.StackSpansRightPart | src/services/tiling_engine.rs:106-128 | every stack frame starts one gap to the right of the master frame and, when wide enough, ends at the right edge of the usable area |
| TilingEngine.StackFillsHeight | src/services/tiling_engine.rs:109-128 | stack frames share one height, start at the inset top, follow one another separated by exactly one gap, and the last one ends at the bottom of the usable area |
| TilingEngine.ColumnFrames | src/services/tiling_engine.rs:162-183 | there is one frame per window, each at least 1x1, each at the inset top with the usable height |
| TilingEngine.ColumnsTileWidth | src/services/tiling_engine.rs:162-183 | columns share one width, start at the inset corner, follow one another separated by exactly one gap, and the last one ends at the right edge of the usable area |
| TilingEngine.GridRows | src/services/tiling_engine.rs:140-141 | a grid always has at least one row |
| TilingEngine.GridFrames | src/services/tiling_engine.rs:133-160 | there is one frame per window, each at least 1x1, each the grid cell for its index |
| TilingEngine.GridIsUniform | src/services/tiling_engine.rs:133-160 | all grid cells have the same size; windows in the same column share an x coordinate and windows in the same row share a y coordinate |
| TilingEngine.GridWithinUsable | src/services/tiling_engine.rs:143-157 | when cells are at least 1x1, every cell lies inside the margin-inset area |
| TilingEngine.CustomFrames | src/services/tiling_engine.rs:185-201 | a custom pattern gets one frame per window, each at least 1x1; the first starts 8 points inside the top-left corner, and every frame sits 8 points below the top, spans the height less 16 points (at least 1), and takes the same width: one of `n` equal columns of the width less 16 points, with 8-point gaps (at least 1) |
| TilingEngine.Frames | src/services/tiling_engine.rs:54-61 | frames come one per window, each at least 1x1; only master-stack with two or more windows can fail, and then only with the too-small error |
| TilingEngine.LayoutWindows | src/services/tiling_engine.rs:41-76 | an empty window list is rejected and leaves the engine alone; a failure leaves the metrics untouched; on success the i-th layout pairs the i-th id with the i-th frame, and the metrics count one more request and record the window count and algorithm; for every algorithm other than master-stack, layout succeeds exactly when there is a window |
| TilingEngine.CustomIgnoresPattern | src/services/tiling_engine.rs:185-201 | two custom patterns produce the same layout whatever their other settings |
| TilingEngine.MasterWiderThanStack | src/services/tiling_engine.rs:241-251 | three windows on a 1920x1080 area with ratio 0.6, gap 10 and margin 10 get a 1140-wide master and 750-wide stack frames, so the master is wider |
| WindowRules.GlobWithoutWildcardsIsEquality | src/models/window_rule.rs:130-143 | a glob without `*` or `?` matches exactly the identical text |
| WindowRules.GlobMatchesItself | src/models/window_rule.rs:130-143 | every glob matches its own text |
| WindowRules.StarSkipsPrefix | src/models/window_rule.rs:132-135 | a leading `*` absorbs any line-feed-free prefix in front of a text the rest of the glob matches |
| WindowRules.StarAlone | src/models/window_rule.rs:132-138 | the glob `*` matches exactly the texts without a line feed |
| WindowRules.PrefixStar | src/models/window_rule.rs:132-138 | a literal followed by `*` matches exactly the texts that start with the literal and continue without a line feed |
| WindowRules.AppMatchesExact | src/models/window_rule.rs:99-107 | an application identifier without wildcards matches only itself |
| WindowRules.GlobMatch | src/models/window_rule.rs:129-145 | a match consumes at least one character of text per non-star glob character, and exactly one each when the glob has no star |
| WindowRules.AppMatches | src/models/window_rule.rs:98-107 | an identifier always matches itself, and a star-free rule identifier matches only identifiers of its own length |
| WindowRules.ExampleAppleGlob | src/models/window_rule.rs:322-332 | `com.apple.*` matches every `com.apple.` identifier and not `com.google.Chrome` |
| WindowRules.Matches | src/models/window_rule.rs:93-127 | a rule matches exactly when the application matches and, if a title pattern is set, a title is given and the compiled pattern matches it; a missing title means no match; a pattern that does not compile is an error only when the application matches and a title is given |
| WindowRules.EffectiveGeometry | src/models/window_rule.rs:146-157 | only fixed rules have a geometry: their own when set, the default otherwise |
| WindowRules.ShouldAutoFocus | src/models/window_rule.rs:165-170 | a rule auto-focuses on window creation exactly when it says on-create, and on workspace switch exactly when it says on-switch |
| WindowRules.AutoFocusAtMostOnce | src/models/window_rule.rs:165-170 | no rule auto-focuses in both contexts, and a never-focus rule in neither |
| WindowRules.Validate | src/models/window_rule.rs:173-203 | a rule passes exactly when its identifier is not blank, its title pattern (if any) is not blank and compiles, a fixed rule has a geometry, and any geometry has positive width and height; a blank identifier is reported first; the out-of-bounds error is never produced |
| WindowRules.New | src/models/window_rule.rs:66-90 | a rule is built, with exactly the given fields under the fresh id, precisely when it would validate; a blank identifier and a fixed rule without geometry give their errors |
| WindowRules.ValidFixedRuleHasGeometry | src/models/window_rule.rs:146-157 | a valid fixed rule's effective geometry is its own, with positive size, whatever the default |
| WindowRules.DefaultRule | src/models/window_rule.rs:235-249 | the default rule keeps the given ids, validates under any regex engine, has no effective geometry, no z-order priority and never auto-focuses |
| WindowRules.HasZOrderPriority | src/models/window_rule.rs:159-162 | a rule asks for a z-order exactly when its priority is non-zero |
| MonitorConfigurations.MatchesMonitor | src/models/monitor_configuration.rs:102-138 | a configuration matches on an equal identifier; failing that, only when both infos are present, on an equal known model id, an equal known serial number, or an equal display name together with an equal native resolution |
| MonitorConfigurations.RecognisesOwnInfo | src/models/monitor_configuration.rs:129-134 | a configuration with monitor info recognises a monitor reporting that same info, whatever its identifier |
| MonitorConfigurations.EffectivePatternId | src/models/monitor_configuration.rs:141-151 | the primary pattern is used up to the window limit; beyond it the secondary pattern when one is set, the primary otherwise |
| MonitorConfigurations.EffectivePatternIsConfigured | src/models/monitor_configuration.rs:141-151 | the chosen pattern is always one the configuration names |
| MonitorConfigurations.UsableArea | src/models/monitor_configuration.rs:168-187 | the usable area starts at the larger of the two origins and, when not empty, lies inside both the active area and the full screen |
| MonitorConfigurations.UsableAreaIsIntersection | src/models/monitor_configuration.rs:168-187 | a point lies in the usable area exactly when it lies in both the active area and the full screen |
| MonitorConfigurations.UsableAreaOfContainedArea | src/models/monitor_configuration.rs:168-187 | an active area inside the full screen is its own usable area |
| MonitorConfigurations.OrientationMatches | src/models/monitor_configuration.rs:190-201 | landscape holds exactly when the width is at least the height, portrait exactly when the height is greater; the current and match-primary preferences always hold |
| MonitorConfigurations.LandscapeOrPortrait | src/models/monitor_configuration.rs:193-194 | every monitor shape satisfies exactly one of the landscape and portrait preferences |
| MonitorConfigurations.UpdateActiveArea | src/models/monitor_configuration.rs:204-214 | an area with zero width or height is rejected with the configuration unchanged; otherwise only the active area changes |
| MonitorConfigurations.Validate | src/models/monitor_configuration.rs:217-247 | a configuration passes exactly when its identifier is not blank, its active area is not empty, its scale lies in (0, 5] and any monitor info has a non-blank name and non-zero resolution; the scale error is reported exactly when the earlier checks pass and the scale is out of range |
| MonitorConfigurations.UpdateActiveAreaKeepsValid | src/models/monitor_configuration.rs:204-247 | updating the active area of a valid configuration leaves it valid |
| MonitorConfigurations.NewSet | src/models/monitor_configuration.rs:260-266 | a new set is empty, has no fallback, belongs to the given workspace and satisfies the set invariant |
| MonitorConfigurations.AddConfiguration | src/models/monitor_configuration.rs:269-290 | a configuration for another workspace is rejected first, then one whose identifier is taken, each leaving the set unchanged; otherwise it is appended |
| MonitorConfigurations.AddConfigurationPreservesValid | src/models/monitor_configuration.rs:269-290 | adding keeps every configuration in the set's workspace and the identifiers pairwise distinct |
| MonitorConfigurations.FindConfiguration | src/models/monitor_configuration.rs:293-302 | the first matching configuration is returned; when none matches, the fallback is |
| MonitorConfigurations.PrimaryConfiguration | src/models/monitor_configuration.rs:305-307 | the first configuration marked primary is returned, and nothing exactly when none is marked |
| MonitorConfigurations.UpdateConfiguration | src/models/monitor_configuration.rs:310-329 | an unknown identifier gives the not-found error with the set unchanged; otherwise the updater's result replaces a configuration with that identifier and its outcome is returned |
| MonitorConfigurations.UpdateConfigurationPreservesValid | src/models/monitor_configuration.rs:310-329 | an updater that keeps identifiers and workspace keeps the set invariant |
| ApplicationProfiles.MatchesDetectionRule | src/models/application_profile.rs:214-245 | with neither a bundle id nor a process name nothing matches; a combined rule matches when its primary or any secondary identifier equals the bundle id or the process name; a process-name rule compares the process name; bundle-id and window-class rules compare the bundle id |
| ApplicationProfiles.AnyIdentifierMatches | src/models/application_profile.rs:237-240 | some listed identifier equals the bundle id or the process name |
| ApplicationProfiles.AnyRuleMatches | src/models/application_profile.rs:204-208 | some detection rule matches |
| ApplicationProfiles.MatchesApplication | src/models/application_profile.rs:190-211 | a profile matches exactly when its bundle id is the given one or one of its detection rules matches |
| ApplicationProfiles.NothingMatchesNothing | src/models/application_profile.rs:190-245 | with no bundle id and no process name no profile matches |
| ApplicationProfiles.EffectivePositioning | src/models/application_profile.rs:248-263 | the first enabled force-positioning rule whose condition occurs in the title decides the positioning; with no such rule, or no title, the default applies |
| ApplicationProfiles.ForcedPositioning | src/models/application_profile.rs:250-262 | the first forcing rule in the list decides; none gives the default |
| ApplicationProfiles.IsTilingCompatible | src/models/application_profile.rs:266-271 | a profile is tiling-compatible exactly when its level is neither poor nor incompatible |
| ApplicationProfiles.CustomActionFor | src/models/application_profile.rs:274-279 | the action of the first enabled rule with exactly that condition is returned, and nothing exactly when there is no such rule |
| ApplicationProfiles.FirstAction | src/models/application_profile.rs:275-278 | the first enabled rule with that condition gives the action |
| ApplicationProfiles.AddPreferredPattern | src/models/application_profile.rs:282-287 | a pattern already listed leaves the profile unchanged; otherwise it is appended and the update time set; either way the pattern is listed afterwards |
| ApplicationProfiles.AddPreferredPatternIdempotent | src/models/application_profile.rs:282-287 | adding the same pattern twice is the same as adding it once |
| ApplicationProfiles.AddPreferredPatternKeepsDistinct | src/models/application_profile.rs:282-287 | adding keeps the preferred patterns free of duplicates |
| ApplicationProfiles.IndexOf | src/models/application_profile.rs:291-294 | the position found holds the pattern and no earlier position does; there is none exactly when the pattern is absent |
| ApplicationProfiles.RemovePreferredPattern | src/models/application_profile.rs:290-302 | the result says whether the pattern was listed; if not, nothing changes; if so, exactly its first occurrence is removed and the update time set |
| ApplicationProfiles.AddThenRemove | src/models/application_profile.rs:282-302 | removing a pattern just added restores the original pattern list |
| ApplicationProfiles.Validate | src/models/application_profile.rs:317-350 | a profile passes exactly when its bundle id is not blank and contains a dot, its display name is not blank, and no detection identifier or custom-rule condition is blank; a dotless bundle id gives the invalid-bundle error |
| ApplicationProfiles.New | src/models/application_profile.rs:157-187 | a profile is built exactly when the bundle id is not blank and has a dot and the display name is not blank; it is valid, a user profile, with no rules, under the fresh id and with the given level |
| ApplicationProfiles.AddProfile | src/models/application_profile.rs:368-385 | a taken bundle id is rejected with the set unchanged; otherwise the profile is appended; bundle ids stay distinct |
| Seqs.FirstWhere | src/models/application_profile.rs:401-403 | the position of the first element satisfying the condition is found, and none exactly when no element does |
| ApplicationProfiles.FirstProfile | src/models/application_profile.rs:389-403 | the first profile satisfying the condition is returned, and nothing exactly when none does |
| ApplicationProfiles.FindByBundleId | src/models/application_profile.rs:388-392 | a profile with that bundle id is found exactly when one is present, and it is the first such profile in insertion order |
| ApplicationProfiles.FindMatchingProfile | src/models/application_profile.rs:395-404 | the first profile matching the application is returned, and nothing exactly when none matches |
| ApplicationProfiles.ProfilesByCompatibility | src/models/application_profile.rs:407-415 | the result holds exactly the profiles at that level |
| ApplicationProfiles.AtLevel | src/models/application_profile.rs:411-414 | filtering keeps exactly the profiles at the level |
| ApplicationProfiles.AddThenFind | src/models/application_profile.rs:368-392 | after a successful add, looking up the profile's bundle id finds that profile |
| ApplicationProfiles.RemoveProfile | src/models/application_profile.rs:418-425 | the result says whether a profile had that id; if not, nothing changes; if so, exactly the first such profile is removed |
| ApplicationProfiles.RemoveFirst | src/models/application_profile.rs:419-421 | exactly the first profile with the id is removed |
| ApplicationProfiles.RemoveAtKeepsDistinct | src/models/application_profile.rs:418-425 | removing one profile keeps bundle ids distinct |
| ApplicationProfiles.RemoveProfilePreservesValid | src/models/application_profile.rs:418-425 | removal keeps bundle ids distinct and, when it removes, shrinks the set by one |
| ConfigParser.MigrateShortcut | src/config/parser.rs:330-338 | migration keeps the length of the shortcut; a shortcut without `cmd+`, or one that neither starts with `cmd+` nor contains `+cmd+`, comes back unchanged |
| ConfigParser.InnerNeedsLeading | src/config/parser.rs:331-336 | a shortcut containing `+cmd+` also contains `cmd+`, so the leading test is the only way a `+cmd+` can be missed |
| ConfigParser.NoCommandAfterReplace | src/config/parser.rs:332 | replacing every `cmd+` with `opt+` leaves no `cmd+` behind |
| ConfigParser.MigrateLeadingRemovesCommand | src/config/parser.rs:331-332 | a shortcut starting with `cmd+` migrates to one with no `cmd+` anywhere |
| ConfigParser.MigrateLeadingIdempotent | src/config/parser.rs:331-332 | migrating a shortcut that started with `cmd+` a second time changes nothing |
| ConfigParser.ExampleCommandOne | src/config/parser.rs:439-459 | `cmd+1` migrates to `opt+1` |
| ConfigParser.InnerMigrationNotIdempotent | src/config/parser.rs:333-334 | `ctrl+cmd+cmd+1` migrates to `ctrl+opt+cmd+1` and, migrated again, to `ctrl+opt+opt+1`: the inner branch is not idempotent |
| ConfigParser.MigrateLegacy | src/config/parser.rs:316-324 | a legacy mapping keeps its id, action, target, parameters, enabled flag and scope; only its shortcut is migrated |
| ConfigParser.MigrateLegacyMappings | src/config/parser.rs:302-328 | every legacy mapping is migrated in order, with one warning per mapping whose shortcut changed, recording the old and new shortcut |
| ConfigParser.CommandFreeLegacyIsSilent | src/config/parser.rs:302-328 | mappings without `cmd+` keep their shortcuts and produce no warning |
| ConfigParser.MigrateWorkspaces | src/config/parser.rs:343-358 | every workspace keeps all fields but its shortcut, which is migrated; there is one warning per changed shortcut |
| ConfigParser.MigrateKeyboardShortcuts | src/config/parser.rs:340-367 | only workspace shortcuts change, each by migration; there are no warnings exactly when no workspace changed, and otherwise one per change followed by a single completion warning |
| ConfigParser.ValidateShortcutFormat | src/config/parser.rs:264-277 | a shortcut passes exactly when it splits at `+` into at least two parts, all but the last a modifier word and the last a non-empty run of key-class characters |
| ConfigParser.ShortcutFormatIff | src/config/parser.rs:265 | the split-based check accepts exactly the language of the anchored pattern: one or more modifier words joined by `+`, then `+`, then a non-empty key |
| ConfigParser.ExampleFormatAccepted | src/config/parser.rs:462-466 | `opt+1` and `opt+shift+1` pass |
| ConfigParser.ExampleFormatRejected | src/config/parser.rs:467-468 | `invalid` and `cmd+ctrl+alt+1` fail |
| ConfigParser.ExampleColonKeyAccepted | src/config/parser.rs:265 | `opt+:` passes, because the key class `[a-zA-Z0-9F1-F12]` contains the range from `1` to `F` |
| ConfigParser.ValidateWorkspaces | src/config/parser.rs:127-158 | the check passes exactly when no workspace has a problem, and otherwise reports the problem of the first workspace that has one |
| ConfigParser.WorkspacesPassIff | src/config/parser.rs:127-158 | workspaces pass exactly when names are pairwise distinct, shortcuts are pairwise distinct, and every name is non-empty and at most 100 bytes |
| ConfigParser.ValidatePatterns | src/config/parser.rs:160-179 | patterns pass exactly when every ratio lies in [0.1, 0.9] and every window limit is positive; a failure reports the problem of the first failing pattern, the ratio checked before the limit |
| ConfigParser.CommandWarnings | src/config/parser.rs:193-198 | every warning names a mapping shortcut containing `cmd+` |
| ConfigParser.ValidateKeyboardMappings | src/config/parser.rs:181-202 | mappings pass exactly when none has a problem (a repeated shortcut or a bad format), otherwise the first problem is reported; on success the warnings are the `cmd+` warnings |
| ConfigParser.ValidateApplicationProfiles | src/config/parser.rs:204-216 | profiles pass exactly when bundle ids are pairwise distinct; the error names the bundle id of the first profile whose id already occurred earlier in the list |
| ConfigParser.ValidateMonitorConfigurations | src/config/parser.rs:218-228 | monitor configurations pass exactly when every scale factor is positive |
| ConfigParser.ValidateCrossReferences | src/config/parser.rs:230-262 | the check passes exactly when every workspace's pattern exists and every mapping target exists; a missing pattern is reported for the first offending workspace, under its name and pattern id, before any mapping, and a missing target for the first offending mapping |
| ConfigParser.ValidateConfig | src/config/parser.rs:117-125 | a configuration passes exactly when every section check passes |
| ConfigValidator.DefaultRules | src/config/validator.rs:583-737 | the built-in rule table has thirty entries |
| ConfigValidator.SeverityOf | src/config/validator.rs:583-737 | a rule is informational exactly when it is one of the three count rules, a warning exactly when it is one of the advisory rules, and an error otherwise |
| ConfigValidator.DefaultRulesIndexed | src/config/validator.rs:583-737 | every rule name has exactly one entry in the table, at its own position, carrying its severity |
| ConfigValidator.GetRule | src/config/validator.rs:579-581 | a rule found by name has that name and comes from the table |
| ConfigValidator.GetRuleNeverFails | src/config/validator.rs:579-581 | every rule name the validators ask for is in the table, so the lookup always succeeds with that rule's severity |
| ConfigValidator.Tag | src/config/validator.rs:78-167 | each rule that fired for an entity becomes one finding naming that entity and rule |
| ConfigValidator.Section | src/config/validator.rs:78-405 | a section's findings name only its own entities, and it has none exactly when no rule fired for any entity |
| ConfigValidator.SectionFindings | src/config/validator.rs:78-405 | a finding for an entity appears exactly when that rule fired for it |
| ConfigValidator.SectionErrorFree | src/config/validator.rs:78-405 | a section has no error finding exactly when every entity fired only non-error rules |
| ConfigValidator.SectionRules | src/config/validator.rs:78-405 | every finding carries the table's rule for its name |
| ConfigValidator.DisplacedIff | src/config/validator.rs:82-101 | with distinct ids, an entity's name or shortcut is reported as a duplicate exactly when an earlier entity has the same one |
| ConfigValidator.RepeatIsNotDisplaced | src/config/validator.rs:82-101 | an entity listed twice in a row under the same id is not reported as its own duplicate |
| ConfigValidator.WorkspaceFired | src/config/validator.rs:78-167 | the workspace rules that fire for a workspace are exactly the workspace checks that hold for it |
| ConfigValidator.ValidateWorkspaces | src/config/validator.rs:78-167 | workspace findings name workspaces and only workspace rules |
| ConfigValidator.WorkspaceReported | src/config/validator.rs:78-167 | with distinct ids, a workspace is reported under a rule exactly when that check holds for it |
| ConfigValidator.WorkspaceFiresIff | src/config/validator.rs:78-167 | a workspace is flagged for a name or a shortcut an earlier workspace holds, an empty name, a name over 100 bytes, a shortcut outside the shortcut format, a `cmd+` shortcut, and a description over 500 bytes, each exactly when that condition holds |
| ConfigValidator.WorkspaceFindings | src/config/validator.rs:78-167 | each of those seven findings appears for a workspace exactly when its condition holds |
| ConfigValidator.WorkspaceBenignChecks | src/config/validator.rs:78-167 | a workspace raises no error exactly when none of the five error checks fires (the `cmd+` and long-description findings are warnings) |
| ConfigValidator.WorkspaceBenign | src/config/validator.rs:78-167 | a workspace raises no error exactly when its name and shortcut are new, its name is non-empty and at most 100 bytes, and its shortcut is well formed |
| ConfigValidator.WorkspacesSoundAtEach | src/config/validator.rs:78-167 | the workspaces are sound as a whole exactly when each is sound relative to those before it |
| ConfigValidator.WorkspacesErrorFreeIff | src/config/validator.rs:78-167 | workspace validation raises no error exactly when names and shortcuts are pairwise distinct and every name and shortcut is well formed |
| ConfigValidator.ValidatePatterns | src/config/validator.rs:169-223 | pattern findings name patterns and only the duplicate-name, ratio, zero-limit and high-limit rules |
| ConfigValidator.PatternBenign | src/config/validator.rs:169-223 | a pattern raises no error exactly when its name is new, its ratio lies in [0.1, 0.9] and its window limit is positive |
| ConfigValidator.PatternsErrorFreeIff | src/config/validator.rs:169-223 | pattern validation raises no error exactly when names are distinct, every ratio is in range and every limit positive |
| ConfigValidator.ValidPatternsAreErrorFree | src/config/validator.rs:169-223 | distinctly named patterns that each pass their own validation raise no error |
| ConfigValidator.HighLimitIsWarning | src/config/validator.rs:209-219 | a pattern is flagged for a high window limit exactly when the limit exceeds 50, and that finding is a warning |
| ConfigValidator.ValidateWindowRules | src/config/validator.rs:225-253 | window-rule findings are errors about a bad title pattern or a zero fixed size |
| ConfigValidator.WindowRulesEmptyIff | src/config/validator.rs:225-253 | there are no window-rule findings exactly when every title pattern compiles and every fixed geometry has positive size |
| ConfigValidator.ValidWindowRulesRaiseNothing | src/config/validator.rs:225-253 | rules that pass their own validation raise no finding |
| ConfigValidator.IsSystemReserved | src/config/validator.rs:549-577 | a reserved signature, once lower-cased, is a `cmd+` or `ctrl+` chord of five to twelve characters |
| ConfigValidator.ReservedIgnoresCase | src/config/validator.rs:549-577 | whether a shortcut is reserved does not depend on letter case |
| ConfigValidator.ExampleReserved | src/config/validator.rs:840-850 | `cmd+space` and `CMD+Tab` are reserved; `opt+1` is not |
| ConfigValidator.MappingFired | src/config/validator.rs:255-325 | the mapping rules that fire for a mapping are exactly the mapping checks that hold for it |
| ConfigValidator.ValidateKeyboardMappings | src/config/validator.rs:255-325 | mapping findings name mappings and only mapping rules |
| ConfigValidator.MappingReported | src/config/validator.rs:255-325 | with distinct ids, a mapping is reported under a rule exactly when that check holds for it |
| ConfigValidator.MappingFiresIff | src/config/validator.rs:255-325 | a mapping is flagged for a signature an earlier mapping holds, for a combination that fails validation or a signature outside the shortcut format, for Command without Option, and for a reserved signature, each exactly when that holds |
| ConfigValidator.MappingFindings | src/config/validator.rs:255-325 | each of those four findings appears for a mapping exactly when its condition holds |
| ConfigValidator.OptionShortcutsAreNotLegacy | src/config/validator.rs:295-309 | a mapping with Option is never flagged as a legacy Command shortcut |
| ConfigValidator.BundleScanIff | src/config/validator.rs:50 | the scanner accepts exactly the strings of letters, digits, dots and hyphens that end in a letter or digit and have no two separators in a row |
| ConfigValidator.BundleIdMatchesIff | src/config/validator.rs:50 | a bundle id matches the pattern exactly when it is non-empty, starts and ends with a letter or digit, uses only letters, digits, dots and hyphens, and has no two separators in a row |
| ConfigValidator.ExampleBundleIds | src/config/validator.rs:50 | `com.apple.Safari` matches; `com..app` and `com.app-` do not |
| ConfigValidator.ValidateProfiles | src/config/validator.rs:327-373 | profile findings are all errors about profiles |
| ConfigValidator.ProfilesEmptyIff | src/config/validator.rs:327-373 | there are no profile findings exactly when bundle ids are distinct and well formed and every display name is non-empty |
| ConfigValidator.ValidateMonitors | src/config/validator.rs:375-405 | monitor findings are only about the scale factor |
| ConfigValidator.MonitorScaleFindings | src/config/validator.rs:381-401 | a monitor raises no error exactly when its scale is positive, nothing at all exactly when the scale lies in [0.5, 3.0], and both findings when the scale is not positive |
| ConfigValidator.MonitorsErrorFreeIff | src/config/validator.rs:375-405 | monitor validation raises no error exactly when every scale is positive |
| ConfigValidator.ReferenceRulesAreErrors | src/config/validator.rs:407-504 | every dangling-reference rule is an error |
| ConfigValidator.WorkspaceRefSection | src/config/validator.rs:414-426 | workspace reference findings are errors, and there are none exactly when every workspace's pattern exists |
| ConfigValidator.WindowRuleRefSection | src/config/validator.rs:428-451 | window-rule reference findings are errors, and there are none exactly when every rule's workspace and any profile exist |
| ConfigValidator.MappingRefSection | src/config/validator.rs:453-467 | mapping reference findings are errors, and there are none exactly when every workspace a mapping targets exists |
| ConfigValidator.MonitorRefSection | src/config/validator.rs:469-501 | monitor reference findings are errors, and there are none exactly when every monitor's workspace and patterns exist |
| ConfigValidator.ValidateCrossReferences | src/config/validator.rs:407-504 | every reference finding is a dangling-reference error |
| ConfigValidator.CrossReferencesEmptyIff | src/config/validator.rs:407-504 | there are no reference findings exactly when every reference resolves |
| ConfigValidator.ValidatePerformance | src/config/validator.rs:506-547 | performance findings are informational and name no entity; there are none exactly when there are at most 20 workspaces, 100 mappings and 200 window rules; there are at most three |
| ConfigValidator.ValidateFullConfig | src/config/validator.rs:63-76 | the full result holds exactly the findings of the eight sections |
| ConfigValidator.Errors | src/config/persistence.rs:292-296 | the errors are exactly the findings with error severity |
| ConfigValidator.CheckBeforeSave | src/config/persistence.rs:289-305 | a configuration is accepted exactly when no finding is an error; a rejection lists exactly the error findings and at least one |
| ConfigValidator.FullConfigErrorFree | src/config/validator.rs:63-76 | the full result is error-free exactly when each section except performance is |
| ConfigValidator.AllErrorsFreeIffEmpty | src/config/persistence.rs:292-299 | a list of error findings is error-free only when empty |
| ConfigValidator.SavedIff | src/config/persistence.rs:289-305 | a configuration is accepted exactly when workspaces, patterns, mappings and monitors raise no error, window rules and profiles raise nothing, and every reference resolves |
| Orchestration.AddTilingPattern | src/services/workspace_orchestrator.rs:81-84 | the pattern is stored under its id, every other pattern is kept, and nothing else in the orchestrator changes |
| Orchestration.TileableOf | src/services/workspace_orchestrator.rs:173-187 | the tileable windows are exactly the listed windows that are neither minimized nor fullscreen, are in tiled mode and are wider and taller than 100, kept in id order |
| Orchestration.TileableWindows | src/services/workspace_orchestrator.rs:170-190 | the tileable windows are the cached windows that pass the filter, in increasing id order, after listing every window including minimized ones |
| Orchestration.ApplyLayouts | src/services/workspace_orchestrator.rs:212-224 | every layout is attempted; a window no layout names keeps its state; a window takes the frame of the last layout naming it; each layout for an unknown window adds one error and does not stop the others |
| Orchestration.ActiveWorkspace | src/services/workspace_orchestrator.rs:89-96 | there is an active workspace exactly when the active id names a stored workspace, and it is that workspace |
| Orchestration.LayOut | src/services/workspace_orchestrator.rs:141-158 | when the engine lays the tileable windows out, every one of them receives its layout in order and is then tiled; an engine failure applies nothing and leaves the windows alone |
| Orchestration.Settle | src/services/workspace_orchestrator.rs:145-158 | an engine error is reported and applies nothing; engine layouts are all applied |
| Orchestration.Apply | src/services/workspace_orchestrator.rs:158-166 | applying the layouts always succeeds, keeps workspaces and patterns, and leaves every laid-out window at its frame |
| Orchestration.Tile | src/services/workspace_orchestrator.rs:121-166 | with no tileable window or more than the auto-tile limit nothing is applied; otherwise at most the limit of windows are laid out and each ends up at its frame |
| Orchestration.Arrange | src/services/workspace_orchestrator.rs:87-167 | no active workspace, or auto-arrange switched off, is a no-op success; a missing pattern is a configuration error with nothing changed; layouts are applied only for an active auto-arranging workspace whose pattern exists, to at most the auto-tile limit of windows |
| Orchestration.NextIndex | src/services/workspace_orchestrator.rs:446-465 | with one window or none nothing moves; otherwise focus moves from i to i+1, wrapping to 0 at the end, and to the first window when none is focused |
| Orchestration.PreviousIndex | src/services/workspace_orchestrator.rs:468-491 | with one window or none nothing moves; otherwise focus moves from i to i-1 modulo the count, and to the last window when none is focused |
| Orchestration.PreviousInvertsNext | src/services/workspace_orchestrator.rs:446-491 | moving focus to the previous window undoes moving to the next, and the other way round |
| Orchestration.FocusMoves | src/services/workspace_orchestrator.rs:446-491 | with two or more windows focus always moves; with nothing focused, next picks the first window and previous the last |
| Orchestration.NextTimesClimbs | src/services/workspace_orchestrator.rs:453-455 | k steps forward from i, staying below n, reach i + k |
| Orchestration.NextTimesCompose | src/services/workspace_orchestrator.rs:453-455 | a + b steps forward are a steps followed by b steps |
| Orchestration.NextCycle | src/services/workspace_orchestrator.rs:453-455 | n steps forward through n windows return to the starting window |
| Orchestration.FocusedPosition | src/services/workspace_orchestrator.rs:453 | the position found holds a focused window, and there is none exactly when no window is focused |
| Orchestration.FocusAt | src/services/workspace_orchestrator.rs:456-486 | focusing the chosen window leaves exactly that window focused; no choice changes nothing |
| Orchestration.FocusNext | src/services/workspace_orchestrator.rs:446-465 | focusing the next window succeeds; with one tileable window or none nothing but the listing changes, otherwise exactly the next tileable window is focused |
| Orchestration.FocusPrevious | src/services/workspace_orchestrator.rs:468-491 | focusing the previous window succeeds; with one tileable window or none nothing but the listing changes, otherwise exactly the previous tileable window is focused |
| Orchestration.NewWorkspaceShortcut | src/services/workspace_orchestrator.rs:388 | the derived shortcut is `opt+` followed by the name's first character, or `x` for an empty name |
| Orchestration.NewShortcutValidIff | src/services/workspace_orchestrator.rs:384-396 | the derived shortcut passes workspace shortcut validation exactly when the name is empty or starts with a letter or digit |
| Orchestration.ShortcutSplit | src/services/workspace_orchestrator.rs:388 | the derived shortcut splits at `+` into `opt` and its key character (a `+` key gives an empty part) |
| Orchestration.CreateRequestFor | src/services/workspace_orchestrator.rs:390-396 | the request carries the name, the derived shortcut, no pattern and auto-arrange on |
| Orchestration.CreateNewWorkspace | src/services/workspace_orchestrator.rs:384-410 | windows and patterns are untouched; a failure leaves the workspaces as they were; on success the new workspace is stored under the fresh id with the derived shortcut, auto-arrange on, and one of the orchestrator's patterns when it has any; success needs an empty name or one starting with a letter or digit |
| Orchestration.DeleteCurrentWorkspace | src/services/workspace_orchestrator.rs:413-421 | with no active workspace nothing happens; otherwise the active workspace is deleted through the manager |
| Orchestration.SwitchTarget | src/services/workspace_orchestrator.rs:279-288 | a workspace-id parameter names the target; any other parameter targets the first workspace, if there is one |
| Orchestration.ToggleFocusedFloating | src/services/workspace_orchestrator.rs:424-436 | toggling the focused window's floating mode always succeeds and leaves the workspaces alone |
| Orchestration.ToggleFocusedFloatingToggles | src/services/workspace_orchestrator.rs:424-436 | on the listing with minimised windows: with no focused window the refreshed manager is kept, otherwise exactly the first focused window's cached mode is toggled |
| Orchestration.IsTileable | src/services/workspace_orchestrator.rs:173-186 | a tileable window is visible, in tiled mode and has an area above 10000; a minimised, fullscreen or floating window is never tiled |
| Orchestration.SwitchFor | src/services/workspace_orchestrator.rs:279-288 | with no target nothing happens; with a target the switch succeeds exactly when the workspace exists, making it active, and otherwise fails with not-found leaving everything unchanged |
| Orchestration.HandleKeyboardEvent | src/services/workspace_orchestrator.rs:273-339 | each action goes to its handler: switching succeeds exactly when the target exists and then makes it active, an unknown target is a not-found error with nothing changed; acknowledged-only actions change nothing; create, delete, toggle-floating, focus and refresh behave as their handlers |
| Orchestration.HandleWorkspaceEvent | src/services/workspace_orchestrator.rs:250-270 | only an activation, with auto-arrange on switch enabled and the workspace auto-arranging, triggers arrangement; every other event changes nothing |
| Orchestration.SwitchDispatch | src/services/workspace_orchestrator.rs:279-288 | a switch to a stored workspace id makes it active; a switch without an id makes the first workspace active, or does nothing when there are none |
| WindowManagement.NewManager | src/services/window_manager.rs:94-104 | a new manager has an empty cache and zero counters and satisfies the cache invariant |
| WindowManagement.BumpError | src/services/window_manager.rs:301-303 | recording an error adds one to the error count |
| WindowManagement.EnsurePermissions | src/services/window_manager.rs:107-115 | the check passes exactly when the provider's permission is granted; a refusal is a permission error and adds one to the error count |
| WindowManagement.InferMonitor | src/services/window_manager.rs:306-318 | the first monitor whose closed bounds contain the window's origin is chosen, and none exactly when no monitor contains it |
| WindowManagement.InfoOf | src/services/window_manager.rs:28-42 | the cached entry copies the window's id, frame and flags; its mode is fullscreen exactly when the window is, tiled otherwise; a missing monitor is inferred from the origin |
| WindowManagement.RefreshCache | src/services/window_manager.rs:118-150 | the rebuilt cache holds exactly the provider's windows, each converted afresh, and the refresh count goes up by one |
| WindowManagement.RefreshForgetsFloating | src/services/window_manager.rs:133-145 | after a refresh no window is floating, and a window is fullscreen exactly when the provider says so |
| WindowManagement.ListWindows | src/services/window_manager.rs:153-179 | the cache is refreshed only when empty; the result holds exactly the cached windows that pass the minimized and monitor filters, in increasing id order |
| WindowManagement.GetWindow | src/services/window_manager.rs:182-193 | a cached window is returned without refreshing; otherwise the cache is refreshed and the window is found exactly when the provider has it |
| WindowManagement.FocusWindow | src/services/window_manager.rs:196-209 | focusing fails exactly when the provider lacks the window, adding an error and changing nothing else; on success exactly the target is marked focused in the cache, nothing else in the cache changes, and the focus count goes up by one |
| WindowManagement.FocusIsExclusive | src/services/window_manager.rs:196-209 | after a successful focus exactly the target window is focused, in the cache and in the provider |
| WindowManagement.SetWindowFrame | src/services/window_manager.rs:212-234 | moving fails exactly when the provider lacks the window, adding an error; on success a cached window gets the new position and size and nothing else changes, an uncached one triggers a refresh, and the move count goes up by one |
| WindowManagement.SetWindowMinimized | src/services/window_manager.rs:237-259 | minimizing fails exactly when the provider lacks the window, adding an error; on success a cached window gets the new flag and nothing else changes, an uncached one triggers a refresh, and the minimize count goes up by one |
| WindowManagement.FrameThenGet | src/services/window_manager.rs:212-234 | after a successful move, looking the window up finds it, without a refresh, at the new frame |
| WindowManagement.MinimizeThenGet | src/services/window_manager.rs:237-259 | after a successful minimize or restore, looking the window up finds it with the new flag |
| WindowManagement.Toggled | src/services/window_manager.rs:265-273 | toggling keeps fullscreen and changes every other mode |
| WindowManagement.ToggleFloating | src/services/window_manager.rs:262-295 | a cached window flips between tiled and floating and a fullscreen one stays fullscreen; an uncached window is looked for after a refresh and made floating unless fullscreen; a window the provider lacks is not-found and adds an error; the provider is never touched |
| WindowManagement.ToggleTwiceRestores | src/services/window_manager.rs:262-276 | toggling a cached window twice restores the manager and reports its original mode |
| WindowManagement.QueriesPreserveValid | src/services/window_manager.rs:107-193 | refreshing, the permission check, lookup and toggling keep the cache consistent with the provider |
| WindowManagement.CommandsPreserveValid | src/services/window_manager.rs:196-259 | focusing, moving and minimizing keep the cache consistent with the provider |
| Accessibility.NewSize | src/macos/accessibility.rs:26-35 | a size is built exactly when both dimensions are positive, keeping them; otherwise the error is a validation error |
| Accessibility.Index | src/macos/accessibility.rs:210-215 | every window is stored under its own id, every id given is present, and a window with no later duplicate is the one stored |
| Accessibility.NewWith | src/macos/accessibility.rs:210-220 | a provider built from a window list is valid and granted, and holds exactly the ids of the list, each mapped to a window of the list |
| Accessibility.DefaultProvider | src/macos/accessibility.rs:299-306 | the default provider is valid, empty and in the unknown permission state |
| Accessibility.SetPermissionStatus | src/macos/accessibility.rs:222-224 | only the permission status changes |
| Accessibility.EnsurePermissions | src/macos/accessibility.rs:234-244 | the check passes exactly when permission is granted; unknown and denied both fail with a permission error |
| Accessibility.PermissionDefaults | src/macos/accessibility.rs:357-364 | a provider built from windows passes the check; the default one fails it, and so does one set to denied |
| Accessibility.SortedIds | src/macos/accessibility.rs:256 | the ids come out strictly increasing, each id exactly once |
| Accessibility.ListWindows | src/macos/accessibility.rs:250-259 | the listing holds exactly the stored windows that pass the minimized filter, in strictly increasing id order |
| Accessibility.GetWindow | src/macos/accessibility.rs:261-263 | a window is found exactly when its id is stored, and it is the stored one |
| Accessibility.FocusWindow | src/macos/accessibility.rs:226-276 | focusing fails exactly when the id is absent, leaving the provider unchanged with a not-found error; on success only the focus flags change, true for the target and false for all others |
| Accessibility.FocusIsExclusive | src/macos/accessibility.rs:342-355 | after a successful focus the target is the one and only focused window |
| Accessibility.SetWindowFrame | src/macos/accessibility.rs:278-286 | moving fails exactly when the id is absent, changing nothing; on success only the target's frame changes, to the new one |
| Accessibility.SetWindowMinimized | src/macos/accessibility.rs:288-296 | minimizing fails exactly when the id is absent, changing nothing; on success only the target's minimized flag changes, and a valid provider stays valid |
| Accessibility.CommandsPreserveValid | src/macos/accessibility.rs:265-296 | focusing, moving and minimizing keep every window under its own id and the set of ids unchanged |
| Accessibility.MinimizeHidesFromListing | src/macos/accessibility.rs:327-340 | a minimized window drops out of the listing without minimized windows, and a restored window is back in it |
| ErrorRecovery.Backoff | src/error_recovery/mod.rs:413-416 | the delay is the base delay doubled once per attempt, capped at the maximum delay, and never above either |
| ErrorRecovery.Pow2Monotone | src/error_recovery/mod.rs:413-416 | the doubling factor never shrinks as the attempt grows |
| ErrorRecovery.BackoffMonotone | src/error_recovery/mod.rs:413-416 | a later attempt never waits less than an earlier one |
| ErrorRecovery.DefaultBackoffGrows | src/error_recovery/mod.rs:568-581 | with the default settings the first three delays strictly grow and the third stays within the maximum |
| ErrorRecovery.Elapsed | src/error_recovery/mod.rs:424 | the time elapsed since an instant adds up to now, and is zero for an instant in the future |
| ErrorRecovery.RecordFailure | src/error_recovery/mod.rs:437-458 | the operation's breaker is created closed if missing, counts one more failure stamped now, and opens once the threshold is reached; other breakers are untouched |
| ErrorRecovery.FailureNeverCloses | src/error_recovery/mod.rs:437-458 | recording a failure never closes an open breaker |
| ErrorRecovery.OpenBreaker | src/error_recovery/mod.rs:460-474 | the operation's breaker is open and stamped with the given instant, keeping its failure count; other breakers are untouched |
| ErrorRecovery.ResetBreaker | src/error_recovery/mod.rs:475-489 | a breaker with failures is made fresh and closed, one without failures is left as it is, and no breaker is added or removed |
| ErrorRecovery.ResetClearsFailures | src/error_recovery/mod.rs:475-489 | after a reset the breaker has no failures |
| ErrorRecovery.OpenedWithoutFailuresStaysOpen | src/error_recovery/mod.rs:460-489 | a breaker opened by the strategy with no counted failures survives a reset still open |
| ErrorRecovery.StrategyBreakerBlocksTwice | src/error_recovery/mod.rs:418-435 | a breaker opened with the recovery time ahead as its stamp keeps the operation blocked for twice the recovery time |
| ErrorRecovery.ActiveBreakers | src/error_recovery/mod.rs:295-300 | the active breakers are exactly the known, listed operations whose breaker is not closed |
| ErrorRecovery.PermissionFor | src/error_recovery/mod.rs:314-333 | a message names input monitoring exactly when it mentions input and not accessibility, screen recording exactly when it mentions screen and neither of the others, and accessibility otherwise |
| ErrorRecovery.IsCircuitOpen | src/error_recovery/mod.rs:418-435 | a breaker blocks only while it is open with a recorded failure less than the recovery time ago, and always blocks when that failure lies within the last recovery period; with a zero recovery time nothing blocks |
| ErrorRecovery.IsHealthy | src/error_recovery/mod.rs:505-507 | healthy means permissions are granted and no breaker is listed as open; unhealthy means one of the two fails |
| ErrorRecovery.Classify | src/error_recovery/mod.rs:311-364 | configuration and validation errors are not recoverable and everything else is; permission errors keep the permission named in the message, window-not-found keeps the id, workspace-not-found becomes a failed workspace operation, and overload comes only from a system API error |
| ErrorRecovery.Strategy | src/error_recovery/mod.rs:366-400 | permissions are requested exactly for a permission error; unavailable or failed communication opens the breaker from the threshold on; missing windows and overload wait 200 ms or 1 s; otherwise retry with backoff; no-recovery is never chosen |
| ErrorRecovery.AfterFailure | src/error_recovery/mod.rs:141-211 | one failed pass of the retry loop changes no breaker but the operation's own, whether it goes on to the next attempt or stops |
| ErrorRecovery.Loop | src/error_recovery/mod.rs:129-235 | the loop invokes the operation at most the retry bound plus one times, succeeds exactly when the last invocation returned, with its value, and touches only this operation's breaker |
| ErrorRecovery.RecoverAndRetry | src/error_recovery/mod.rs:116-235 | an open breaker refuses the call without invoking the operation; otherwise the operation is invoked once up to retry bound plus one times, success means the last invocation returned and resets this operation's breaker, and other breakers are untouched |
| ErrorRecovery.FirstTimeSuccess | src/error_recovery/mod.rs:116-151 | an operation that returns at once is invoked once, its value is returned, and its breaker is reset |
| ErrorRecovery.TrippedBreakerRefusesNextCall | src/error_recovery/mod.rs:172-187 | with a zero threshold one unavailable-API failure trips the breaker, and the next call is refused without invoking the operation |
| ErrorRecovery.UnrecoverableExhausts | src/error_recovery/mod.rs:199-216 | an operation that keeps failing with an unrecoverable error is invoked the full number of times and its last error is returned |
| ErrorRecovery.Health | src/error_recovery/mod.rs:292-309 | the health report carries the permission result and the check time, and names exactly the listed operations whose breaker is open |
| ErrorRecovery.HealthyIff | src/error_recovery/mod.rs:505-507 | the system is healthy exactly when permissions are granted and every breaker is closed |
| ErrorRecovery.Issues | src/error_recovery/mod.rs:516-527 | there are no issues exactly when the system is healthy, and missing permissions are listed exactly when permissions are not granted |
| ErrorRecovery.Description | src/error_recovery/mod.rs:510-534 | a healthy system gets the healthy text, an unhealthy one a text starting with the issues prefix, and the degraded text never appears |

## Left out

**I/O, runtime and platform**
- Files and TOML: reading, writing, backups and decoding configuration files are not modelled. Neither are the workspace manager's load, save and export operations. Every operation starts from decoded records.
- Concurrency: `tokio` locks, tasks, `sleep` and `timeout` are not modelled. Each service method is one atomic step. The orchestrator's settle delay before applying a layout and its spawned event-listener task are left out.
- Platform code: the macOS Accessibility, CoreGraphics, Objective-C and permission FFI are not modelled, nor is the system tray. The system-backed accessibility provider is left out; the in-memory provider stands in for it.
- Front ends: the command-line interface, logging setup, process lifecycle and `main` are left out. They hold no logic of their own.

**Values drawn from outside**
- Fresh values: `Uuid::new_v4`, `Instant::now` and `chrono` timestamps come in as parameters.
- `HashMap` iteration order: a map is a list, and the list order stands for the iteration order. Three contracts pin the first element of the list. WorkspaceManagement.Reassign hands the active role to the first remaining workspace; WorkspaceManagement.Delete, which uses it, promises only a remaining one. Orchestration.SwitchTarget and Orchestration.SwitchDispatch switch to the first listed workspace. The orchestrator's "first" pattern is a parameter of Orchestration.CreateNewWorkspace, promised only to be some registered pattern when one exists. Which workspace or pattern comes first in a real run is not modelled.
- Regular expressions: whether a window-title pattern compiles, and whether it matches a title, are oracle parameters. The shortcut-format and bundle-id expressions are written out by hand.
- Helpers the code calls but never defines:
  - `ShortcutCombination::to_config_string` is the parameter `signature`.
  - `migrate_command_to_option` replaces every Command modifier with Option.
  - `has_option_modifier` and `contains_modifier` are list membership.

**Arithmetic and floating point**
- The `f64` tiling engine is computed exactly over `real`. NaN, infinities and rounding are not modelled.
- TilingPatterns.MainWidth: `(area.width as f64 * main_area_ratio) as u32` is modelled as the exact product over `real`, floored and then saturated to `u32` by SaturateU32. Rust's `as u32` truncates toward zero and saturates. The two agree on every exact product, because a product between -1 and 0 gives 0 either way. They can differ where the `f64` product rounds across an integer, which the model does not reproduce.
- Rounding: `scale_dimensions` and `scale_position` of a monitor configuration are left out, because they round floating-point products. The workspace manager's running average of switch times is left out for the same reason.
- Character classes: `char::is_alphanumeric` and `is_alphabetic` are modelled as their ASCII subsets.
- WorkspaceManagement.FindByName: lowercases with ASCII case folding, where `find_workspaces_by_name` uses Unicode `str::to_lowercase`. A workspace named "Écran" is therefore not found by the pattern "éc". The other case-insensitive comparisons (ConfigValidator.IsSystemReserved and the keyword search in ErrorRecovery.Classify) compare against fixed ASCII keywords, where both foldings agree.
- TilingPatterns.Inset: the `i32` additions of origin and margin and the `window_margin as i32` cast in `compute_layout` are unbounded here. An origin near the `i32` limit, or a margin above it, would overflow or wrap in the source.
- TilingPatterns.ComputeLayout: requires `Fits`, because the `u32` subtractions of the inset and gaps would underflow and panic in the source.
- MonitorConfigurations.UsableArea: requires `IntersectionInRange`, because the `i32` additions of origin and size would overflow in the source.
- ErrorRecovery.Backoff: requires an attempt below 32, because `2_u32.pow` overflows from 32 on. The retry loop carries the same bound on `max_retries`.

**Approximations and weaker contracts**
- WindowRules.GlobMatch: gives special meaning only to `*` and `?` and takes every other character literally. The source escapes only `.` before building a regex, so other regex metacharacters in an identifier act as regex syntax there.
- ErrorRecovery.RecoverAndRetry: the clock does not advance during the sleeps between attempts. The `tokio` timeout is an outcome of the operation oracle. Requesting permissions is also an oracle outcome.
- ErrorRecovery.StrategyBreakerBlocksTwice: a breaker opened by the circuit-breaker strategy is stamped with an instant one recovery time ahead. Elapsed time from a future instant saturates at zero, so the operation stays blocked for up to twice the recovery time. The model keeps this behaviour as written.
- Permission recovery: `check_and_recover_permissions` and the permission-instruction text are left out. The health report receives the permission result as a parameter.
- ApplicationProfiles.ProfilesByCompatibility: states which profiles are returned, not their order.
- ConfigValidator.ValidateFullConfig: states which results are returned and their sections, not the order within the concatenation.
- MonitorConfigurations.UpdateConfiguration: replaces some entry with the id, not provably the first. The set invariant keeps identifiers unique, so there is only one.

**Small setters left out**
- `MonitorConfiguration::new` is not modelled.
- `ApplicationProfile::add_custom_rule` and `update_compatibility` are not modelled.
- `ApplicationProfileSet::new` and `create_with_defaults` are not modelled.
- The reason: `add_custom_rule`, `update_compatibility` and `ApplicationProfileSet::new` only assign a field, append to a list or build an empty set. `MonitorConfiguration::new` builds the record and runs MonitorConfigurations.Validate on it. `create_with_defaults` builds a fixed list of profiles with ApplicationProfiles.New and inserts them with ApplicationProfiles.AddProfile. The model covers those checks in the members named.

**Behaviour of the code worth knowing**
- Migration is not idempotent. The code replaces "+cmd+" with "+opt+" one non-overlapping occurrence at a time, so "ctrl+cmd+cmd+1" becomes "ctrl+opt+cmd+1" and then "ctrl+opt+opt+1" (ConfigParser.InnerMigrationNotIdempotent).
- Shortcut key class: the parser's key class `[a-zA-Z0-9F1-F12]` contains the range `1-F`. It therefore also admits the characters `:;<=>?@` as keys (ConfigParser.ExampleColonKeyAccepted).
