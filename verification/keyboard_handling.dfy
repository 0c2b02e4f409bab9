/** The keyboard handler service: registers shortcuts, forcing Option (⌥) as the leading
  modifier, refuses reserved and conflicting shortcuts, and turns a pressed combination
  into the event of the mapping bound to it.

  The shared `RwLock`s of the service become one immutable `Handler` value; every
  operation returns the next handler together with its answer.
 */
module KeyboardHandling {
  import W = Wrappers
  import opened Core
  import opened KeyboardMappings

  datatype Metrics = Metrics(
    registered: nat,
    triggered: nat,
    conflictsPrevented: nat,
    migrations: nat)

  datatype Handler = Handler(
    table: KeyboardMappingSet,
    reserved: set<ShortcutCombination>,
    metrics: Metrics)

  /** What a triggered shortcut asks the rest of the system to do. */
  datatype KeyboardEvent = KeyboardEvent(
    mappingId: Uuid,
    action: ActionType,
    parameters: ActionParameters,
    global: bool)

  /** Why a registration was refused. The service flattens both into a
      `ValidationError` carrying the rendered message. */
  datatype RegisterError =
    | ReservedBySystem(shortcut: ShortcutCombination)
    | Rejected(reason: KeyboardMappingError)

  /** A combination that already follows the Option-modifier convention. */
  predicate UsesOption(c: ShortcutCombination) {
    Option in c.modifiers && Command !in c.modifiers
  }

  /** The handler invariant: the table is conflict-free, every stored shortcut uses Option
      and no Command, and the registration counter equals the table size. */
  predicate Valid(h: Handler) {
    && ConflictFree(h.table.mappings)
    && (forall i :: 0 <= i < |h.table.mappings| ==> UsesOption(h.table.mappings[i].combination))
    && h.metrics.registered == |h.table.mappings|
  }

  /** `KeyboardHandler::new`: an empty table and zeroed metrics. */
  function NewHandler(reserved: set<ShortcutCombination>): (h: Handler)
    ensures Valid(h)
    ensures |h.table.mappings| == 0 && h.reserved == reserved
  {
    Handler(KeyboardMappingSet([]), reserved, Metrics(0, 0, 0, 0))
  }

  // ---------------------------------------------------------------------------
  // Option enforcement
  // ---------------------------------------------------------------------------

  /** `migrate_command_to_option` on a modifier list: every Command becomes Option. */
  function ReplaceCommand(ms: seq<ModifierKey>): (r: seq<ModifierKey>)
    ensures |r| == |ms|
    ensures Command !in r
    ensures Option in r <==> Option in ms || Command in ms
    ensures forall x :: x != Command && x != Option ==> (x in r <==> x in ms)
  {
    if |ms| == 0 then []
    else
      var head := if ms[0] == Command then Option else ms[0];
      var rest := ReplaceCommand(ms[1..]);
      assert ms == [ms[0]] + ms[1..];
      [head] + rest
  }

  /** `enforce_option_modifier`: the combination actually stored, and whether it differs
      from the one requested. Command is swapped for Option and Option is added when
      missing; an already-conforming combination is kept as given. */
  function EnforceOptionModifier(c: ShortcutCombination): (r: (ShortcutCombination, bool))
    ensures UsesOption(r.0)
    ensures r.0.key == c.key
    ensures r.1 <==> !UsesOption(c)
    ensures !r.1 ==> r.0 == c
    ensures r.1 ==> StrictlySorted(r.0.modifiers)
    ensures forall x :: x != Command && x != Option ==> (x in r.0.modifiers <==> x in c.modifiers)
  {
    var migrated := ReplaceCommand(c.modifiers);
    var replaced := Command in c.modifiers;
    var withOption := if Option in migrated then migrated else Dedup(SortByName(migrated + [Option]));
    assert Option in withOption by {
      if Option !in migrated {
        assert Option in multiset(migrated + [Option]);
        assert Option in SortByName(migrated + [Option]);
        assert Option in Elems(SortByName(migrated + [Option]));
      }
    }
    assert forall x :: x != Option ==> (x in withOption <==> x in migrated) by {
      if Option !in migrated {
        var sorted := SortByName(migrated + [Option]);
        forall x | x != Option ensures x in withOption <==> x in migrated {
          assert x in Elems(withOption) <==> x in Elems(sorted);
          assert x in sorted <==> x in multiset(sorted);
          assert x in migrated + [Option] <==> x in multiset(migrated + [Option]);
        }
      }
    }
    if replaced || Option !in migrated then (NewCombination(withOption, c.key), true)
    else (c, false)
  }

  /** Enforcement is idempotent: its result is left alone by a second pass. */
  lemma EnforceOptionIdempotent(c: ShortcutCombination)
    ensures EnforceOptionModifier(EnforceOptionModifier(c).0) == (EnforceOptionModifier(c).0, false)
  {
  }

  // ---------------------------------------------------------------------------
  // Registration
  // ---------------------------------------------------------------------------

  /** `register_mapping`. The checks run in the order of the service: the enforced
      shortcut is looked up among the reserved ones (counting a prevented conflict),
      then the mapping is validated, then inserted. On success the registration counter
      is refreshed and a migration is counted if enforcement changed the shortcut. */
  function Register(h: Handler, m: KeyboardMapping): (r: (Handler, W.Result<Uuid, RegisterError>))
    ensures var (c, changed) := EnforceOptionModifier(m.combination);
            var stored := m.(combination := c);
            && (r.1 == W.Err(ReservedBySystem(c)) <==> c in h.reserved)
            && (r.1.Ok? <==> c !in h.reserved && MappingIsValid(stored)
                             && forall j :: 0 <= j < |h.table.mappings| ==> !ConflictsWith(stored, h.table.mappings[j]))
            && (r.1.Ok? ==> r.1.value == m.id && r.0.table.mappings == h.table.mappings + [stored])
            && (r.1.Ok? ==> r.0.metrics.migrations == h.metrics.migrations + (if changed then 1 else 0))
            && (r.1.Ok? ==> r.0.metrics.registered == |h.table.mappings| + 1)
    ensures r.1.Err? ==> r.0.table == h.table && r.0.metrics.registered == h.metrics.registered
    ensures r.0.metrics.conflictsPrevented == h.metrics.conflictsPrevented + (if r.1 == W.Err(ReservedBySystem(EnforceOptionModifier(m.combination).0)) then 1 else 0)
    ensures r.0.reserved == h.reserved && r.0.metrics.triggered == h.metrics.triggered
  {
    var (c, changed) := EnforceOptionModifier(m.combination);
    var stored := m.(combination := c);
    if c in h.reserved then
      (h.(metrics := h.metrics.(conflictsPrevented := h.metrics.conflictsPrevented + 1)),
       W.Err(ReservedBySystem(c)))
    else
      match Validate(stored)
      case Fail(e) => (h, W.Err(Rejected(e)))
      case Pass =>
        match AddMapping(h.table, stored)
        case Err(e) => (h, W.Err(Rejected(e)))
        case Ok(t) =>
          var migrations := if changed then h.metrics.migrations + 1 else h.metrics.migrations;
          (Handler(t, h.reserved, h.metrics.(registered := |t.mappings|, migrations := migrations)),
           W.Ok(m.id))
  }

  /** Registration keeps the handler invariant. */
  lemma RegisterPreservesValid(h: Handler, m: KeyboardMapping)
    requires Valid(h)
    ensures Valid(Register(h, m).0)
  {
    var c := EnforceOptionModifier(m.combination).0;
    var stored := m.(combination := c);
    if Register(h, m).1.Ok? {
      AddMappingPreservesConflictFree(h.table, stored);
      assert AddMapping(h.table, stored).Ok?;
      var ms := Register(h, m).0.table.mappings;
      forall i | 0 <= i < |ms| ensures UsesOption(ms[i].combination) {
        if i < |h.table.mappings| {
          assert ms[i] == h.table.mappings[i];
        }
      }
    }
  }

  /** `unregister_mapping`: removes the mapping with that id; the counter follows the table. */
  function Unregister(h: Handler, id: Uuid): (r: (Handler, bool))
    ensures r.1 <==> exists j :: 0 <= j < |h.table.mappings| && h.table.mappings[j].id == id
    ensures !r.1 ==> r.0 == h
    ensures r.1 ==> |r.0.table.mappings| == |h.table.mappings| - 1
                    && r.0.metrics.registered == |r.0.table.mappings|
    ensures forall x :: x in r.0.table.mappings ==> x in h.table.mappings
    ensures r.0.reserved == h.reserved
  {
    RemoveMappingSubset(h.table, id);
    var (t, removed) := RemoveMapping(h.table, id);
    if removed then (h.(table := t, metrics := h.metrics.(registered := |t.mappings|)), true)
    else (h, false)
  }

  /** Unregistering keeps the handler invariant. */
  lemma UnregisterPreservesValid(h: Handler, id: Uuid)
    requires Valid(h)
    ensures Valid(Unregister(h, id).0)
  {
    var ms := Unregister(h, id).0.table.mappings;
    RemoveMappingPreservesConflictFree(h.table, id);
    RemoveMappingSubset(h.table, id);
    forall i | 0 <= i < |ms| ensures UsesOption(ms[i].combination) {
      assert ms[i] in h.table.mappings;
      var j :| 0 <= j < |h.table.mappings| && h.table.mappings[j] == ms[i];
    }
  }

  // ---------------------------------------------------------------------------
  // Dispatch
  // ---------------------------------------------------------------------------

  /** The event a mapping emits when its shortcut is pressed. */
  function EventOf(m: KeyboardMapping): KeyboardEvent {
    KeyboardEvent(m.id, m.action, m.parameters, m.globalScope)
  }

  /** `handle_shortcut`: the event of the first enabled mapping bound to the combination,
      counting a triggered event only when there is one. */
  function HandleShortcut(h: Handler, c: ShortcutCombination): (r: (Handler, W.Option<KeyboardEvent>))
    ensures r.1.None? <==> forall j :: 0 <= j < |h.table.mappings| ==>
              !(h.table.mappings[j].enabled && h.table.mappings[j].combination == c)
    ensures r.1.Some? ==> (exists j :: 0 <= j < |h.table.mappings| && h.table.mappings[j].enabled
                             && h.table.mappings[j].combination == c
                             && r.1.value == EventOf(h.table.mappings[j])
                             && forall k :: 0 <= k < j ==>
                                  !(h.table.mappings[k].enabled && h.table.mappings[k].combination == c))
    ensures r.0.metrics.triggered == h.metrics.triggered + (if r.1.Some? then 1 else 0)
    ensures r.0.table == h.table && r.0.reserved == h.reserved
    ensures Valid(h) ==> Valid(r.0)
  {
    match FindByShortcut(h.table, c)
    case None => (h, W.None)
    case Some(m) =>
      (h.(metrics := h.metrics.(triggered := h.metrics.triggered + 1)),
       W.Some(EventOf(m)))
  }

  /** A successful registration under a fresh id is reachable: pressing the stored
      shortcut of an enabled mapping yields that mapping's event. */
  lemma RegisterThenHandle(h: Handler, m: KeyboardMapping)
    requires Valid(h) && m.enabled
    requires forall j :: 0 <= j < |h.table.mappings| ==> h.table.mappings[j].id != m.id
    requires Register(h, m).1.Ok?
    ensures HandleShortcut(Register(h, m).0, EnforceOptionModifier(m.combination).0).1
            == W.Some(EventOf(m.(combination := EnforceOptionModifier(m.combination).0)))
  {
    var c := EnforceOptionModifier(m.combination).0;
    var stored := m.(combination := c);
    var ms := Register(h, m).0.table.mappings;
    assert ms == h.table.mappings + [stored];
    var k := |ms| - 1;
    assert ms[k] == stored;
    var f := FindByShortcut(Register(h, m).0.table, c);
    assert f.Some? by {
      assert ms[k].enabled && ms[k].combination == c;
    }
    var i :| 0 <= i < |ms| && ms[i] == f.value;
  }
}
