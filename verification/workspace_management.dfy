/** The workspace manager: creation, update, deletion and switching of workspaces, with
  unique names and shortcuts, a capacity limit and an active-workspace pointer.

  The `HashMap<Uuid, Workspace>` of the service is a list of workspaces here; `Keys`
  and `Lookup` give its map view. The list order stands for the map's unspecified
  iteration order. `Reassign` hands the active role to the first remaining workspace;
  `Delete`, which uses it, promises only some remaining one.
  Every operation is one atomic step returning the next manager, its answer and the
  events emitted to listeners.
 */
module WorkspaceManagement {
  import opened Wrappers
  import opened Core
  import Seqs
  import opened Text
  import opened Workspaces

  datatype Config = Config(maxWorkspaces: nat)

  /** `WorkspaceManagerConfig::default` as far as the model uses it. */
  const DefaultConfig: Config := Config(20)

  datatype Metrics = Metrics(switchCount: nat, createdCount: nat, deletedCount: nat, errorCount: nat)

  datatype Manager = Manager(
    workspaces: seq<Workspace>,
    active: Option<Uuid>,
    config: Config,
    metrics: Metrics)

  datatype WorkspaceEvent =
    | WorkspaceCreated(workspace: Workspace)
    | WorkspaceUpdated(workspace: Workspace)
    | WorkspaceDeleted(workspaceId: Uuid)
    | WorkspaceActivated(workspace: Workspace, previous: Option<Uuid>)

  datatype ManagerError =
    | LimitReached(max: nat)
    | DuplicateName(name: string)
    | DuplicateShortcut(shortcut: string)
    | Invalid(reason: WorkspaceError)
    | NotFound(id: Uuid)

  /** One step: the manager afterwards, the answer, and the events in emission order. */
  datatype Step<T> = Step(manager: Manager, result: Result<T, ManagerError>, events: seq<WorkspaceEvent>)

  /** `WorkspaceManager::new`: no workspaces, nothing active, zeroed metrics. */
  function NewManager(config: Config): (m: Manager)
    ensures Valid(m) && |m.workspaces| == 0 && m.active.None?
  {
    Manager([], None, config, Metrics(0, 0, 0, 0))
  }

  // ---------------------------------------------------------------------------
  // The map view
  // ---------------------------------------------------------------------------

  function Keys(ws: seq<Workspace>): set<Uuid> {
    set i | 0 <= i < |ws| :: ws[i].id
  }

  /** Position of the first workspace with the id. */
  function IndexOf(ws: seq<Workspace>, id: Uuid): (r: Option<nat>)
    ensures r.None? <==> id !in Keys(ws)
    ensures r.Some? ==> r.value < |ws| && ws[r.value].id == id
    ensures r.Some? ==> forall j :: 0 <= j < r.value ==> ws[j].id != id
  {
    Seqs.FirstWhere(ws, (w: Workspace) => w.id == id)
  }

  /** `HashMap::get`. */
  function Lookup(ws: seq<Workspace>, id: Uuid): (r: Option<Workspace>)
    ensures r.Some? <==> id in Keys(ws)
    ensures r.Some? ==> r.value.id == id && r.value in ws
  {
    match IndexOf(ws, id)
    case None => None
    case Some(i) => Some(ws[i])
  }

  predicate DistinctIds(ws: seq<Workspace>) {
    forall i, j :: 0 <= i < j < |ws| ==> ws[i].id != ws[j].id
  }

  predicate NamesUnique(ws: seq<Workspace>) {
    forall i, j :: 0 <= i < j < |ws| ==> ws[i].name != ws[j].name
  }

  predicate ShortcutsUnique(ws: seq<Workspace>) {
    forall i, j :: 0 <= i < j < |ws| ==> ws[i].keyboardShortcut != ws[j].keyboardShortcut
  }

  /** The manager invariant: a proper map, unique names and shortcuts, at most the
      configured number of workspaces, and an active id naming a stored workspace. */
  predicate Valid(m: Manager) {
    && DistinctIds(m.workspaces)
    && NamesUnique(m.workspaces)
    && ShortcutsUnique(m.workspaces)
    && |m.workspaces| <= m.config.maxWorkspaces
    && (m.active.Some? ==> m.active.value in Keys(m.workspaces))
  }

  /** Replacing the workspace at a position by one with the same id: the map changes at
      that id only. */
  lemma LookupAfterReplace(ws: seq<Workspace>, i: nat, w: Workspace, x: Uuid)
    requires IndexOf(ws, w.id) == Some(i)
    ensures Keys(ws[i := w]) == Keys(ws)
    ensures Lookup(ws[i := w], x) == (if x == w.id then Some(w) else Lookup(ws, x))
  {
    var r := ws[i := w];
    forall y | y in Keys(r) ensures y in Keys(ws) {
      var k :| 0 <= k < |r| && r[k].id == y;
      assert ws[k].id == y;
    }
    forall y | y in Keys(ws) ensures y in Keys(r) {
      var k :| 0 <= k < |ws| && ws[k].id == y;
      assert r[k].id == y;
    }
    if x != w.id && x in Keys(ws) {
      var p := IndexOf(ws, x).value;
      var q := IndexOf(r, x).value;
      assert p != i && q != i;
      assert r[p].id == x;
      assert ws[q] == r[q];
    } else if x == w.id {
      assert r[i].id == x;
    }
  }

  /** Removing the first entry with an id: in a proper map that id disappears and every
      other id keeps its workspace. */
  lemma LookupAfterRemove(ws: seq<Workspace>, i: nat, x: Uuid)
    requires DistinctIds(ws)
    requires i < |ws|
    ensures DistinctIds(ws[..i] + ws[i + 1..])
    ensures Keys(ws[..i] + ws[i + 1..]) == Keys(ws) - {ws[i].id}
    ensures Lookup(ws[..i] + ws[i + 1..], x) == (if x == ws[i].id then None else Lookup(ws, x))
  {
    var r := ws[..i] + ws[i + 1..];
    RemoveAtShifts(ws, i);
    KeysAfterRemove(ws, i);
    if x != ws[i].id && x in Keys(ws) {
      var p := IndexOf(ws, x).value;
      assert p != i;
      var p' := if p < i then p else p - 1;
      assert r[p'] == ws[p];
      assert x in Keys(r);
      var q := IndexOf(r, x).value;
      var q' := if q < i then q else q + 1;
      assert ws[q'] == r[q] && ws[q'].id == x;
      assert q' == p;
      assert Lookup(r, x) == Some(r[q]) && Lookup(ws, x) == Some(ws[p]);
    } else if x == ws[i].id {
      assert x !in Keys(r);
    }
  }

  /** Removing position `i` of a proper map leaves every other lookup as it was. */
  lemma LookupsAfterRemove(ws: seq<Workspace>, i: nat)
    requires DistinctIds(ws) && i < |ws|
    ensures forall x :: x != ws[i].id ==> Lookup(ws[..i] + ws[i + 1..], x) == Lookup(ws, x)
  {
    forall x | x != ws[i].id ensures Lookup(ws[..i] + ws[i + 1..], x) == Lookup(ws, x) {
      LookupAfterRemove(ws, i, x);
    }
  }

  /** Removing position `i` shifts every later entry down by one. */
  lemma RemoveAtShifts(ws: seq<Workspace>, i: nat)
    requires i < |ws|
    ensures |ws[..i] + ws[i + 1..]| == |ws| - 1
    ensures forall k :: 0 <= k < i ==> (ws[..i] + ws[i + 1..])[k] == ws[k]
    ensures forall k :: i < k < |ws| ==> (ws[..i] + ws[i + 1..])[k - 1] == ws[k]
  {
  }

  /** Removing position `i` of a proper map drops exactly the id stored there. */
  lemma KeysAfterRemove(ws: seq<Workspace>, i: nat)
    requires DistinctIds(ws)
    requires i < |ws|
    ensures DistinctIds(ws[..i] + ws[i + 1..])
    ensures Keys(ws[..i] + ws[i + 1..]) == Keys(ws) - {ws[i].id}
  {
    var r := ws[..i] + ws[i + 1..];
    RemoveAtShifts(ws, i);
    forall a, b | 0 <= a < b < |r| ensures r[a].id != r[b].id {
      var a', b' := if a < i then a else a + 1, if b < i then b else b + 1;
      assert r[a] == ws[a'] && r[b] == ws[b'] && a' < b';
    }
    forall y | y in Keys(r) ensures y in Keys(ws) - {ws[i].id} {
      var k :| 0 <= k < |r| && r[k].id == y;
      if k < i { assert ws[k].id == y; } else { assert ws[k + 1].id == y; }
    }
    forall y | y in Keys(ws) - {ws[i].id} ensures y in Keys(r) {
      var k :| 0 <= k < |ws| && ws[k].id == y;
      if k < i { assert r[k].id == y; } else { assert r[k - 1].id == y; }
    }
  }

  /** Appending a workspace with a new id adds exactly that key. */
  lemma LookupAfterAppend(ws: seq<Workspace>, w: Workspace, x: Uuid)
    requires w.id !in Keys(ws)
    ensures Keys(ws + [w]) == Keys(ws) + {w.id}
    ensures Lookup(ws + [w], x) == (if x == w.id then Some(w) else Lookup(ws, x))
  {
    var r := ws + [w];
    forall y | y in Keys(r) ensures y in Keys(ws) + {w.id} {
      var k :| 0 <= k < |r| && r[k].id == y;
      if k < |ws| { assert ws[k].id == y; }
    }
    forall y | y in Keys(ws) ensures y in Keys(r) {
      var k :| 0 <= k < |ws| && ws[k].id == y;
      assert r[k].id == y;
    }
    assert r[|ws|].id == w.id;
    if x in Keys(ws) {
      var p := IndexOf(ws, x).value;
      var q := IndexOf(r, x).value;
      assert r[p].id == x;
    }
  }

  /** `HashMap::insert`: overwrites the entry with that id, or adds one. */
  function Put(ws: seq<Workspace>, w: Workspace): (r: seq<Workspace>)
    ensures Keys(r) == Keys(ws) + {w.id}
    ensures forall x :: Lookup(r, x) == (if x == w.id then Some(w) else Lookup(ws, x))
  {
    match IndexOf(ws, w.id)
    case Some(i) =>
      forall x ensures Lookup(ws[i := w], x) == (if x == w.id then Some(w) else Lookup(ws, x)) {
        LookupAfterReplace(ws, i, w, x);
      }
      LookupAfterReplace(ws, i, w, w.id);
      ws[i := w]
    case None =>
      forall x ensures Lookup(ws + [w], x) == (if x == w.id then Some(w) else Lookup(ws, x)) {
        LookupAfterAppend(ws, w, x);
      }
      LookupAfterAppend(ws, w, w.id);
      ws + [w]
  }

  predicate NameTaken(ws: seq<Workspace>, name: string) {
    exists i :: 0 <= i < |ws| && ws[i].name == name
  }

  predicate ShortcutTaken(ws: seq<Workspace>, shortcut: string) {
    exists i :: 0 <= i < |ws| && ws[i].keyboardShortcut == shortcut
  }

  // ---------------------------------------------------------------------------
  // Switching
  // ---------------------------------------------------------------------------

  /** `switch_to_workspace`: makes the workspace active, stamps its last use, counts the
      switch and reports the previously active id. The workspace's own `state` is not
      touched. The event carries the workspace as it was before the stamp. */
  function Switch(m: Manager, id: Uuid, now: int): (r: Step<Option<Uuid>>)
    ensures r.result.Err? <==> id !in Keys(m.workspaces)
    ensures r.result.Err? ==> r.manager == m && r.result.error == NotFound(id) && r.events == []
    ensures r.result.Ok? ==> && r.manager.active == Some(id)
                             && r.result.value == m.active
                             && r.manager.metrics == m.metrics.(switchCount := m.metrics.switchCount + 1)
                             && r.manager.config == m.config
                             && Keys(r.manager.workspaces) == Keys(m.workspaces)
                             && Lookup(r.manager.workspaces, id) == Some(Lookup(m.workspaces, id).value.(lastUsed := Some(now)))
                             && (forall x :: x != id ==> Lookup(r.manager.workspaces, x) == Lookup(m.workspaces, x))
                             && r.events == [WorkspaceActivated(Lookup(m.workspaces, id).value, m.active)]
  {
    match IndexOf(m.workspaces, id)
    case None => Step(m, Err(NotFound(id)), [])
    case Some(i) =>
      var w := m.workspaces[i];
      var stamped := w.(lastUsed := Some(now));
      forall x ensures Lookup(m.workspaces[i := stamped], x) == (if x == id then Some(stamped) else Lookup(m.workspaces, x)) {
        LookupAfterReplace(m.workspaces, i, stamped, x);
      }
      LookupAfterReplace(m.workspaces, i, stamped, id);
      Step(Manager(m.workspaces[i := stamped], Some(id), m.config,
                   m.metrics.(switchCount := m.metrics.switchCount + 1)),
           Ok(m.active),
           [WorkspaceActivated(w, m.active)])
  }

  /** Switching keeps the manager invariant. */
  lemma SwitchPreservesValid(m: Manager, id: Uuid, now: int)
    requires Valid(m)
    ensures Valid(Switch(m, id, now).manager)
  {
    if IndexOf(m.workspaces, id).Some? {
      var i := IndexOf(m.workspaces, id).value;
      var ws := Switch(m, id, now).manager.workspaces;
      assert forall k :: 0 <= k < |ws| ==>
        (ws[k].id == m.workspaces[k].id && ws[k].name == m.workspaces[k].name
         && ws[k].keyboardShortcut == m.workspaces[k].keyboardShortcut);
    }
  }

  // ---------------------------------------------------------------------------
  // Creation
  // ---------------------------------------------------------------------------

  /** `create_workspace`. The limit, a duplicate name and a duplicate shortcut are refused
      in that order, each counted as an error with the map unchanged. A request that fails
      validation is refused without counting. Otherwise the workspace is stored under the
      fresh id, counted, announced, and switched to when nothing was active. */
  function Create(m: Manager, req: CreateRequest, defaultPatternId: Uuid, freshId: Uuid, now: int)
    : (r: Step<Uuid>)
    ensures |m.workspaces| >= m.config.maxWorkspaces ==> r.result == Err(LimitReached(m.config.maxWorkspaces))
    ensures |m.workspaces| < m.config.maxWorkspaces && NameTaken(m.workspaces, req.name)
            ==> r.result == Err(DuplicateName(req.name))
    ensures |m.workspaces| < m.config.maxWorkspaces && !NameTaken(m.workspaces, req.name)
            && ShortcutTaken(m.workspaces, req.keyboardShortcut)
            ==> r.result == Err(DuplicateShortcut(req.keyboardShortcut))
    ensures r.result.Ok? <==> && |m.workspaces| < m.config.maxWorkspaces
                              && !NameTaken(m.workspaces, req.name)
                              && !ShortcutTaken(m.workspaces, req.keyboardShortcut)
                              && CreateRequestIsValid(req)
    ensures r.result.Err? ==> r.manager.workspaces == m.workspaces && r.manager.active == m.active && r.events == []
    ensures r.result.Err? ==> r.manager.metrics.errorCount
                              == m.metrics.errorCount + (if r.result.error.Invalid? then 0 else 1)
    ensures r.result.Ok? ==> && r.result.value == freshId
                             && Keys(r.manager.workspaces) == Keys(m.workspaces) + {freshId}
                             && (forall x :: x != freshId ==> Lookup(r.manager.workspaces, x) == Lookup(m.workspaces, x))
                             && r.manager.metrics.createdCount == m.metrics.createdCount + 1
                             && r.manager.active == (if m.active.None? then Some(freshId) else m.active)
                             && |r.events| > 0 && r.events[0] == WorkspaceCreated(NewWorkspace(req, defaultPatternId, freshId, now).value)
    ensures r.result.Ok? ==> && Lookup(r.manager.workspaces, freshId).Some?
                             && var v := Lookup(r.manager.workspaces, freshId).value;
                                && v.name == req.name && v.keyboardShortcut == req.keyboardShortcut
                                && v.description == req.description
                                && v.tilingPatternId == req.tilingPatternId.GetOr(defaultPatternId)
                                && v == NewWorkspace(req, defaultPatternId, freshId, now).value.(
                                          lastUsed := if m.active.None? then Some(now) else None)
    ensures r.manager.config == m.config
  {
    var counted := m.(metrics := m.metrics.(errorCount := m.metrics.errorCount + 1));
    if |m.workspaces| >= m.config.maxWorkspaces then
      Step(counted, Err(LimitReached(m.config.maxWorkspaces)), [])
    else if NameTaken(m.workspaces, req.name) then
      Step(counted, Err(DuplicateName(req.name)), [])
    else if ShortcutTaken(m.workspaces, req.keyboardShortcut) then
      Step(counted, Err(DuplicateShortcut(req.keyboardShortcut)), [])
    else
      match NewWorkspace(req, defaultPatternId, freshId, now)
      case Err(e) => Step(m, Err(Invalid(e)), [])
      case Ok(w) =>
        var stored := m.(workspaces := Put(m.workspaces, w),
                         metrics := m.metrics.(createdCount := m.metrics.createdCount + 1));
        if m.active.None? then
          var s := Switch(stored, freshId, now);
          Step(s.manager, Ok(freshId), [WorkspaceCreated(w)] + s.events)
        else
          Step(stored, Ok(freshId), [WorkspaceCreated(w)])
  }

  /** Creation keeps the manager invariant: the new name and shortcut are unused, the limit
      was not reached, and the new workspace is stored before it can become active. */
  lemma CreatePreservesValid(m: Manager, req: CreateRequest, defaultPatternId: Uuid, freshId: Uuid, now: int)
    requires Valid(m)
    ensures Valid(Create(m, req, defaultPatternId, freshId, now).manager)
  {
    var r := Create(m, req, defaultPatternId, freshId, now);
    if r.result.Ok? {
      var w := NewWorkspace(req, defaultPatternId, freshId, now).value;
      var ws := Put(m.workspaces, w);
      var stored := m.(workspaces := ws, metrics := m.metrics.(createdCount := m.metrics.createdCount + 1));
      PutPreservesUniqueness(m.workspaces, w);
      assert Valid(stored);
      if m.active.None? {
        SwitchPreservesValid(stored, freshId, now);
      }
    }
  }

  /** Storing a workspace whose name and shortcut no stored workspace uses keeps the map
      proper and names and shortcuts unique, and grows it by at most one. */
  lemma PutPreservesUniqueness(ws: seq<Workspace>, w: Workspace)
    requires DistinctIds(ws) && NamesUnique(ws) && ShortcutsUnique(ws)
    requires !NameTaken(ws, w.name) && !ShortcutTaken(ws, w.keyboardShortcut)
    ensures DistinctIds(Put(ws, w)) && NamesUnique(Put(ws, w)) && ShortcutsUnique(Put(ws, w))
    ensures |Put(ws, w)| <= |ws| + 1
  {
    var r := Put(ws, w);
    match IndexOf(ws, w.id)
    case Some(i) =>
      assert r == ws[i := w];
      forall a, b | 0 <= a < b < |r|
        ensures r[a].id != r[b].id && r[a].name != r[b].name && r[a].keyboardShortcut != r[b].keyboardShortcut
      {
        if a == i {
          assert r[b] == ws[b];
        } else if b == i {
          assert r[a] == ws[a];
        }
      }
    case None =>
      assert r == ws + [w];
      forall a, b | 0 <= a < b < |r|
        ensures r[a].id != r[b].id && r[a].name != r[b].name && r[a].keyboardShortcut != r[b].keyboardShortcut
      {
        if b == |ws| {
          assert r[a] == ws[a];
          assert ws[a].id in Keys(ws);
        }
      }
  }

  // ---------------------------------------------------------------------------
  // Update
  // ---------------------------------------------------------------------------

  predicate NameClash(ws: seq<Workspace>, w: Workspace) {
    exists i :: 0 <= i < |ws| && ws[i].id != w.id && ws[i].name == w.name
  }

  predicate ShortcutClash(ws: seq<Workspace>, w: Workspace) {
    exists i :: 0 <= i < |ws| && ws[i].id != w.id && ws[i].keyboardShortcut == w.keyboardShortcut
  }

  /** `update_workspace`: replaces the stored workspace with the same id. A name or
      shortcut used by another workspace is refused first, then an unknown id. The
      replacement itself is not validated. */
  function UpdateWorkspace(m: Manager, w: Workspace): (r: Step<()>)
    ensures r.result.Ok? <==> !NameClash(m.workspaces, w) && !ShortcutClash(m.workspaces, w)
                              && w.id in Keys(m.workspaces)
    ensures NameClash(m.workspaces, w) ==> r.result == Err(DuplicateName(w.name))
    ensures !NameClash(m.workspaces, w) && ShortcutClash(m.workspaces, w)
            ==> r.result == Err(DuplicateShortcut(w.keyboardShortcut))
    ensures r.result.Err? ==> r.manager == m && r.events == []
    ensures r.result.Ok? ==> && Keys(r.manager.workspaces) == Keys(m.workspaces)
                             && Lookup(r.manager.workspaces, w.id) == Some(w)
                             && (forall x :: x != w.id ==> Lookup(r.manager.workspaces, x) == Lookup(m.workspaces, x))
                             && r.manager.active == m.active && r.manager.metrics == m.metrics
                             && r.events == [WorkspaceUpdated(w)]
    ensures r.manager.config == m.config
  {
    if NameClash(m.workspaces, w) then Step(m, Err(DuplicateName(w.name)), [])
    else if ShortcutClash(m.workspaces, w) then Step(m, Err(DuplicateShortcut(w.keyboardShortcut)), [])
    else
      match IndexOf(m.workspaces, w.id)
      case None => Step(m, Err(NotFound(w.id)), [])
      case Some(i) =>
        forall x ensures Lookup(m.workspaces[i := w], x) == (if x == w.id then Some(w) else Lookup(m.workspaces, x)) {
          LookupAfterReplace(m.workspaces, i, w, x);
        }
        LookupAfterReplace(m.workspaces, i, w, w.id);
        Step(m.(workspaces := m.workspaces[i := w]), Ok(()), [WorkspaceUpdated(w)])
  }

  /** Updating keeps the manager invariant. */
  lemma UpdatePreservesValid(m: Manager, w: Workspace)
    requires Valid(m)
    ensures Valid(UpdateWorkspace(m, w).manager)
  {
    if UpdateWorkspace(m, w).result.Ok? {
      var i := IndexOf(m.workspaces, w.id).value;
      var ws := UpdateWorkspace(m, w).manager.workspaces;
      assert ws == m.workspaces[i := w];
      forall a, b | 0 <= a < b < |ws|
        ensures ws[a].id != ws[b].id && ws[a].name != ws[b].name && ws[a].keyboardShortcut != ws[b].keyboardShortcut
      {
        if a == i {
          assert ws[b] == m.workspaces[b];
        } else if b == i {
          assert ws[a] == m.workspaces[a];
        }
      }
      assert Keys(ws) == Keys(m.workspaces);
    }
  }

  // ---------------------------------------------------------------------------
  // Deletion
  // ---------------------------------------------------------------------------

  /** `delete_workspace`: removes the workspace. When it was the active one, the manager
      switches to some remaining workspace (the first in iteration order), or clears the
      pointer when none remains. The deletion is counted and announced. */
  function Delete(m: Manager, id: Uuid, now: int): (r: Step<()>)
    ensures r.result.Err? <==> id !in Keys(m.workspaces)
    ensures r.result.Err? ==> r.manager == m && r.result.error == NotFound(id) && r.events == []
    ensures r.result.Ok? ==> r.manager.metrics.deletedCount == m.metrics.deletedCount + 1
    ensures r.result.Ok? && m.active != Some(id) ==> r.manager.active == m.active
    ensures r.result.Ok? && m.active == Some(id) ==>
              (r.manager.active.None? <==> |m.workspaces| == 1)
    ensures r.result.Ok? && DistinctIds(m.workspaces) ==>
              && Keys(r.manager.workspaces) == Keys(m.workspaces) - {id}
              && (r.manager.active.Some? && m.active == Some(id) ==> r.manager.active.value in Keys(r.manager.workspaces))
    ensures r.result.Ok? && DistinctIds(m.workspaces) ==>
              forall x :: x != id ==>
                Lookup(r.manager.workspaces, x)
                == (if m.active == Some(id) && r.manager.active == Some(x)
                    then Some(Lookup(m.workspaces, x).value.(lastUsed := Some(now)))
                    else Lookup(m.workspaces, x))
    ensures r.result.Ok? ==> |r.events| > 0 && r.events[|r.events| - 1] == WorkspaceDeleted(id)
    ensures r.manager.config == m.config
  {
    match IndexOf(m.workspaces, id)
    case None => Step(m, Err(NotFound(id)), [])
    case Some(i) =>
      var rest := m.workspaces[..i] + m.workspaces[i + 1..];
      var after := Reassign(m.(workspaces := rest), id, now);
      assert DistinctIds(m.workspaces) ==> Keys(rest) == Keys(m.workspaces) - {id} by {
        if DistinctIds(m.workspaces) { LookupAfterRemove(m.workspaces, i, id); }
      }
      assert DistinctIds(m.workspaces) ==> forall x :: x != id ==> Lookup(rest, x) == Lookup(m.workspaces, x) by {
        if DistinctIds(m.workspaces) { LookupsAfterRemove(m.workspaces, i); }
      }
      Step(after.manager.(metrics := after.manager.metrics.(deletedCount := m.metrics.deletedCount + 1)),
           Ok(()), after.events + [WorkspaceDeleted(id)])
  }

  /** After removing a workspace: when it was the active one, switch to the first remaining
      workspace, or clear the pointer when none remains; otherwise nothing changes. */
  function Reassign(removed: Manager, id: Uuid, now: int): (r: Step<Option<Uuid>>)
    ensures removed.active != Some(id) ==> r.manager == removed && r.events == []
    ensures removed.active == Some(id) ==>
              && (r.manager.active.None? <==> |removed.workspaces| == 0)
              && (r.manager.active.Some? ==> r.manager.active.value in Keys(removed.workspaces))
    ensures Keys(r.manager.workspaces) == Keys(removed.workspaces)
    ensures |r.manager.workspaces| == |removed.workspaces|
    ensures forall k :: 0 <= k < |r.manager.workspaces| ==>
              && r.manager.workspaces[k].id == removed.workspaces[k].id
              && r.manager.workspaces[k].name == removed.workspaces[k].name
              && r.manager.workspaces[k].keyboardShortcut == removed.workspaces[k].keyboardShortcut
    ensures r.manager.config == removed.config && r.manager.metrics.deletedCount == removed.metrics.deletedCount
    ensures removed.active == Some(id) && |removed.workspaces| > 0 ==>
              r.manager.active == Some(removed.workspaces[0].id)
    ensures forall x :: Lookup(r.manager.workspaces, x)
                        == (if removed.active == Some(id) && r.manager.active == Some(x)
                            then Some(Lookup(removed.workspaces, x).value.(lastUsed := Some(now)))
                            else Lookup(removed.workspaces, x))
  {
    if removed.active == Some(id) then
      if |removed.workspaces| > 0 then
        assert removed.workspaces[0].id in Keys(removed.workspaces);
        Switch(removed, removed.workspaces[0].id, now)
      else Step(removed.(active := None), Ok(None), [])
    else Step(removed, Ok(None), [])
  }

  /** Removing one entry keeps ids, names and shortcuts pairwise different. */
  lemma RemoveKeepsUnique(ws: seq<Workspace>, i: nat)
    requires DistinctIds(ws) && NamesUnique(ws) && ShortcutsUnique(ws)
    requires i < |ws|
    ensures DistinctIds(ws[..i] + ws[i + 1..]) && NamesUnique(ws[..i] + ws[i + 1..])
            && ShortcutsUnique(ws[..i] + ws[i + 1..])
  {
    var r := ws[..i] + ws[i + 1..];
    assert forall k :: 0 <= k < |r| ==> r[k] == (if k < i then ws[k] else ws[k + 1]);
  }

  /** Deleting keeps the manager invariant; in particular the active id never dangles. */
  lemma DeletePreservesValid(m: Manager, id: Uuid, now: int)
    requires Valid(m)
    ensures Valid(Delete(m, id, now).manager)
  {
    if id in Keys(m.workspaces) {
      var i := IndexOf(m.workspaces, id).value;
      var rest := m.workspaces[..i] + m.workspaces[i + 1..];
      RemoveKeepsUnique(m.workspaces, i);
      LookupAfterRemove(m.workspaces, i, id);
      var after := Reassign(m.(workspaces := rest), id, now).manager;
      SameIdentitiesKeepUnique(rest, after.workspaces);
      assert Delete(m, id, now).manager.workspaces == after.workspaces;
    }
  }

  /** Two lists that agree position by position on ids, names and shortcuts are unique
      in the same ways. */
  lemma SameIdentitiesKeepUnique(a: seq<Workspace>, b: seq<Workspace>)
    requires |a| == |b|
    requires forall k :: 0 <= k < |b| ==>
               b[k].id == a[k].id && b[k].name == a[k].name && b[k].keyboardShortcut == a[k].keyboardShortcut
    ensures DistinctIds(a) ==> DistinctIds(b)
    ensures NamesUnique(a) ==> NamesUnique(b)
    ensures ShortcutsUnique(a) ==> ShortcutsUnique(b)
  {
  }

  // ---------------------------------------------------------------------------
  // Queries
  // ---------------------------------------------------------------------------

  /** `find_workspaces_by_name`: case-insensitive substring match. */
  function FindByName(m: Manager, pattern: string): (r: seq<Workspace>)
    ensures forall w :: w in r <==> w in m.workspaces && Contains(ToLower(w.name), ToLower(pattern))
  {
    FilterByName(m.workspaces, ToLower(pattern))
  }

  function FilterByName(ws: seq<Workspace>, lowered: string): (r: seq<Workspace>)
    ensures forall w :: w in r <==> w in ws && Contains(ToLower(w.name), lowered)
  {
    if |ws| == 0 then []
    else
      var rest := FilterByName(ws[1..], lowered);
      assert forall w :: w in ws <==> w == ws[0] || w in ws[1..];
      if Contains(ToLower(ws[0].name), lowered) then [ws[0]] + rest else rest
  }

  /** The search ignores the case of the pattern. */
  lemma FindByNameIgnoresCase(m: Manager, pattern: string)
    ensures FindByName(m, ToLower(pattern)) == FindByName(m, pattern)
  {
    ToLowerIdempotent(pattern);
  }

  /** An empty pattern lists every workspace, in the registry's order. */
  lemma FindByNameEmptyPattern(m: Manager)
    ensures FindByName(m, "") == m.workspaces
  {
    FilterByNameEmpty(m.workspaces);
  }

  lemma {:induction false} FilterByNameEmpty(ws: seq<Workspace>)
    ensures FilterByName(ws, "") == ws
  {
    if |ws| > 0 {
      FilterByNameEmpty(ws[1..]);
      assert Contains(ToLower(ws[0].name), "");
      assert ws == [ws[0]] + ws[1..];
    }
  }

  /** `find_workspace_by_shortcut`: a workspace whose shortcut is exactly the given text. */
  function FindByShortcut(m: Manager, shortcut: string): (r: Option<Workspace>)
    ensures r.Some? ==> r.value in m.workspaces && r.value.keyboardShortcut == shortcut
    ensures r.None? <==> !ShortcutTaken(m.workspaces, shortcut)
  {
    FirstWithShortcut(m.workspaces, shortcut)
  }

  function FirstWithShortcut(ws: seq<Workspace>, shortcut: string): (r: Option<Workspace>)
    ensures r.Some? ==> r.value in ws && r.value.keyboardShortcut == shortcut
    ensures r.None? <==> !ShortcutTaken(ws, shortcut)
  {
    if |ws| == 0 then None
    else if ws[0].keyboardShortcut == shortcut then Some(ws[0])
    else
      var r := FirstWithShortcut(ws[1..], shortcut);
      assert ShortcutTaken(ws, shortcut) ==> ShortcutTaken(ws[1..], shortcut) by {
        if ShortcutTaken(ws, shortcut) {
          var i :| 0 <= i < |ws| && ws[i].keyboardShortcut == shortcut;
          assert ws[1..][i - 1].keyboardShortcut == shortcut;
        }
      }
      assert ShortcutTaken(ws[1..], shortcut) ==> ShortcutTaken(ws, shortcut) by {
        if ShortcutTaken(ws[1..], shortcut) {
          var i :| 0 <= i < |ws[1..]| && ws[1..][i].keyboardShortcut == shortcut;
          assert ws[i + 1].keyboardShortcut == shortcut;
        }
      }
      r
  }

  /** In a valid manager the shortcut lookup is unambiguous. */
  lemma FindByShortcutUnique(m: Manager, shortcut: string, k: nat)
    requires Valid(m)
    requires k < |m.workspaces| && m.workspaces[k].keyboardShortcut == shortcut
    ensures FindByShortcut(m, shortcut) == Some(m.workspaces[k])
  {
    var w := FindByShortcut(m, shortcut).value;
    var i :| 0 <= i < |m.workspaces| && m.workspaces[i] == w;
    assert i == k;
  }

  /** `is_limit_reached`. */
  function IsLimitReached(m: Manager): (r: bool)
    ensures Valid(m) ==> (r <==> |m.workspaces| == m.config.maxWorkspaces)
    ensures m.config.maxWorkspaces == 0 ==> r
  {
    |m.workspaces| >= m.config.maxWorkspaces
  }

  /** Creation is refused exactly when the limit is reached, whatever else holds. */
  lemma LimitRefusesCreate(m: Manager, req: CreateRequest, defaultPatternId: Uuid, freshId: Uuid, now: int)
    ensures IsLimitReached(m) ==> Create(m, req, defaultPatternId, freshId, now).result.Err?
    ensures Valid(m) && IsLimitReached(m) ==> |m.workspaces| == m.config.maxWorkspaces
  {
  }

  // ---------------------------------------------------------------------------
  // Consistency check
  // ---------------------------------------------------------------------------

  datatype Finding = DuplicateWorkspaceName(id: Uuid, name: string) | DuplicateWorkspaceShortcut(id: Uuid, shortcut: string)

  /** `validate_all_workspaces`: walking the map, each workspace whose name (then shortcut)
      was already seen on an earlier one is reported under its own id. */
  function ValidateAll(m: Manager): (r: seq<Finding>)
    ensures |r| == 0 <==> NamesUnique(m.workspaces) && ShortcutsUnique(m.workspaces)
  {
    ValidateAllLemma(m.workspaces);
    Findings(m.workspaces, |m.workspaces|)
  }

  function Findings(ws: seq<Workspace>, n: nat): (r: seq<Finding>)
    requires n <= |ws|
    decreases n
  {
    if n == 0 then []
    else
      var w := ws[n - 1];
      var before := ws[..n - 1];
      Findings(ws, n - 1)
      + (if NameTaken(before, w.name) then [DuplicateWorkspaceName(w.id, w.name)] else [])
      + (if ShortcutTaken(before, w.keyboardShortcut) then [DuplicateWorkspaceShortcut(w.id, w.keyboardShortcut)] else [])
  }

  /** The first `n` workspaces have pairwise different names and shortcuts. */
  predicate UniquePrefix(ws: seq<Workspace>, n: nat)
    requires n <= |ws|
  {
    forall i, j :: 0 <= i < j < n ==> ws[i].name != ws[j].name && ws[i].keyboardShortcut != ws[j].keyboardShortcut
  }

  lemma {:induction false} FindingsEmptyIff(ws: seq<Workspace>, n: nat)
    requires n <= |ws|
    ensures |Findings(ws, n)| == 0 <==> UniquePrefix(ws, n)
    decreases n
  {
    if n > 0 {
      FindingsEmptyIff(ws, n - 1);
      var w := ws[n - 1];
      var before := ws[..n - 1];
      if |Findings(ws, n)| == 0 {
        forall i, j | 0 <= i < j < n
          ensures ws[i].name != ws[j].name && ws[i].keyboardShortcut != ws[j].keyboardShortcut
        {
          if j == n - 1 {
            assert before[i] == ws[i];
          }
        }
      }
    }
  }

  lemma ValidateAllLemma(ws: seq<Workspace>)
    ensures |Findings(ws, |ws|)| == 0 <==> NamesUnique(ws) && ShortcutsUnique(ws)
  {
    FindingsEmptyIff(ws, |ws|);
  }
}
