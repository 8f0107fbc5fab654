/** ActionModel and ActivityModel: actions and activities sit under a target and share one
    shape, so they are one model over the table they work on. A task is visible to a user
    through an ACL row on the task itself or on its target. */
module Tasks {
  import opened Errors
  import opened Store
  import Validator
  import Targets
  import Tokenizer
  import Listing

  /** The fields Insert and Update store: the target and the fields a target also has. */
  datatype TaskInput = TaskInput(targetUuid: Uuid, fields: Targets.TargetInput)

  /** The Action (or Activity) struct, with the fields the statements read and the uuid
      and version written back into it. */
  class Task {
    var uuid: Uuid
    var targetUuid: Uuid
    var fields: Targets.TargetInput
    var version: int

    constructor (uuid: Uuid, input: TaskInput, version: int)
      ensures this.uuid == uuid && Input() == input && this.version == version
    {
      this.uuid, this.version := uuid, version;
      targetUuid, fields := input.targetUuid, input.fields;
    }

    function Input(): TaskInput
      reads this
    {
      TaskInput(targetUuid, fields)
    }
  }

  function NewRow(t: TaskInput, version: int, serial: int): TaskRow {
    TaskRow(t.targetUuid, t.fields.title, t.fields.description, t.fields.notes, t.fields.dueDate,
            t.fields.status, version, serial)
  }

  /** The checks of ValidateAction and ValidateActivity: a target must be named, then the
      checks a target's own fields get. */
  function Rules(t: TaskInput, now: Time): seq<Validator.Rule> {
    [Validator.Rule(t.targetUuid != NilUuid, "target_uuid", "must be provided")] + Targets.Rules(t.fields, now)
  }

  method ValidateTask(v: Validator.Validator, task: Task, now: Time)
    modifies v
    ensures v.errors == Validator.ApplyRules(old(v.errors), Rules(task.Input(), now))
  {
    ghost var e0 := v.errors;
    ghost var first := [Validator.Rule(task.targetUuid != NilUuid, "target_uuid", "must be provided")];
    v.Check(task.targetUuid != NilUuid, "target_uuid", "must be provided");
    Validator.ApplyRulesSnoc(e0, [], first[0]);
    assert [] + [first[0]] == first;
    Targets.ValidateFields(v, task.fields, now);
    Validator.ApplyRulesAppend(e0, first, Targets.Rules(task.fields, now));
  }

  /** A task passes validation exactly when it names a target and its fields pass the
      target checks. */
  lemma ValidTask(t: TaskInput, now: Time)
    ensures Validator.ApplyRules(map[], Rules(t, now)) == map[] <==>
              t.targetUuid != NilUuid && Validator.ApplyRules(map[], Targets.Rules(t.fields, now)) == map[]
  {
    var rules, rest := Rules(t, now), Targets.Rules(t.fields, now);
    Validator.ApplyRulesValid(rules);
    Validator.ApplyRulesValid(rest);
    assert forall i :: 0 <= i < |rest| ==> rules[i + 1] == rest[i];
    if forall i :: 0 <= i < |rest| ==> rest[i].ok {
      forall i | 0 <= i < |rules| && rules[0].ok ensures rules[i].ok {
        if i > 0 { assert rules[i] == rest[i - 1]; }
      }
    }
  }

  /** The INSERT: the row is created only under an existing target on which the user is an
      editor or better; otherwise nothing is inserted and the caller sees ErrRecordNotFound.
      The new uuid must be unused. The creator becomes the task's owner. */
  function InsertSpec(s: Tables, table: TaskTable, t: TaskInput, fts: Fts, user: Uuid, newUuid: Uuid, serial: int): Outcome {
    if !(t.targetUuid in s.targets && s.Grants(user, TargetKind, t.targetUuid, Editor)) then
      Outcome(s, Some(RecordNotFound))
    else if newUuid in s.Tasks(table) then Outcome(s, Some(Pq(UniqueViolation)))
    else
      var s' := s.WithTasks(table, s.Tasks(table)[newUuid := NewRow(t, InitialVersion, serial)],
                            s.TasksFts(table)[newUuid := DocFtsOf(fts)]);
      Outcome(s'.(acls := s.acls + {Acl(user, TaskKind(table), newUuid, Owner)}), None)
  }

  /** Insert; for actions the FTS value is GenFTS of the struct's own text, for activities
      it is the caller's. */
  method Insert(db: Database, table: TaskTable, task: Task, fts: Fts, user: Uuid, newUuid: Uuid, serial: int)
    returns (err: Option<Error>)
    modifies db, task
    ensures db.Snapshot() == InsertSpec(old(db.Snapshot()), table, old(task.Input()), fts, user, newUuid, serial).tables
    ensures err == InsertSpec(old(db.Snapshot()), table, old(task.Input()), fts, user, newUuid, serial).err
    ensures err.None? <==> old(task.targetUuid) in old(db.targets)
                           && old(db.Snapshot()).Grants(user, TargetKind, old(task.targetUuid), Editor)
                           && newUuid !in old(db.Snapshot()).Tasks(table)
    ensures err.None? ==> task.uuid == newUuid && task.version == InitialVersion
    ensures err.Some? ==> db.Snapshot() == old(db.Snapshot()) && task.uuid == old(task.uuid)
                          && task.version == old(task.version)
    ensures task.Input() == old(task.Input())
  {
    var s := db.Snapshot();
    if !(task.targetUuid in db.targets && s.Grants(user, TargetKind, task.targetUuid, Editor)) {
      return Some(RecordNotFound);
    }
    if newUuid in s.Tasks(table) {
      return Some(Pq(UniqueViolation));
    }
    db.SetTasks(table, s.Tasks(table)[newUuid := NewRow(task.Input(), InitialVersion, serial)],
                s.TasksFts(table)[newUuid := DocFtsOf(fts)]);
    db.acls := db.acls + {Acl(user, TaskKind(table), newUuid, Owner)};
    task.uuid, task.version := newUuid, InitialVersion;
    return None;
  }

  /** ActionModel.Insert, which tokenizes the action's own title, description and notes. */
  method InsertAction(db: Database, task: Task, user: Uuid, newUuid: Uuid, serial: int,
                      isHan: char -> bool, cut: string -> seq<string>)
    returns (err: Option<Error>)
    modifies db, task
    ensures var fts := GenFts(old(task.fields).title, old(task.fields).description, old(task.fields).notes, isHan, cut);
      db.Snapshot() == InsertSpec(old(db.Snapshot()), ActionsTable, old(task.Input()), fts, user, newUuid, serial).tables
      && err == InsertSpec(old(db.Snapshot()), ActionsTable, old(task.Input()), fts, user, newUuid, serial).err
    ensures task.Input() == old(task.Input())
  {
    var fts := GenFts(task.fields.title, task.fields.description, task.fields.notes, isHan, cut);
    err := Insert(db, ActionsTable, task, fts, user, newUuid, serial);
  }

  /** The resources whose ACL rows reach a task: the task and its target. */
  function Resources(table: TaskTable, id: Uuid, targetUuid: Uuid): set<(Kind, Uuid)> {
    {(TaskKind(table), id), (TargetKind, targetUuid)}
  }

  /** `(ac.resource_type, ac.resource_uuid)` names the task or its target and the role
      ranks at or above the cutoff. */
  predicate Visible(s: Tables, table: TaskTable, id: Uuid, user: Uuid, cutoff: string)
    requires id in s.Tasks(table)
  {
    s.Grants(user, TaskKind(table), id, cutoff) || s.Grants(user, TargetKind, s.Tasks(table)[id].targetUuid, cutoff)
  }

  /** What Get returns: the row and the title of its target. */
  datatype View = View(row: TaskRow, targetTitle: string)

  /** Get: the task, when it exists, its target exists (the inner join) and the user
      reaches it at `minRole`; ErrRecordNotFound otherwise. */
  function Get(s: Tables, table: TaskTable, id: Uuid, user: Uuid, minRole: string): (r: Result<View>)
    ensures r.Ok? <==> id in s.Tasks(table) && s.Tasks(table)[id].targetUuid in s.targets
                       && (s.Grants(user, TaskKind(table), id, minRole)
                           || s.Grants(user, TargetKind, s.Tasks(table)[id].targetUuid, minRole))
    ensures r.Ok? ==> r.value.row == s.Tasks(table)[id] && r.value.targetTitle == s.targets[r.value.row.targetUuid].title
    ensures r.Err? ==> r.error == RecordNotFound
  {
    if id in s.Tasks(table) && s.Tasks(table)[id].targetUuid in s.targets && Visible(s, table, id, user, minRole) then
      Ok(View(s.Tasks(table)[id], s.targets[s.Tasks(table)[id].targetUuid].title))
    else Err(RecordNotFound)
  }

  /** Who may write the row: keeping the target needs an editor grant on the task or on
      its target; moving it to another target needs owner grants on both targets. */
  predicate MayUpdate(s: Tables, table: TaskTable, id: Uuid, newTarget: Uuid, user: Uuid)
    requires id in s.Tasks(table)
  {
    var old_ := s.Tasks(table)[id].targetUuid;
    if newTarget == old_ then Visible(s, table, id, user, Editor)
    else s.Grants(user, TargetKind, old_, Owner) && s.Grants(user, TargetKind, newTarget, Owner)
  }

  /** The UPDATE: a match needs the row, the current version and the permission above;
      no match is an edit conflict. */
  function UpdateSpec(s: Tables, table: TaskTable, id: Uuid, version: int, t: TaskInput, fts: Fts, user: Uuid): Outcome {
    if id in s.Tasks(table) && s.Tasks(table)[id].version == version && MayUpdate(s, table, id, t.targetUuid, user) then
      var fts' := if id in s.TasksFts(table) then s.TasksFts(table)[id := DocFtsOf(fts)] else s.TasksFts(table);
      Outcome(s.WithTasks(table, s.Tasks(table)[id := NewRow(t, version + 1, s.Tasks(table)[id].serialId)], fts'), None)
    else Outcome(s, Some(EditConflict))
  }

  method Update(db: Database, table: TaskTable, task: Task, fts: Fts, user: Uuid) returns (err: Option<Error>)
    modifies db, task
    ensures db.Snapshot() == UpdateSpec(old(db.Snapshot()), table, old(task.uuid), old(task.version), old(task.Input()), fts, user).tables
    ensures err == UpdateSpec(old(db.Snapshot()), table, old(task.uuid), old(task.version), old(task.Input()), fts, user).err
    ensures err.None? ==> task.version == old(task.version) + 1
    ensures err.Some? ==> err == Some(EditConflict) && db.Snapshot() == old(db.Snapshot()) && task.version == old(task.version)
    ensures task.uuid == old(task.uuid) && task.Input() == old(task.Input())
  {
    var s := db.Snapshot();
    var id := task.uuid;
    if id in s.Tasks(table) && s.Tasks(table)[id].version == task.version && MayUpdate(s, table, id, task.targetUuid, user) {
      var fts' := if id in s.TasksFts(table) then s.TasksFts(table)[id := DocFtsOf(fts)] else s.TasksFts(table);
      db.SetTasks(table, s.Tasks(table)[id := NewRow(task.Input(), task.version + 1, s.Tasks(table)[id].serialId)], fts');
      task.version := task.version + 1;
      return None;
    }
    return Some(EditConflict);
  }

  /** The DELETE: an owner of the task or of its target removes it. */
  function DeleteSpec(s: Tables, table: TaskTable, id: Uuid, user: Uuid): Outcome {
    if id in s.Tasks(table) && Visible(s, table, id, user, Owner) then
      Outcome(s.WithTasks(table, s.Tasks(table) - {id}, s.TasksFts(table)), None)
    else Outcome(s, Some(RecordNotFound))
  }

  method Delete(db: Database, table: TaskTable, id: Uuid, user: Uuid) returns (err: Option<Error>)
    modifies db
    ensures db.Snapshot() == DeleteSpec(old(db.Snapshot()), table, id, user).tables
    ensures err == DeleteSpec(old(db.Snapshot()), table, id, user).err
    ensures err.None? <==> id in old(db.Snapshot()).Tasks(table) && Visible(old(db.Snapshot()), table, id, user, Owner)
  {
    var s := db.Snapshot();
    var rowsAffected := 0;
    if id in s.Tasks(table) && Visible(s, table, id, user, Owner) {
      db.SetTasks(table, s.Tasks(table) - {id}, s.TasksFts(table));
      rowsAffected := 1;
    }
    if rowsAffected == 0 {
      return Some(RecordNotFound);
    }
    return None;
  }

  /** One row of GetAll: the task without its notes, its target's title, the number of
      sessions under it, whether it has notes, and the user's strongest role on it. */
  datatype ListRow = ListRow(uuid: Uuid, row: TaskRow, targetTitle: string, sessionsCount: nat, hasNotes: bool, role: string)

  /** The `sessions_count` column: sessions whose action (for actions) or legacy activity
      column (for activities) is the task. */
  function SessionsCount(s: Tables, table: TaskTable, id: Uuid): nat {
    |set u | u in s.sessions && (if table == ActionsTable then s.sessions[u].actionUuid == id
                                 else s.sessions[u].activityUuid == Some(id))|
  }

  function Summary(s: Tables, table: TaskTable, id: Uuid, role: string): ListRow
    requires id in s.Tasks(table) && s.Tasks(table)[id].targetUuid in s.targets
  {
    var row := s.Tasks(table)[id];
    ListRow(id, row.(notes := ""), s.targets[row.targetUuid].title, SessionsCount(s, table, id), HasNotes(row.notes), role)
  }

  /** The WHERE of the `filtered` CTE: the task has a search row and an existing target,
      both token strings match, the status filter is empty or equal, the target filter is
      absent or equal, and the user is a viewer or better on the task or on its target. */
  predicate Listed(s: Tables, table: TaskTable, token: Tokenizer.Tokenizer, status: string, target: Option<Uuid>,
                   user: Uuid, search: TextSearch, id: Uuid) {
    id in s.Tasks(table) && id in s.TasksFts(table) && s.Tasks(table)[id].targetUuid in s.targets
    && Matches(search, s.TasksFts(table)[id].chinese, token.chinese)
    && Matches(search, s.TasksFts(table)[id].english, token.english)
    && (status == "" || s.Tasks(table)[id].status == status)
    && (target.None? || s.Tasks(table)[id].targetUuid == target.value)
    && Visible(s, table, id, user, Viewer)
  }

  /** `ORDER BY a.<column> <dir>, rank DESC, a.serial_id DESC`. */
  function KeyOf(s: Tables, table: TaskTable, token: Tokenizer.Tokenizer, search: TextSearch, column: TaskRow -> int): nat -> Listing.Key {
    (id: nat) =>
      if id in s.Tasks(table) && id in s.TasksFts(table) then
        Listing.Key(column(s.Tasks(table)[id]),
                    Rank(search, s.TasksFts(table)[id].chinese, s.TasksFts(table)[id].english, token),
                    s.Tasks(table)[id].serialId)
      else Listing.Key(0, 0, 0)
  }

  /** GetAll: the visible tasks, ordered and cut to the page, one row each, reporting the
      role of least rank the user holds on the task or its target; the total is the count
      of all visible tasks, read from the rows (0 for a page past the end). */
  method GetAll(db: Database, table: TaskTable, token: Tokenizer.Tokenizer, status: string, target: Option<Uuid>,
                column: TaskRow -> int, dir: Listing.Direction, limit: nat, offset: nat, user: Uuid, search: TextSearch)
    returns (rows: seq<ListRow>, total: int, ghost listing: seq<Uuid>)
    ensures var s := db.Snapshot();
      Listing.Enumerates(listing, set id | id in s.Tasks(table) && Listed(s, table, token, status, target, user, search, id))
      && Listing.Sorted(listing, KeyOf(s, table, token, search, column), dir)
    ensures var s := db.Snapshot(); var page := Listing.Page(listing, limit, offset);
      |rows| == |page|
      && forall i :: 0 <= i < |page| ==>
           page[i] in s.Tasks(table) && s.Tasks(table)[page[i]].targetUuid in s.targets
           && rows[i] == Summary(s, table, page[i], rows[i].role)
           && IsLowestRole(s, user, Resources(table, page[i], s.Tasks(table)[page[i]].targetUuid), rows[i].role)
    ensures total == if rows == [] then 0 else |listing|
  {
    var s := db.Snapshot();
    var visible := set id | id in s.Tasks(table) && Listed(s, table, token, status, target, user, search, id);
    var ids := Listing.Elements(visible);
    var sorted := Listing.Sort(ids, KeyOf(s, table, token, search, column), dir);
    Listing.SortEnumerates(ids, visible, KeyOf(s, table, token, search, column), dir);
    listing := sorted;
    var page := Listing.Page(sorted, limit, offset);
    rows, total := ScanPage(s, table, page, user, |sorted|);
  }

  /** The scan of the result set of a page: every row is appended and sets the total. */
  method ScanPage(s: Tables, table: TaskTable, page: seq<Uuid>, user: Uuid, count: int)
    returns (rows: seq<ListRow>, total: int)
    requires forall i :: 0 <= i < |page| ==>
               page[i] in s.Tasks(table) && s.Tasks(table)[page[i]].targetUuid in s.targets
               && Visible(s, table, page[i], user, Viewer)
    ensures |rows| == |page|
    ensures forall i :: 0 <= i < |page| ==>
              rows[i] == Summary(s, table, page[i], rows[i].role)
              && IsLowestRole(s, user, Resources(table, page[i], s.Tasks(table)[page[i]].targetUuid), rows[i].role)
    ensures total == if rows == [] then 0 else count
  {
    rows, total := [], 0;
    for i := 0 to |page|
      invariant |rows| == i
      invariant forall j :: 0 <= j < i ==>
                  rows[j] == Summary(s, table, page[j], rows[j].role)
                  && IsLowestRole(s, user, Resources(table, page[j], s.Tasks(table)[page[j]].targetUuid), rows[j].role)
      invariant total == if rows == [] then 0 else count
    {
      var id := page[i];
      var resources := Resources(table, id, s.Tasks(table)[id].targetUuid);
      ReachedByGrant(s, table, id, user);
      var role := LowestRole(s, user, resources);
      rows := rows + [Summary(s, table, id, role.value)];
      total := count;
    }
  }

  /** A visible task is reached by some ACL row with a known role. */
  lemma ReachedByGrant(s: Tables, table: TaskTable, id: Uuid, user: Uuid)
    requires id in s.Tasks(table) && Visible(s, table, id, user, Viewer)
    ensures exists a :: a in s.acls && Reaches(s, a, user, Resources(table, id, s.Tasks(table)[id].targetUuid))
  {
    var resources := Resources(table, id, s.Tasks(table)[id].targetUuid);
    if s.Grants(user, TaskKind(table), id, Viewer) {
      var a :| a in s.acls && s.GrantsBy(a, user, TaskKind(table), id, Viewer);
      assert Reaches(s, a, user, resources);
    } else {
      var a :| a in s.acls && s.GrantsBy(a, user, TargetKind, s.Tasks(table)[id].targetUuid, Viewer);
      assert Reaches(s, a, user, resources);
    }
  }

  /** The creator of a task can read it back at any cutoff owner ranks within. */
  lemma InsertThenGet(s: Tables, table: TaskTable, t: TaskInput, fts: Fts, user: Uuid, newUuid: Uuid, serial: int, minRole: string)
    requires InsertSpec(s, table, t, fts, user, newUuid, serial).err.None?
    requires Owner in s.roles && minRole in s.roles && s.roles[Owner] <= s.roles[minRole]
    ensures Get(InsertSpec(s, table, t, fts, user, newUuid, serial).tables, table, newUuid, user, minRole)
            == Ok(View(NewRow(t, InitialVersion, serial), s.targets[t.targetUuid].title))
  {
    var s' := InsertSpec(s, table, t, fts, user, newUuid, serial).tables;
    OwnAclGrants(s', user, TaskKind(table), newUuid, Owner);
    GrantsWeaken(s', user, TaskKind(table), newUuid, Owner, minRole);
  }

  /** After an update the writer can still edit the task, whether it stayed under its
      target or moved to an existing one. */
  lemma UpdateThenGet(s: Tables, table: TaskTable, id: Uuid, version: int, t: TaskInput, fts: Fts, user: Uuid)
    requires UpdateSpec(s, table, id, version, t, fts, user).err.None?
    requires RanksOrdered(s.roles) && t.targetUuid in s.targets
    ensures Get(UpdateSpec(s, table, id, version, t, fts, user).tables, table, id, user, Editor)
            == Ok(View(NewRow(t, version + 1, s.Tasks(table)[id].serialId), s.targets[t.targetUuid].title))
  {
    var s' := UpdateSpec(s, table, id, version, t, fts, user).tables;
    assert s'.acls == s.acls && s'.roles == s.roles;
    GrantsFrame(s, s', user, TaskKind(table), id, Editor);
    GrantsFrame(s, s', user, TargetKind, t.targetUuid, Editor);
    if t.targetUuid != s.Tasks(table)[id].targetUuid {
      GrantsWeaken(s, user, TargetKind, t.targetUuid, Owner, Editor);
    }
  }

  /** Optimistic locking: replaying an update with the version it started from conflicts. */
  lemma StaleUpdateConflicts(s: Tables, table: TaskTable, id: Uuid, version: int, t: TaskInput, fts: Fts, user: Uuid,
                             t2: TaskInput, fts2: Fts, user2: Uuid)
    requires UpdateSpec(s, table, id, version, t, fts, user).err.None?
    ensures var s' := UpdateSpec(s, table, id, version, t, fts, user).tables;
            UpdateSpec(s', table, id, version, t2, fts2, user2) == Outcome(s', Some(EditConflict))
  {
  }

  /** Moving a task between targets is an owner's act on both targets: an editor grant,
      or a grant on the task alone, never suffices. */
  lemma MoveNeedsBothOwners(s: Tables, table: TaskTable, id: Uuid, version: int, t: TaskInput, fts: Fts, user: Uuid)
    requires id in s.Tasks(table) && t.targetUuid != s.Tasks(table)[id].targetUuid
    ensures UpdateSpec(s, table, id, version, t, fts, user).err.None? <==>
              s.Tasks(table)[id].version == version
              && s.Grants(user, TargetKind, s.Tasks(table)[id].targetUuid, Owner)
              && s.Grants(user, TargetKind, t.targetUuid, Owner)
  {
  }

  /** A deleted task is gone for everyone. */
  lemma DeleteThenGet(s: Tables, table: TaskTable, id: Uuid, user: Uuid, reader: Uuid, minRole: string)
    requires DeleteSpec(s, table, id, user).err.None?
    ensures Get(DeleteSpec(s, table, id, user).tables, table, id, reader, minRole) == Err(RecordNotFound)
  {
  }

  /** Access is inherited from the target: whoever holds a grant on the target reads every
      task under it, and an owner of the target deletes any of them. */
  lemma TargetGrantInherited(s: Tables, table: TaskTable, id: Uuid, user: Uuid, minRole: string)
    requires id in s.Tasks(table) && s.Tasks(table)[id].targetUuid in s.targets
    requires s.Grants(user, TargetKind, s.Tasks(table)[id].targetUuid, minRole)
    ensures Get(s, table, id, user, minRole).Ok?
    ensures minRole == Owner ==> DeleteSpec(s, table, id, user).err.None?
  {
  }

  /** A task whose target row is gone can be neither read nor listed. */
  lemma OrphanHidden(s: Tables, table: TaskTable, id: Uuid, user: Uuid, minRole: string,
                     token: Tokenizer.Tokenizer, status: string, target: Option<Uuid>, search: TextSearch)
    requires id in s.Tasks(table) && s.Tasks(table)[id].targetUuid !in s.targets
    ensures Get(s, table, id, user, minRole) == Err(RecordNotFound)
    ensures !Listed(s, table, token, status, target, user, search, id)
  {
  }

  /** Everything the list shows opens with Get at viewer level. */
  lemma ListedThenGet(s: Tables, table: TaskTable, token: Tokenizer.Tokenizer, status: string, target: Option<Uuid>,
                      user: Uuid, search: TextSearch, id: Uuid)
    requires Listed(s, table, token, status, target, user, search, id)
    ensures Get(s, table, id, user, Viewer).Ok?
  {
  }

  /** The role a list row reports ranks at or above viewer, because the user reached the
      task as a viewer. */
  lemma ListedRoleAtLeastViewer(s: Tables, table: TaskTable, id: Uuid, user: Uuid, role: string)
    requires id in s.Tasks(table) && Visible(s, table, id, user, Viewer)
    requires IsLowestRole(s, user, Resources(table, id, s.Tasks(table)[id].targetUuid), role)
    ensures s.roles[role] <= s.roles[Viewer]
  {
    var resources := Resources(table, id, s.Tasks(table)[id].targetUuid);
    if s.Grants(user, TaskKind(table), id, Viewer) {
      LowestRoleGrants(s, user, resources, role, TaskKind(table), id, Viewer);
    } else {
      LowestRoleGrants(s, user, resources, role, TargetKind, s.Tasks(table)[id].targetUuid, Viewer);
    }
  }

  /** Each statement works on one task table: the other one, the targets and the sessions
      are left as they were. */
  lemma InsertSeparate(s: Tables, table: TaskTable, t: TaskInput, fts: Fts, user: Uuid, id: Uuid, serial: int)
    ensures var r := InsertSpec(s, table, t, fts, user, id, serial).tables;
      r.Tasks(Other(table)) == s.Tasks(Other(table)) && r.targets == s.targets && r.sessions == s.sessions
  {
  }

  lemma UpdateSeparate(s: Tables, table: TaskTable, t: TaskInput, fts: Fts, user: Uuid, id: Uuid, version: int)
    ensures var r := UpdateSpec(s, table, id, version, t, fts, user).tables;
      r.Tasks(Other(table)) == s.Tasks(Other(table)) && r.targets == s.targets && r.sessions == s.sessions
      && r.acls == s.acls
  {
  }

  lemma DeleteSeparate(s: Tables, table: TaskTable, user: Uuid, id: Uuid)
    ensures var r := DeleteSpec(s, table, id, user).tables;
      r.Tasks(Other(table)) == s.Tasks(Other(table)) && r.targets == s.targets && r.sessions == s.sessions
      && r.acls == s.acls
  {
  }
}
