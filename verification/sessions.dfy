/** SessionModel: a session is a stretch of work on an action. It is visible through an ACL
    row on the session, on its action or on the action's target. */
module Sessions {
  import opened Errors
  import opened Store
  import Validator
  import Tokenizer
  import Listing

  /** The fields Insert and Update read from the struct. */
  datatype SessionInput = SessionInput(actionUuid: Uuid, startsAt: Time, endsAt: Option<Time>, notes: string)

  /** The Session struct, with the uuid, start and version Insert writes back. */
  class Session {
    var uuid: Uuid
    var actionUuid: Uuid
    var startsAt: Time
    var endsAt: Option<Time>
    var notes: string
    var version: int

    constructor (uuid: Uuid, input: SessionInput, version: int)
      ensures this.uuid == uuid && Input() == input && this.version == version
    {
      this.uuid, this.version := uuid, version;
      actionUuid, startsAt, endsAt, notes := input.actionUuid, input.startsAt, input.endsAt, input.notes;
    }

    function Input(): SessionInput
      reads this
    {
      SessionInput(actionUuid, startsAt, endsAt, notes)
    }
  }

  /** The checks of ValidateSession. */
  function Rules(t: SessionInput): seq<Validator.Rule> {
    [Validator.Rule(t.actionUuid != NilUuid, "action_uuid", "must be provided")]
    + (if t.endsAt.Some? then [Validator.Rule(t.endsAt.value > t.startsAt, "ends_at", "must be after starts_at")] else [])
  }

  method ValidateSession(v: Validator.Validator, session: Session)
    modifies v
    ensures v.errors == Validator.ApplyRules(old(v.errors), Rules(session.Input()))
  {
    ghost var e0, rules := v.errors, Rules(session.Input());
    v.Check(session.actionUuid != NilUuid, "action_uuid", "must be provided");
    Validator.ApplyRulesSnoc(e0, [], rules[0]);
    assert [] + [rules[0]] == rules[..1];
    if session.endsAt.Some? {
      v.Check(session.endsAt.value > session.startsAt, "ends_at", "must be after starts_at");
      Validator.ApplyRulesSnoc(e0, rules[..1], rules[1]);
      assert rules[..1] + [rules[1]] == rules;
    } else {
      assert rules[..1] == rules;
    }
  }

  /** A session passes validation exactly when it names an action and any end lies after
      its start. */
  lemma ValidSession(t: SessionInput)
    ensures Validator.ApplyRules(map[], Rules(t)) == map[] <==>
              t.actionUuid != NilUuid && (t.endsAt.Some? ==> t.endsAt.value > t.startsAt)
  {
    var rules := Rules(t);
    Validator.ApplyRulesValid(rules);
    assert rules[0].ok <==> t.actionUuid != NilUuid;
    if t.endsAt.Some? {
      assert rules[1].ok <==> t.endsAt.value > t.startsAt;
    }
  }

  /** An ACL row on the action or on the action's target, at the cutoff. */
  predicate ViaAction(s: Tables, action: Uuid, user: Uuid, cutoff: string) {
    s.Grants(user, ActionKind, action, cutoff)
    || (action in s.actions && s.Grants(user, TargetKind, s.actions[action].targetUuid, cutoff))
  }

  /** The INSERT: only `action_uuid` is written, under an existing action on which the
      user is an editor or better, directly or through its target; the other columns take
      their defaults: `starts_at` the statement time, no end, empty notes, version 1. The
      struct's start, end and notes are not stored. */
  function InsertSpec(s: Tables, action: Uuid, fts: Fts, user: Uuid, newUuid: Uuid, now: Time): Outcome {
    if !(action in s.actions && ViaAction(s, action, user, Editor)) then Outcome(s, Some(RecordNotFound))
    else if newUuid in s.sessions then Outcome(s, Some(Pq(UniqueViolation)))
    else Outcome(
      s.(sessions := s.sessions[newUuid := SessionRow(action, None, now, None, DefaultNotes, InitialVersion)],
         acls := s.acls + {Acl(user, SessionKind, newUuid, Owner)},
         sessionsFts := s.sessionsFts[newUuid := SessionFtsOf(fts)]),
      None)
  }

  method Insert(db: Database, session: Session, fts: Fts, user: Uuid, newUuid: Uuid, now: Time)
    returns (err: Option<Error>)
    modifies db, session
    ensures db.Snapshot() == InsertSpec(old(db.Snapshot()), old(session.actionUuid), fts, user, newUuid, now).tables
    ensures err == InsertSpec(old(db.Snapshot()), old(session.actionUuid), fts, user, newUuid, now).err
    ensures err.None? <==> old(session.actionUuid) in old(db.actions)
                           && ViaAction(old(db.Snapshot()), old(session.actionUuid), user, Editor)
                           && newUuid !in old(db.sessions)
    ensures err.None? ==> session.uuid == newUuid && session.startsAt == now && session.version == InitialVersion
    ensures err.Some? ==> db.Snapshot() == old(db.Snapshot()) && session.Input() == old(session.Input())
                          && session.uuid == old(session.uuid) && session.version == old(session.version)
    ensures session.actionUuid == old(session.actionUuid) && session.endsAt == old(session.endsAt)
            && session.notes == old(session.notes)
  {
    var s := db.Snapshot();
    if !(session.actionUuid in db.actions && ViaAction(s, session.actionUuid, user, Editor)) {
      return Some(RecordNotFound);
    }
    if newUuid in db.sessions {
      return Some(Pq(UniqueViolation));
    }
    var row := SessionRow(session.actionUuid, None, now, None, DefaultNotes, InitialVersion);
    db.SetSessions(db.acls + {Acl(user, SessionKind, newUuid, Owner)}, db.sessions[newUuid := row],
                   db.sessionsFts[newUuid := SessionFtsOf(fts)]);
    session.uuid, session.startsAt, session.version := newUuid, now, InitialVersion;
    return None;
  }

  /** The resources whose ACL rows reach a session. */
  function Resources(id: Uuid, action: Uuid, target: Uuid): set<(Kind, Uuid)> {
    {(SessionKind, id), (ActionKind, action), (TargetKind, target)}
  }

  /** The session hangs under an existing action whose target exists (the inner joins). */
  predicate Attached(s: Tables, id: Uuid) {
    id in s.sessions && s.sessions[id].actionUuid in s.actions
    && s.actions[s.sessions[id].actionUuid].targetUuid in s.targets
  }

  /** A grant on the session, its action or the action's target, at the cutoff. */
  predicate Visible(s: Tables, id: Uuid, user: Uuid, cutoff: string)
    requires Attached(s, id)
  {
    s.Grants(user, SessionKind, id, cutoff) || ViaAction(s, s.sessions[id].actionUuid, user, cutoff)
  }

  /** What Get returns: the row, its action's title, and the action's target and title. */
  datatype View = View(row: SessionRow, actionTitle: string, targetUuid: Uuid, targetTitle: string)

  function ViewOf(s: Tables, id: Uuid): View
    requires Attached(s, id)
  {
    var row := s.sessions[id];
    var action := s.actions[row.actionUuid];
    View(row, action.title, action.targetUuid, s.targets[action.targetUuid].title)
  }

  /** Get: the session when it is attached and the user reaches it at `minRole`. */
  function Get(s: Tables, id: Uuid, user: Uuid, minRole: string): (r: Result<View>)
    ensures r.Ok? <==> id in s.sessions && s.sessions[id].actionUuid in s.actions
                       && s.actions[s.sessions[id].actionUuid].targetUuid in s.targets
                       && (s.Grants(user, SessionKind, id, minRole)
                           || s.Grants(user, ActionKind, s.sessions[id].actionUuid, minRole)
                           || s.Grants(user, TargetKind, s.actions[s.sessions[id].actionUuid].targetUuid, minRole))
    ensures r.Ok? ==> r.value.row == s.sessions[id]
    ensures r.Ok? ==> var action := s.actions[s.sessions[id].actionUuid];
                      r.value.actionTitle == action.title
                      && r.value.targetUuid == action.targetUuid && r.value.targetTitle == s.targets[action.targetUuid].title
    ensures r.Err? ==> r.error == RecordNotFound
  {
    if Attached(s, id) && Visible(s, id, user, minRole) then Ok(ViewOf(s, id)) else Err(RecordNotFound)
  }

  /** Who may write the row: keeping the action needs an editor grant on the session, its
      action or (through an existing action) its target; moving it needs owner grants on
      both actions. */
  predicate MayUpdate(s: Tables, id: Uuid, newAction: Uuid, user: Uuid)
    requires id in s.sessions
  {
    var current := s.sessions[id].actionUuid;
    if newAction == current then s.Grants(user, SessionKind, id, Editor) || ViaAction(s, current, user, Editor)
    else s.Grants(user, ActionKind, current, Owner) && s.Grants(user, ActionKind, newAction, Owner)
  }

  function UpdateSpec(s: Tables, id: Uuid, version: int, t: SessionInput, fts: Fts, user: Uuid): Outcome {
    if id in s.sessions && s.sessions[id].version == version && MayUpdate(s, id, t.actionUuid, user) then
      Outcome(
        s.(sessions := s.sessions[id := s.sessions[id].(actionUuid := t.actionUuid, startsAt := t.startsAt,
                                                          endsAt := t.endsAt, notes := t.notes, version := version + 1)],
           sessionsFts := if id in s.sessionsFts then s.sessionsFts[id := SessionFtsOf(fts)] else s.sessionsFts),
        None)
    else Outcome(s, Some(EditConflict))
  }

  method Update(db: Database, session: Session, fts: Fts, user: Uuid) returns (err: Option<Error>)
    modifies db, session
    ensures db.Snapshot() == UpdateSpec(old(db.Snapshot()), old(session.uuid), old(session.version), old(session.Input()), fts, user).tables
    ensures err == UpdateSpec(old(db.Snapshot()), old(session.uuid), old(session.version), old(session.Input()), fts, user).err
    ensures err.None? ==> session.version == old(session.version) + 1
    ensures err.Some? ==> err == Some(EditConflict) && db.Snapshot() == old(db.Snapshot()) && session.version == old(session.version)
    ensures session.uuid == old(session.uuid) && session.Input() == old(session.Input())
  {
    var s := db.Snapshot();
    var id := session.uuid;
    if id in db.sessions && db.sessions[id].version == session.version && MayUpdate(s, id, session.actionUuid, user) {
      db.sessions := db.sessions[id := db.sessions[id].(actionUuid := session.actionUuid, startsAt := session.startsAt,
                                                         endsAt := session.endsAt, notes := session.notes,
                                                         version := session.version + 1)];
      if id in db.sessionsFts {
        db.sessionsFts := db.sessionsFts[id := SessionFtsOf(fts)];
      }
      session.version := session.version + 1;
      return None;
    }
    return Some(EditConflict);
  }

  /** The DELETE: the grant is looked up through the session's action, so the action must
      exist; then an owner of the session, the action or its target removes it. */
  function DeleteSpec(s: Tables, id: Uuid, user: Uuid): Outcome {
    if id in s.sessions && s.sessions[id].actionUuid in s.actions
       && (s.Grants(user, SessionKind, id, Owner) || ViaAction(s, s.sessions[id].actionUuid, user, Owner))
    then Outcome(s.(sessions := s.sessions - {id}), None)
    else Outcome(s, Some(RecordNotFound))
  }

  method Delete(db: Database, id: Uuid, user: Uuid) returns (err: Option<Error>)
    modifies db
    ensures db.Snapshot() == DeleteSpec(old(db.Snapshot()), id, user).tables
    ensures err == DeleteSpec(old(db.Snapshot()), id, user).err
  {
    var s := db.Snapshot();
    var rowsAffected := 0;
    if id in db.sessions && db.sessions[id].actionUuid in db.actions
       && (s.Grants(user, SessionKind, id, Owner) || ViaAction(s, db.sessions[id].actionUuid, user, Owner))
    {
      db.sessions := db.sessions - {id};
      rowsAffected := 1;
    }
    if rowsAffected == 0 {
      return Some(RecordNotFound);
    }
    return None;
  }

  /** One row of GetAll: the session without its notes, its action's title, the action's
      target and title, whether it has notes, and the user's strongest role on it. */
  datatype ListRow = ListRow(uuid: Uuid, row: SessionRow, actionTitle: string, targetUuid: Uuid, targetTitle: string,
                             hasNotes: bool, role: string)

  function Summary(s: Tables, id: Uuid, role: string): ListRow
    requires Attached(s, id)
  {
    var v := ViewOf(s, id);
    ListRow(id, v.row.(notes := ""), v.actionTitle, v.targetUuid, v.targetTitle, HasNotes(v.row.notes), role)
  }

  /** The WHERE of the `filtered` CTE: the session has a search row and is attached, both
      token strings match its notes, the action filter is absent or equal, and the user is
      a viewer or better on the session, its action or the target. */
  predicate Listed(s: Tables, token: Tokenizer.Tokenizer, action: Option<Uuid>, user: Uuid, search: TextSearch, id: Uuid) {
    Attached(s, id) && id in s.sessionsFts
    && Matches(search, s.sessionsFts[id].chineseNotes, token.chinese)
    && Matches(search, s.sessionsFts[id].englishNotes, token.english)
    && (action.None? || s.sessions[id].actionUuid == action.value)
    && Visible(s, id, user, Viewer)
  }

  /** `ORDER BY s.<column> <dir>, rank DESC, s.uuid DESC`. */
  function KeyOf(s: Tables, token: Tokenizer.Tokenizer, search: TextSearch, column: SessionRow -> int): nat -> Listing.Key {
    (id: nat) =>
      if id in s.sessions && id in s.sessionsFts then
        Listing.Key(column(s.sessions[id]),
                    Rank(search, s.sessionsFts[id].chineseNotes, s.sessionsFts[id].englishNotes, token), id)
      else Listing.Key(0, 0, id)
  }

  /** The lowest-rank role is looked up over the session, its action and the target. */
  function ResourcesOf(s: Tables, id: Uuid): set<(Kind, Uuid)>
    requires Attached(s, id)
  {
    Resources(id, s.sessions[id].actionUuid, s.actions[s.sessions[id].actionUuid].targetUuid)
  }

  /** GetAll: the visible sessions, ordered and cut to the page, one row each, with the role
      of least rank the user holds on the session, its action or its target. */
  method GetAll(db: Database, token: Tokenizer.Tokenizer, action: Option<Uuid>, column: SessionRow -> int,
                dir: Listing.Direction, limit: nat, offset: nat, user: Uuid, search: TextSearch)
    returns (rows: seq<ListRow>, total: int, ghost listing: seq<Uuid>)
    ensures var s := db.Snapshot();
      Listing.Enumerates(listing, set id | id in s.sessions && Listed(s, token, action, user, search, id))
      && Listing.Sorted(listing, KeyOf(s, token, search, column), dir)
    ensures var s := db.Snapshot(); var page := Listing.Page(listing, limit, offset);
      |rows| == |page|
      && forall i :: 0 <= i < |page| ==>
           Attached(s, page[i]) && rows[i] == Summary(s, page[i], rows[i].role)
           && IsLowestRole(s, user, ResourcesOf(s, page[i]), rows[i].role)
    ensures total == if rows == [] then 0 else |listing|
  {
    var s := db.Snapshot();
    var visible := set id | id in s.sessions && Listed(s, token, action, user, search, id);
    var ids := Listing.Elements(visible);
    var sorted := Listing.Sort(ids, KeyOf(s, token, search, column), dir);
    Listing.SortEnumerates(ids, visible, KeyOf(s, token, search, column), dir);
    listing := sorted;
    var page := Listing.Page(sorted, limit, offset);
    rows, total := ScanPage(s, page, user, |sorted|);
  }

  /** The scan of the result set of a page. */
  method ScanPage(s: Tables, page: seq<Uuid>, user: Uuid, count: int) returns (rows: seq<ListRow>, total: int)
    requires forall i :: 0 <= i < |page| ==> Attached(s, page[i]) && Visible(s, page[i], user, Viewer)
    ensures |rows| == |page|
    ensures forall i :: 0 <= i < |page| ==>
              rows[i] == Summary(s, page[i], rows[i].role) && IsLowestRole(s, user, ResourcesOf(s, page[i]), rows[i].role)
    ensures total == if rows == [] then 0 else count
  {
    rows, total := [], 0;
    for i := 0 to |page|
      invariant |rows| == i
      invariant forall j :: 0 <= j < i ==>
                  rows[j] == Summary(s, page[j], rows[j].role) && IsLowestRole(s, user, ResourcesOf(s, page[j]), rows[j].role)
      invariant total == if rows == [] then 0 else count
    {
      var id := page[i];
      ReachedByGrant(s, id, user);
      var role := LowestRole(s, user, ResourcesOf(s, id));
      rows := rows + [Summary(s, id, role.value)];
      total := count;
    }
  }

  /** A visible session is reached by some ACL row with a known role. */
  lemma ReachedByGrant(s: Tables, id: Uuid, user: Uuid)
    requires Attached(s, id) && Visible(s, id, user, Viewer)
    ensures exists a :: a in s.acls && Reaches(s, a, user, ResourcesOf(s, id))
  {
    var action := s.sessions[id].actionUuid;
    var r :=
      if s.Grants(user, SessionKind, id, Viewer) then (SessionKind, id)
      else if s.Grants(user, ActionKind, action, Viewer) then (ActionKind, action)
      else (TargetKind, s.actions[action].targetUuid);
    var a :| a in s.acls && s.GrantsBy(a, user, r.0, r.1, Viewer);
    assert Reaches(s, a, user, ResourcesOf(s, id));
  }

  /** The creator reads the new session back at any cutoff owner ranks within, and sees
      the column defaults: it started at the statement time, has no end and has empty
      notes. */
  lemma InsertThenGet(s: Tables, action: Uuid, fts: Fts, user: Uuid, newUuid: Uuid, now: Time, minRole: string)
    requires InsertSpec(s, action, fts, user, newUuid, now).err.None?
    requires s.actions[action].targetUuid in s.targets
    requires Owner in s.roles && minRole in s.roles && s.roles[Owner] <= s.roles[minRole]
    ensures var r := Get(InsertSpec(s, action, fts, user, newUuid, now).tables, newUuid, user, minRole);
      r.Ok? && r.value.row == SessionRow(action, None, now, None, DefaultNotes, InitialVersion)
      && r.value.targetUuid == s.actions[action].targetUuid
  {
    var s' := InsertSpec(s, action, fts, user, newUuid, now).tables;
    OwnAclGrants(s', user, SessionKind, newUuid, Owner);
    GrantsWeaken(s', user, SessionKind, newUuid, Owner, minRole);
  }

  /** After an update that keeps the session attached, the writer can still edit it. */
  lemma UpdateThenGet(s: Tables, id: Uuid, version: int, t: SessionInput, fts: Fts, user: Uuid)
    requires UpdateSpec(s, id, version, t, fts, user).err.None?
    requires RanksOrdered(s.roles)
    requires t.actionUuid in s.actions && s.actions[t.actionUuid].targetUuid in s.targets
    ensures var r := Get(UpdateSpec(s, id, version, t, fts, user).tables, id, user, Editor);
      r.Ok? && r.value.row.version == version + 1 && r.value.row.notes == t.notes
      && r.value.row.startsAt == t.startsAt && r.value.row.endsAt == t.endsAt
  {
    var s' := UpdateSpec(s, id, version, t, fts, user).tables;
    assert s'.acls == s.acls && s'.roles == s.roles && s'.actions == s.actions;
    GrantsFrame(s, s', user, SessionKind, id, Editor);
    GrantsFrame(s, s', user, ActionKind, t.actionUuid, Editor);
    GrantsFrame(s, s', user, TargetKind, s.actions[t.actionUuid].targetUuid, Editor);
    if t.actionUuid != s.sessions[id].actionUuid {
      GrantsWeaken(s, user, ActionKind, t.actionUuid, Owner, Editor);
    }
  }

  /** Optimistic locking: replaying an update with the version it started from conflicts. */
  lemma StaleUpdateConflicts(s: Tables, id: Uuid, version: int, t: SessionInput, fts: Fts, user: Uuid,
                             t2: SessionInput, fts2: Fts, user2: Uuid)
    requires UpdateSpec(s, id, version, t, fts, user).err.None?
    ensures var s' := UpdateSpec(s, id, version, t, fts, user).tables;
            UpdateSpec(s', id, version, t2, fts2, user2) == Outcome(s', Some(EditConflict))
  {
  }

  /** Moving a session to another action takes owner grants on both actions themselves:
      owning the target, or the session, does not suffice. */
  lemma MoveNeedsActionOwners(s: Tables, id: Uuid, version: int, t: SessionInput, fts: Fts, user: Uuid)
    requires id in s.sessions && t.actionUuid != s.sessions[id].actionUuid
    ensures UpdateSpec(s, id, version, t, fts, user).err.None? <==>
              s.sessions[id].version == version
              && s.Grants(user, ActionKind, s.sessions[id].actionUuid, Owner)
              && s.Grants(user, ActionKind, t.actionUuid, Owner)
  {
  }

  /** A deleted session is gone for everyone. */
  lemma DeleteThenGet(s: Tables, id: Uuid, user: Uuid, reader: Uuid, minRole: string)
    requires DeleteSpec(s, id, user).err.None?
    ensures Get(DeleteSpec(s, id, user).tables, id, reader, minRole) == Err(RecordNotFound)
  {
  }

  /** A session whose action row is gone can be deleted by nobody, not even its owner, but
      its owner can still edit it in place. */
  lemma DanglingSession(s: Tables, id: Uuid, user: Uuid, version: int, t: SessionInput, fts: Fts)
    requires id in s.sessions && s.sessions[id].actionUuid !in s.actions
    requires Acl(user, SessionKind, id, Owner) in s.acls && RanksOrdered(s.roles)
    ensures DeleteSpec(s, id, user).err == Some(RecordNotFound)
    ensures t.actionUuid == s.sessions[id].actionUuid && version == s.sessions[id].version ==>
              UpdateSpec(s, id, version, t, fts, user).err.None?
  {
    OwnAclGrants(s, user, SessionKind, id, Owner);
    GrantsWeaken(s, user, SessionKind, id, Owner, Editor);
  }

  /** Access is inherited down the hierarchy: a grant on the action or on its target
      opens every attached session under it. */
  lemma GrantInherited(s: Tables, id: Uuid, user: Uuid, minRole: string)
    requires Attached(s, id)
    requires s.Grants(user, ActionKind, s.sessions[id].actionUuid, minRole)
             || s.Grants(user, TargetKind, s.actions[s.sessions[id].actionUuid].targetUuid, minRole)
    ensures Get(s, id, user, minRole) == Ok(ViewOf(s, id))
  {
  }

  /** Everything the list shows opens with Get at viewer level. */
  lemma ListedThenGet(s: Tables, token: Tokenizer.Tokenizer, action: Option<Uuid>, user: Uuid, search: TextSearch, id: Uuid)
    requires Listed(s, token, action, user, search, id)
    ensures Get(s, id, user, Viewer) == Ok(ViewOf(s, id))
  {
  }

  /** The role a list row reports ranks at or above viewer. */
  lemma ListedRoleAtLeastViewer(s: Tables, id: Uuid, user: Uuid, role: string)
    requires Attached(s, id) && Visible(s, id, user, Viewer)
    requires IsLowestRole(s, user, ResourcesOf(s, id), role)
    ensures s.roles[role] <= s.roles[Viewer]
  {
    var action := s.sessions[id].actionUuid;
    if s.Grants(user, SessionKind, id, Viewer) {
      LowestRoleGrants(s, user, ResourcesOf(s, id), role, SessionKind, id, Viewer);
    } else if s.Grants(user, ActionKind, action, Viewer) {
      LowestRoleGrants(s, user, ResourcesOf(s, id), role, ActionKind, action, Viewer);
    } else {
      LowestRoleGrants(s, user, ResourcesOf(s, id), role, TargetKind, s.actions[action].targetUuid, Viewer);
    }
  }
}
