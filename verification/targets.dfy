/** TargetModel: targets are the top of the hierarchy. Every permission check on a target
    looks only at ACL rows of kind 'target' on that target. */
module Targets {
  import opened Errors
  import opened Store
  import Validator
  import Status
  import Text
  import Tokenizer
  import Listing

  /** The fields of a Target that Insert and Update store. */
  datatype TargetInput = TargetInput(
    title: string, description: string, notes: string, dueDate: Option<Time>, status: string)

  /** The Target struct: the statements read its fields and write the uuid and version the
      database returns back into it. */
  class Target {
    var uuid: Uuid
    var title: string
    var description: string
    var notes: string
    var dueDate: Option<Time>
    var status: string
    var version: int

    constructor (uuid: Uuid, input: TargetInput, version: int)
      ensures this.uuid == uuid && Input() == input && this.version == version
    {
      this.uuid, this.version := uuid, version;
      title, description, notes := input.title, input.description, input.notes;
      dueDate, status := input.dueDate, input.status;
    }

    function Input(): TargetInput
      reads this
    {
      TargetInput(title, description, notes, dueDate, status)
    }
  }

  /** The stored row for an input. */
  function NewRow(t: TargetInput, version: int, serial: int): TargetRow {
    TargetRow(t.title, t.description, t.notes, t.dueDate, t.status, version, serial)
  }

  /** The checks of ValidateTarget, in order. */
  function Rules(t: TargetInput, now: Time): seq<Validator.Rule> {
    [ Validator.Rule(t.title != "", "title", "must be provided"),
      Validator.Rule(Text.Utf8Len(t.title) <= 200, "title", "must not be more than 200 characters long"),
      Validator.Rule(t.status != "", "status", "must be provided"),
      Validator.Rule(Validator.PermittedValue(t.status, Status.Safelist), "status",
                     "must be one of 'queued', 'in progress', 'complete', 'canceled', or 'archived'") ]
    + (if t.dueDate.Some? then [Validator.Rule(t.dueDate.value > now - Day, "due_date", "must be in the future")] else [])
  }

  /** The checks shared by targets, actions and activities, run against the validator;
      `now` is the clock reading. */
  method ValidateFields(v: Validator.Validator, t: TargetInput, now: Time)
    modifies v
    ensures v.errors == Validator.ApplyRules(old(v.errors), Rules(t, now))
  {
    v.CheckAll(Rules(t, now));
  }

  /** ValidateTarget: the checks on the fields of a target. */
  method ValidateTarget(v: Validator.Validator, target: Target, now: Time)
    modifies v
    ensures v.errors == Validator.ApplyRules(old(v.errors), Rules(target.Input(), now))
  {
    ValidateFields(v, target.Input(), now);
  }

  /** A target passes validation exactly when its title is present and at most 200 bytes,
      its status is one of the four stored statuses, and any due date is later than a day
      before now. */
  lemma ValidTarget(t: TargetInput, now: Time)
    ensures Validator.ApplyRules(map[], Rules(t, now)) == map[] <==>
              t.title != "" && Text.Utf8Len(t.title) <= 200
              && (t.status == Status.Queued || t.status == Status.InProgress
                  || t.status == Status.Completed || t.status == Status.Canceled)
              && (t.dueDate.Some? ==> t.dueDate.value > now - Day)
  {
    var rules := Rules(t, now);
    Validator.ApplyRulesValid(rules);
    Status.SafelistMembers(t.status);
    assert rules[0].ok && rules[1].ok && rules[3].ok ==> rules[2].ok;
    if t.dueDate.Some? {
      assert rules[4].ok <==> t.dueDate.value > now - Day;
    }
  }

  /** First error wins: a missing status is reported as missing, not as outside the
      safelist. */
  lemma MissingStatusMessage(t: TargetInput, now: Time)
    requires t.status == ""
    ensures var errors := Validator.ApplyRules(map[], Rules(t, now));
      "status" in errors && errors["status"] == "must be provided"
  {
    var rules := Rules(t, now);
    FirstStatusMessage(rules);
    Validator.ApplyRulesEntry(map[], rules, "status");
  }

  /** The first failing status check of a rule list whose first two checks are about the
      title. */
  lemma FirstStatusMessage(rules: seq<Validator.Rule>)
    requires |rules| >= 3 && !rules[2].ok && rules[2].key == "status"
    requires rules[0].key != "status" && rules[1].key != "status"
    ensures Validator.FailsFor(rules, "status")
    ensures Validator.FirstMessage(rules, "status") == rules[2].message
  {
    var r1, r2 := rules[1..], rules[1..][1..];
    assert r2[0] == rules[2] && r1[1] == rules[2];
    assert Validator.FailsFor(r2, "status");
    assert Validator.FirstMessage(r2, "status") == rules[2].message;
    assert Validator.FailsFor(r1, "status");
    assert Validator.FirstMessage(r1, "status") == Validator.FirstMessage(r2, "status");
    assert Validator.FailsFor(rules, "status");
  }

  /** The INSERT of targets, acls and targets_fts as one statement. There is no permission
      check; a uuid already in use is a unique-key violation and changes nothing. */
  function InsertSpec(s: Tables, t: TargetInput, fts: Fts, user: Uuid, newUuid: Uuid, serial: int): Outcome {
    if newUuid in s.targets then Outcome(s, Some(Pq(UniqueViolation)))
    else Outcome(
      s.(targets := s.targets[newUuid := NewRow(t, InitialVersion, serial)],
         acls := s.acls + {Acl(user, TargetKind, newUuid, Owner)},
         targetsFts := s.targetsFts[newUuid := DocFtsOf(fts)]),
      None)
  }

  /** Insert stores the target, makes the caller its owner and indexes its text; the new
      uuid and the first version are written back into `target`. */
  method Insert(db: Database, target: Target, fts: Fts, user: Uuid, newUuid: Uuid, serial: int)
    returns (err: Option<Error>)
    modifies db, target
    ensures db.Snapshot() == InsertSpec(old(db.Snapshot()), old(target.Input()), fts, user, newUuid, serial).tables
    ensures err == InsertSpec(old(db.Snapshot()), old(target.Input()), fts, user, newUuid, serial).err
    ensures err.None? <==> newUuid !in old(db.targets)
    ensures err.None? ==> db.targets == old(db.targets)[newUuid := NewRow(old(target.Input()), InitialVersion, serial)]
    ensures err.None? ==> db.acls == old(db.acls) + {Acl(user, TargetKind, newUuid, Owner)}
    ensures err.None? ==> target.uuid == newUuid && target.version == InitialVersion
    ensures err.Some? ==> db.Snapshot() == old(db.Snapshot()) && target.uuid == old(target.uuid)
                          && target.version == old(target.version)
    ensures target.Input() == old(target.Input())
  {
    if newUuid in db.targets {
      return Some(Pq(UniqueViolation));
    }
    db.targets := db.targets[newUuid := NewRow(target.Input(), InitialVersion, serial)];
    db.acls := db.acls + {Acl(user, TargetKind, newUuid, Owner)};
    db.targetsFts := db.targetsFts[newUuid := DocFtsOf(fts)];
    target.uuid, target.version := newUuid, InitialVersion;
    return None;
  }

  /** Get: the target, when it exists and the user holds a 'target' ACL on it ranked at or
      above `minRole`; ErrRecordNotFound otherwise. */
  function Get(s: Tables, id: Uuid, user: Uuid, minRole: string): (r: Result<TargetRow>)
    ensures r.Ok? <==> id in s.targets && minRole in s.roles
                       && exists a :: a in s.acls && s.GrantsBy(a, user, TargetKind, id, minRole)
    ensures r.Ok? ==> r.value == s.targets[id]
    ensures r.Err? ==> r.error == RecordNotFound
  {
    if id in s.targets && s.Grants(user, TargetKind, id, minRole) then Ok(s.targets[id])
    else Err(RecordNotFound)
  }

  /** The UPDATE of targets and targets_fts: it matches only when the row exists, the
      supplied version is current and the user is an editor or better on the target; no
      match is an edit conflict. */
  function UpdateSpec(s: Tables, id: Uuid, version: int, t: TargetInput, fts: Fts, user: Uuid): Outcome {
    if id in s.targets && s.targets[id].version == version && s.Grants(user, TargetKind, id, Editor) then
      Outcome(
        s.(targets := s.targets[id := NewRow(t, version + 1, s.targets[id].serialId)],
           targetsFts := if id in s.targetsFts then s.targetsFts[id := DocFtsOf(fts)] else s.targetsFts),
        None)
    else Outcome(s, Some(EditConflict))
  }

  /** Update writes the new fields, moves the version on by one and writes it back into
      `target`; on conflict nothing changes. */
  method Update(db: Database, target: Target, fts: Fts, user: Uuid) returns (err: Option<Error>)
    modifies db, target
    ensures db.Snapshot() == UpdateSpec(old(db.Snapshot()), old(target.uuid), old(target.version), old(target.Input()), fts, user).tables
    ensures err == UpdateSpec(old(db.Snapshot()), old(target.uuid), old(target.version), old(target.Input()), fts, user).err
    ensures err.None? <==> old(target.uuid) in old(db.targets) && old(db.targets)[old(target.uuid)].version == old(target.version)
                           && old(db.Snapshot()).Grants(user, TargetKind, old(target.uuid), Editor)
    ensures err.None? ==> target.version == old(target.version) + 1
    ensures err.Some? ==> err == Some(EditConflict) && db.Snapshot() == old(db.Snapshot()) && target.version == old(target.version)
    ensures target.uuid == old(target.uuid) && target.Input() == old(target.Input())
  {
    var id := target.uuid;
    if id in db.targets && db.targets[id].version == target.version
       && db.Snapshot().Grants(user, TargetKind, id, Editor)
    {
      db.targets := db.targets[id := NewRow(target.Input(), target.version + 1, db.targets[id].serialId)];
      if id in db.targetsFts {
        db.targetsFts := db.targetsFts[id := DocFtsOf(fts)];
      }
      target.version := target.version + 1;
      return None;
    }
    return Some(EditConflict);
  }

  /** The DELETE: only an owner (or a role ranked with it) removes a target. */
  function DeleteSpec(s: Tables, id: Uuid, user: Uuid): Outcome {
    if id in s.targets && s.Grants(user, TargetKind, id, Owner) then
      Outcome(s.(targets := s.targets - {id}), None)
    else Outcome(s, Some(RecordNotFound))
  }

  /** Delete removes the target row when the user is an owner; zero rows affected is
      ErrRecordNotFound. */
  method Delete(db: Database, id: Uuid, user: Uuid) returns (err: Option<Error>)
    modifies db
    ensures db.Snapshot() == DeleteSpec(old(db.Snapshot()), id, user).tables
    ensures err == DeleteSpec(old(db.Snapshot()), id, user).err
    ensures err.None? <==> id in old(db.targets) && old(db.Snapshot()).Grants(user, TargetKind, id, Owner)
    ensures err.None? ==> db.targets == old(db.targets) - {id}
    ensures err.Some? ==> err == Some(RecordNotFound) && db.Snapshot() == old(db.Snapshot())
  {
    var rowsAffected := 0;
    if id in db.targets && db.Snapshot().Grants(user, TargetKind, id, Owner) {
      db.targets := db.targets - {id};
      rowsAffected := 1;
    }
    if rowsAffected == 0 {
      return Some(RecordNotFound);
    }
    return None;
  }

  /** One row of GetAllForUser: the target without its notes, the number of activities
      under it, whether it has notes, and one role code the user holds on it. */
  datatype ListRow = ListRow(uuid: Uuid, row: TargetRow, activitiesCount: nat, hasNotes: bool, role: string)

  /** The `activities_count` column: the activities whose target is `id`. */
  function ActivitiesCount(s: Tables, id: Uuid): nat {
    |set a | a in s.activities && s.activities[a].targetUuid == id|
  }

  /** The columns of the `paged` CTE for one target, with one role code. */
  function Summary(s: Tables, id: Uuid, role: string): ListRow
    requires id in s.targets
  {
    ListRow(id, s.targets[id].(notes := ""), ActivitiesCount(s, id), HasNotes(s.targets[id].notes), role)
  }

  /** The WHERE of the `filtered` CTE: both token strings match (an empty one matches
      everything), the status filter is empty or equal, and the user is a viewer or better
      through a 'target' ACL. */
  predicate Listed(s: Tables, token: Tokenizer.Tokenizer, status: string, user: Uuid, search: TextSearch, id: Uuid) {
    id in s.targets && id in s.targetsFts
    && Matches(search, s.targetsFts[id].chinese, token.chinese)
    && Matches(search, s.targetsFts[id].english, token.english)
    && (status == "" || s.targets[id].status == status)
    && s.Grants(user, TargetKind, id, Viewer)
  }

  /** `ORDER BY t.<column> <dir>, rank DESC, t.serial_id DESC`. */
  function KeyOf(s: Tables, token: Tokenizer.Tokenizer, search: TextSearch, column: TargetRow -> int): nat -> Listing.Key {
    (id: nat) =>
      if id in s.targets && id in s.targetsFts then
        Listing.Key(column(s.targets[id]),
                    Rank(search, s.targetsFts[id].chinese, s.targetsFts[id].english, token),
                    s.targets[id].serialId)
      else Listing.Key(0, 0, 0)
  }

  /** The role codes of the user's 'target' ACL rows on a target. */
  function RolesOn(s: Tables, user: Uuid, id: Uuid): set<string> {
    set a | a in s.acls && a.user == user && a.kind == TargetKind && a.resource == id :: a.role
  }

  /** The rows the final `JOIN acls` yields for one target: one per role code. */
  function RoleRows(s: Tables, id: Uuid, roles: seq<string>): (r: seq<ListRow>)
    requires id in s.targets
    ensures |r| == |roles|
  {
    seq(|roles|, k requires 0 <= k < |roles| => Summary(s, id, roles[k]))
  }

  /** The rows of the final `JOIN acls` for a page of targets. */
  function Expand(s: Tables, page: seq<Uuid>, roleLists: seq<seq<string>>): seq<ListRow>
    requires |roleLists| == |page|
    requires forall i :: 0 <= i < |page| ==> page[i] in s.targets
  {
    if page == [] then []
    else
      var n := |page| - 1;
      Expand(s, page[..n], roleLists[..n]) + RoleRows(s, page[n], roleLists[n])
  }

  /** The scan of the rows of one target: each row is appended and sets the total to the
      window count it carries. */
  method ScanRoles(rows: seq<ListRow>, total: int, s: Tables, id: Uuid, roles: seq<string>, count: int)
    returns (rows': seq<ListRow>, total': int)
    requires id in s.targets
    ensures rows' == rows + RoleRows(s, id, roles)
    ensures total' == if roles == [] then total else count
  {
    rows', total' := rows, total;
    for k := 0 to |roles|
      invariant rows' == rows + RoleRows(s, id, roles[..k])
      invariant total' == if k == 0 then total else count
    {
      assert RoleRows(s, id, roles[..k + 1]) == RoleRows(s, id, roles[..k]) + [Summary(s, id, roles[k])];
      rows' := rows' + [Summary(s, id, roles[k])];
      total' := count;
    }
    assert roles[..|roles|] == roles;
  }

  /** GetAllForUser: the visible targets, ordered, cut to the page, each repeated once per
      role code the user holds on it, with the count of all visible targets. The count is
      read from the rows, so a page past the end reports 0. `listing` is the order the
      database chose and `roleLists` the role codes in the order it emitted them. */
  method GetAllForUser(db: Database, token: Tokenizer.Tokenizer, status: string, column: TargetRow -> int,
                       dir: Listing.Direction, limit: nat, offset: nat, user: Uuid, search: TextSearch)
    returns (rows: seq<ListRow>, total: int, ghost listing: seq<Uuid>, ghost roleLists: seq<seq<string>>)
    ensures var s := db.Snapshot();
      Listing.Enumerates(listing, set id | id in s.targets && Listed(s, token, status, user, search, id))
      && Listing.Sorted(listing, KeyOf(s, token, search, column), dir)
    ensures var s := db.Snapshot(); var page := Listing.Page(listing, limit, offset);
      |roleLists| == |page|
      && (forall i :: 0 <= i < |page| ==> page[i] in s.targets)
      && (forall i :: 0 <= i < |page| ==> Listing.Enumerates(roleLists[i], RolesOn(s, user, page[i])))
      && rows == Expand(s, page, roleLists)
    ensures rows == [] <==> Listing.Page(listing, limit, offset) == []
    ensures total == if rows == [] then 0 else |listing|
  {
    var s := db.Snapshot();
    var visible := set id | id in s.targets && Listed(s, token, status, user, search, id);
    var ids := Listing.Elements(visible);
    var sorted := Listing.Sort(ids, KeyOf(s, token, search, column), dir);
    Listing.SortEnumerates(ids, visible, KeyOf(s, token, search, column), dir);
    listing := sorted;
    var page := Listing.Page(sorted, limit, offset);
    rows, total, roleLists := ScanPage(s, page, user, |sorted|);
  }

  /** The scan of the joined result set of a page: every row is appended and sets the
      total to the window count; each target on the page contributes its role rows. */
  method ScanPage(s: Tables, page: seq<Uuid>, user: Uuid, count: int)
    returns (rows: seq<ListRow>, total: int, ghost roleLists: seq<seq<string>>)
    requires forall i :: 0 <= i < |page| ==> page[i] in s.targets && s.Grants(user, TargetKind, page[i], Viewer)
    ensures |roleLists| == |page|
    ensures forall i :: 0 <= i < |page| ==> Listing.Enumerates(roleLists[i], RolesOn(s, user, page[i]))
    ensures rows == Expand(s, page, roleLists)
    ensures rows == [] <==> page == []
    ensures total == if rows == [] then 0 else count
  {
    rows, total, roleLists := [], 0, [];
    for i := 0 to |page|
      invariant |roleLists| == i
      invariant forall j :: 0 <= j < i ==> Listing.Enumerates(roleLists[j], RolesOn(s, user, page[j]))
      invariant rows == Expand(s, page[..i], roleLists)
      invariant rows == [] <==> i == 0
      invariant total == if rows == [] then 0 else count
    {
      var id := page[i];
      var roles := Listing.Elements(RolesOn(s, user, id));
      assert |roles| > 0 by {
        var a :| a in s.acls && s.GrantsBy(a, user, TargetKind, id, Viewer);
        assert a.role in RolesOn(s, user, id);
      }
      rows, total := ScanRoles(rows, total, s, id, roles, count);
      roleLists := roleLists + [roles];
      assert page[..i + 1][..i] == page[..i] && roleLists[..i] == roleLists[..i][..i];
    }
    assert page[..|page|] == page;
  }

  /** The creator of a new target can read it back at any role cutoff ranked at or below
      owner, provided owner ranks first. */
  lemma {:induction false} InsertThenGet(s: Tables, t: TargetInput, fts: Fts, user: Uuid, newUuid: Uuid, serial: int, minRole: string)
    requires InsertSpec(s, t, fts, user, newUuid, serial).err.None?
    requires Owner in s.roles && minRole in s.roles && s.roles[Owner] <= s.roles[minRole]
    ensures Get(InsertSpec(s, t, fts, user, newUuid, serial).tables, newUuid, user, minRole)
            == Ok(NewRow(t, InitialVersion, serial))
  {
    var s' := InsertSpec(s, t, fts, user, newUuid, serial).tables;
    OwnAclGrants(s', user, TargetKind, newUuid, Owner);
    GrantsWeaken(s', user, TargetKind, newUuid, Owner, minRole);
  }

  /** The creator of a new target sees it in an unfiltered list. */
  lemma {:induction false} InsertThenListed(s: Tables, t: TargetInput, fts: Fts, user: Uuid, newUuid: Uuid, serial: int, search: TextSearch)
    requires InsertSpec(s, t, fts, user, newUuid, serial).err.None?
    requires RanksOrdered(s.roles)
    ensures Listed(InsertSpec(s, t, fts, user, newUuid, serial).tables, Tokenizer.Tokenizer("", ""), "", user, search, newUuid)
  {
    var s' := InsertSpec(s, t, fts, user, newUuid, serial).tables;
    OwnAclGrants(s', user, TargetKind, newUuid, Owner);
    GrantsWeaken(s', user, TargetKind, newUuid, Owner, Viewer);
  }

  /** After a successful update an editor reads back the new fields with the version one
      higher. */
  lemma {:induction false} UpdateThenGet(s: Tables, id: Uuid, version: int, t: TargetInput, fts: Fts, user: Uuid)
    requires UpdateSpec(s, id, version, t, fts, user).err.None?
    ensures Get(UpdateSpec(s, id, version, t, fts, user).tables, id, user, Editor)
            == Ok(NewRow(t, version + 1, s.targets[id].serialId))
  {
  }

  /** Optimistic locking: once an update has gone through, a second update that supplies
      the same version conflicts and changes nothing. */
  lemma {:induction false} StaleUpdateConflicts(s: Tables, id: Uuid, version: int, t: TargetInput, fts: Fts, user: Uuid,
                                                t2: TargetInput, fts2: Fts, user2: Uuid)
    requires UpdateSpec(s, id, version, t, fts, user).err.None?
    ensures var s' := UpdateSpec(s, id, version, t, fts, user).tables;
            UpdateSpec(s', id, version, t2, fts2, user2) == Outcome(s', Some(EditConflict))
  {
  }

  /** A deleted target is gone for everyone. */
  lemma {:induction false} DeleteThenGet(s: Tables, id: Uuid, user: Uuid, reader: Uuid, minRole: string)
    requires DeleteSpec(s, id, user).err.None?
    ensures Get(DeleteSpec(s, id, user).tables, id, reader, minRole) == Err(RecordNotFound)
  {
  }

  /** Only direct grants count: ACL rows on actions, activities or sessions neither reveal
      a target nor let anyone edit or delete it. */
  lemma {:induction false} DirectGrantsOnly(s: Tables, extra: set<Acl>, id: Uuid, user: Uuid, minRole: string,
                                            version: int, t: TargetInput, fts: Fts)
    requires forall a :: a in extra ==> a.kind != TargetKind
    ensures var s' := s.(acls := s.acls + extra);
      Get(s', id, user, minRole) == Get(s, id, user, minRole)
      && UpdateSpec(s', id, version, t, fts, user).err == UpdateSpec(s, id, version, t, fts, user).err
      && DeleteSpec(s', id, user).err == DeleteSpec(s, id, user).err
  {
    var s' := s.(acls := s.acls + extra);
    GrantsFrame(s, s', user, TargetKind, id, minRole);
    GrantsFrame(s, s', user, TargetKind, id, Editor);
    GrantsFrame(s, s', user, TargetKind, id, Owner);
  }

  /** Update and Delete touch only the row they name. */
  lemma OtherTargetsUnchanged(s: Tables, id: Uuid, other: Uuid, version: int, t: TargetInput, fts: Fts, user: Uuid)
    requires other != id
    ensures other in s.targets ==>
              other in UpdateSpec(s, id, version, t, fts, user).tables.targets
              && UpdateSpec(s, id, version, t, fts, user).tables.targets[other] == s.targets[other]
    ensures other in s.targets ==>
              other in DeleteSpec(s, id, user).tables.targets
              && DeleteSpec(s, id, user).tables.targets[other] == s.targets[other]
  {
    if other in s.targets {
      UpdateKeepsOthers(s, id, other, version, t, fts, user);
      DeleteKeepsOthers(s, id, other, user);
    }
  }

  lemma UpdateKeepsOthers(s: Tables, id: Uuid, other: Uuid, version: int, t: TargetInput, fts: Fts, user: Uuid)
    requires other != id && other in s.targets
    ensures other in UpdateSpec(s, id, version, t, fts, user).tables.targets
    ensures UpdateSpec(s, id, version, t, fts, user).tables.targets[other] == s.targets[other]
  {
  }

  lemma DeleteKeepsOthers(s: Tables, id: Uuid, other: Uuid, user: Uuid)
    requires other != id && other in s.targets
    ensures other in DeleteSpec(s, id, user).tables.targets
    ensures DeleteSpec(s, id, user).tables.targets[other] == s.targets[other]
  {
  }
}
