/** The PostgreSQL tables the data layer reads and writes, as values: the target → action →
    session hierarchy (plus the legacy activities table), their full-text rows, the access
    control list, the roles table and the daily quota counters. A `Database` object holds
    one value per table; `Tables` is a snapshot of all of them, the state a transaction rolls
    back to. */
module Store {
  import opened Errors
  import Tokenizer
  import Listing

  /** UUIDs are opaque identifiers; 0 stands for uuid.Nil. */
  type Uuid = nat
  const NilUuid: Uuid := 0

  /** Instants, in seconds. */
  type Time = int

  const Owner: string := "owner"
  const Editor: string := "editor"
  const Viewer: string := "viewer"

  /** The acls.resource_type values. */
  datatype Kind = TargetKind | ActionKind | ActivityKind | SessionKind

  /** One row of acls: `user` holds `role` on the resource (kind, resource). */
  datatype Acl = Acl(user: Uuid, kind: Kind, resource: Uuid, role: string)

  /** The ordering of the roles table the permission checks rely on. */
  predicate RanksOrdered(roles: map<string, int>) {
    Owner in roles && Editor in roles && Viewer in roles
    && roles[Owner] <= roles[Editor] <= roles[Viewer]
  }

  /** Weight labels of setweight; D is the label to_tsvector gives. */
  datatype Weight = A | B | D

  /** A tsvector, kept as the configuration and text it was built from. */
  datatype Lexemes = Lexemes(config: string, text: string, weight: Weight)
  type Tsv = seq<Lexemes>

  function ToTsvector(config: string, text: string): Tsv {
    [Lexemes(config, text, D)]
  }

  function SetWeight(v: Tsv, w: Weight): (r: Tsv)
    ensures |r| == |v|
    ensures forall i :: 0 <= i < |r| ==> r[i] == v[i].(weight := w)
  {
    if v == [] then [] else [v[0].(weight := w)] + SetWeight(v[1..], w)
  }

  /** The search columns of targets_fts, actions_fts and activities_fts. */
  datatype DocFts = DocFts(chinese: Tsv, english: Tsv, chineseNotes: Tsv, englishNotes: Tsv)

  /** The search columns of sessions_fts. */
  datatype SessionFts = SessionFts(chineseNotes: Tsv, englishNotes: Tsv)

  /** The FTS struct: the tokenized title, description and notes. */
  datatype Fts = Fts(title: Tokenizer.Tokenizer, description: Tokenizer.Tokenizer, notes: Tokenizer.Tokenizer)

  /** The row an insert or update writes to a document FTS table: Han tokens under the
      'simple' configuration and English tokens under 'english', title weighted A and
      description B; notes in columns of their own. */
  function DocFtsOf(fts: Fts): DocFts {
    DocFts(
      SetWeight(ToTsvector("simple", fts.title.chinese), A) + SetWeight(ToTsvector("simple", fts.description.chinese), B),
      SetWeight(ToTsvector("english", fts.title.english), A) + SetWeight(ToTsvector("english", fts.description.english), B),
      ToTsvector("simple", fts.notes.chinese),
      ToTsvector("english", fts.notes.english))
  }

  function SessionFtsOf(fts: Fts): SessionFts {
    SessionFts(ToTsvector("simple", fts.notes.chinese), ToTsvector("english", fts.notes.english))
  }

  /** The text-search operators: `tsv @@ plainto_tsquery(q)` and ts_rank. */
  datatype TextSearch = TextSearch(matches: (Tsv, string) -> bool, rank: (Tsv, string) -> int)

  /** `(q = '' OR tsv @@ plainto_tsquery(q))`: an empty query matches everything. */
  predicate Matches(search: TextSearch, v: Tsv, query: string) {
    query == "" || search.matches(v, query)
  }

  /** The rank column of the list queries: each non-empty query contributes its ts_rank. */
  function Rank(search: TextSearch, chinese: Tsv, english: Tsv, token: Tokenizer.Tokenizer): int {
    (if token.chinese != "" then search.rank(chinese, token.chinese) else 0)
    + (if token.english != "" then search.rank(english, token.english) else 0)
  }

  datatype TargetRow = TargetRow(
    title: string, description: string, notes: string, dueDate: Option<Time>,
    status: string, version: int, serialId: int)

  /** A row of actions or of activities. */
  datatype TaskRow = TaskRow(
    targetUuid: Uuid, title: string, description: string, notes: string,
    dueDate: Option<Time>, status: string, version: int, serialId: int)

  /** A row of sessions; `activityUuid` is the legacy column that ties a session to an
      activity, which no statement here writes. */
  datatype SessionRow = SessionRow(
    actionUuid: Uuid, activityUuid: Option<Uuid>, startsAt: Time, endsAt: Option<Time>,
    notes: string, version: int)

  /** `btrim(COALESCE(notes, '')) <> ''`: the notes hold something besides spaces. */
  predicate HasNotes(notes: string) {
    exists i :: 0 <= i < |notes| && notes[i] != ' '
  }

  /** The key of daily_quota. */
  datatype QuotaKey = QuotaKey(user: Uuid, usageDate: int, resource: string)

  /** Column defaults of the schema: the first version of a row, the notes of a session
      inserted without them, the usage of a new quota record. */
  const InitialVersion: int := 1
  const DefaultNotes: string := ""
  const DefaultQuotaUsed: int := 0

  /** The two tables with the action shape. */
  datatype TaskTable = ActionsTable | ActivitiesTable

  function TaskKind(table: TaskTable): Kind {
    if table == ActionsTable then ActionKind else ActivityKind
  }

  /** A snapshot of every table. */
  datatype Tables = Tables(
    roles: map<string, int>,
    acls: set<Acl>,
    targets: map<Uuid, TargetRow>,
    targetsFts: map<Uuid, DocFts>,
    actions: map<Uuid, TaskRow>,
    actionsFts: map<Uuid, DocFts>,
    activities: map<Uuid, TaskRow>,
    activitiesFts: map<Uuid, DocFts>,
    sessions: map<Uuid, SessionRow>,
    sessionsFts: map<Uuid, SessionFts>,
    dailyQuota: map<QuotaKey, int>)
  {
    function Tasks(table: TaskTable): map<Uuid, TaskRow> {
      if table == ActionsTable then actions else activities
    }

    function TasksFts(table: TaskTable): map<Uuid, DocFts> {
      if table == ActionsTable then actionsFts else activitiesFts
    }

    /** The snapshot with one task table and its FTS table replaced. */
    function WithTasks(table: TaskTable, rows: map<Uuid, TaskRow>, fts: map<Uuid, DocFts>): (t: Tables)
      ensures t.Tasks(table) == rows && t.TasksFts(table) == fts
      ensures t.Tasks(Other(table)) == Tasks(Other(table)) && t.TasksFts(Other(table)) == TasksFts(Other(table))
      ensures t.(actions := actions, actionsFts := actionsFts, activities := activities, activitiesFts := activitiesFts) == this
    {
      if table == ActionsTable then this.(actions := rows, actionsFts := fts)
      else this.(activities := rows, activitiesFts := fts)
    }

    /** `EXISTS (SELECT 1 FROM acls JOIN roles ... WHERE user, kind, resource match AND
        rank <= (SELECT rank FROM roles WHERE code = cutoff))`. A code missing from the
        roles table has no rank, so it grants nothing and admits nothing. */
    predicate Grants(user: Uuid, kind: Kind, id: Uuid, cutoff: string) {
      cutoff in roles && exists a :: a in acls && GrantsBy(a, user, kind, id, cutoff)
    }

    predicate GrantsBy(a: Acl, user: Uuid, kind: Kind, id: Uuid, cutoff: string) {
      cutoff in roles && a.user == user && a.kind == kind && a.resource == id
      && a.role in roles && roles[a.role] <= roles[cutoff]
    }
  }

  /** What one statement leaves behind: the tables and the error it returned, if any. */
  datatype Outcome = Outcome(tables: Tables, err: Option<Error>)

  /** time.Now().AddDate(0, 0, -1), taken as 24 hours. */
  const Day: int := 86400

  function Other(table: TaskTable): TaskTable {
    if table == ActionsTable then ActivitiesTable else ActionsTable
  }

  /** A grant under a cutoff is a grant under every cutoff of higher or equal rank. */
  lemma GrantsWeaken(s: Tables, user: Uuid, kind: Kind, id: Uuid, c1: string, c2: string)
    requires s.Grants(user, kind, id, c1)
    requires c2 in s.roles && s.roles[c1] <= s.roles[c2]
    ensures s.Grants(user, kind, id, c2)
  {
    var a :| a in s.acls && s.GrantsBy(a, user, kind, id, c1);
    assert s.GrantsBy(a, user, kind, id, c2);
  }

  /** With owner ≤ editor ≤ viewer, an owner grant admits editing and viewing, and an
      editor grant admits viewing. */
  lemma RoleHierarchy(s: Tables, user: Uuid, kind: Kind, id: Uuid)
    requires RanksOrdered(s.roles)
    ensures s.Grants(user, kind, id, Owner) ==> s.Grants(user, kind, id, Editor)
    ensures s.Grants(user, kind, id, Editor) ==> s.Grants(user, kind, id, Viewer)
  {
    if s.Grants(user, kind, id, Owner) {
      GrantsWeaken(s, user, kind, id, Owner, Editor);
    }
    if s.Grants(user, kind, id, Editor) {
      GrantsWeaken(s, user, kind, id, Editor, Viewer);
    }
  }

  /** An ACL row naming the role itself grants under that role's cutoff. */
  lemma OwnAclGrants(s: Tables, user: Uuid, kind: Kind, id: Uuid, role: string)
    requires Acl(user, kind, id, role) in s.acls && role in s.roles
    ensures s.Grants(user, kind, id, role)
  {
    assert s.GrantsBy(Acl(user, kind, id, role), user, kind, id, role);
  }

  /** Grants depend only on the roles table and the ACL rows of that user and resource. */
  lemma GrantsFrame(s: Tables, t: Tables, user: Uuid, kind: Kind, id: Uuid, cutoff: string)
    requires s.roles == t.roles
    requires forall a: Acl :: a.user == user && a.kind == kind && a.resource == id ==> (a in s.acls <==> a in t.acls)
    ensures s.Grants(user, kind, id, cutoff) <==> t.Grants(user, kind, id, cutoff)
  {
    if s.Grants(user, kind, id, cutoff) {
      var a :| a in s.acls && s.GrantsBy(a, user, kind, id, cutoff);
      assert t.GrantsBy(a, user, kind, id, cutoff);
    }
    if t.Grants(user, kind, id, cutoff) {
      var a :| a in t.acls && t.GrantsBy(a, user, kind, id, cutoff);
      assert s.GrantsBy(a, user, kind, id, cutoff);
    }
  }

  /** GenFTS: the three tokenizers of a title, a description and notes, under one Han
      class and one word cutter. */
  function GenFts(title: string, description: string, notes: string,
                  isHan: char -> bool, cut: string -> seq<string>): Fts {
    Fts(Tokenizer.New(title, isHan, cut), Tokenizer.New(description, isHan, cut), Tokenizer.New(notes, isHan, cut))
  }

  /** An ACL row of `user`, with a role the roles table knows, on one of `resources`: the
      rows the `JOIN LATERAL (... ORDER BY r.rank ASC LIMIT 1)` of the list queries
      chooses from. */
  predicate Reaches(s: Tables, a: Acl, user: Uuid, resources: set<(Kind, Uuid)>) {
    a.user == user && (a.kind, a.resource) in resources && a.role in s.roles
  }

  /** `role` is the role of a reaching row of least rank. */
  predicate IsLowestRole(s: Tables, user: Uuid, resources: set<(Kind, Uuid)>, role: string) {
    role in s.roles
    && (exists a :: a in s.acls && Reaches(s, a, user, resources) && a.role == role)
    && (forall a :: a in s.acls && Reaches(s, a, user, resources) ==> s.roles[role] <= s.roles[a.role])
  }

  /** The lateral role lookup: the role code of least rank among the user's ACL rows on
      any of `resources`, or None when there is no such row (the inner join then drops the
      item). Rows of equal rank may be chosen either way. */
  method LowestRole(s: Tables, user: Uuid, resources: set<(Kind, Uuid)>) returns (role: Option<string>)
    ensures role.None? <==> !exists a :: a in s.acls && Reaches(s, a, user, resources)
    ensures role.Some? ==> IsLowestRole(s, user, resources, role.value)
  {
    var candidates := Listing.Elements(set a | a in s.acls && Reaches(s, a, user, resources));
    role := None;
    for i := 0 to |candidates|
      invariant role.None? <==> i == 0
      invariant role.Some? ==> role.value in s.roles
      invariant role.Some? ==> exists j :: 0 <= j < i && candidates[j].role == role.value
      invariant role.Some? ==> forall j :: 0 <= j < i ==> s.roles[role.value] <= s.roles[candidates[j].role]
    {
      if role.None? || s.roles[candidates[i].role] < s.roles[role.value] {
        role := Some(candidates[i].role);
      }
    }
    if exists a :: a in s.acls && Reaches(s, a, user, resources) {
      var a :| a in s.acls && Reaches(s, a, user, resources);
      assert a in candidates;
    }
    if role.Some? {
      var j :| 0 <= j < |candidates| && candidates[j].role == role.value;
      assert candidates[j] in s.acls && Reaches(s, candidates[j], user, resources);
      forall a | a in s.acls && Reaches(s, a, user, resources)
        ensures s.roles[role.value] <= s.roles[a.role]
      {
        assert a in candidates;
        var k :| 0 <= k < |candidates| && candidates[k] == a;
      }
    }
  }

  /** The role the list queries report is at least as strong as any grant the user holds
      on the same resources: under a cutoff that some reached resource grants, the lowest
      role passes too. */
  lemma LowestRoleGrants(s: Tables, user: Uuid, resources: set<(Kind, Uuid)>, role: string,
                         kind: Kind, id: Uuid, cutoff: string)
    requires IsLowestRole(s, user, resources, role)
    requires (kind, id) in resources && s.Grants(user, kind, id, cutoff)
    ensures s.roles[role] <= s.roles[cutoff]
  {
    var a :| a in s.acls && s.GrantsBy(a, user, kind, id, cutoff);
    assert Reaches(s, a, user, resources);
  }

  /** The database: one field per table. */
  class Database {
    var roles: map<string, int>
    var acls: set<Acl>
    var targets: map<Uuid, TargetRow>
    var targetsFts: map<Uuid, DocFts>
    var actions: map<Uuid, TaskRow>
    var actionsFts: map<Uuid, DocFts>
    var activities: map<Uuid, TaskRow>
    var activitiesFts: map<Uuid, DocFts>
    var sessions: map<Uuid, SessionRow>
    var sessionsFts: map<Uuid, SessionFts>
    var dailyQuota: map<QuotaKey, int>

    /** A database with the given roles table and every other table empty. */
    constructor (roles: map<string, int>)
      ensures Snapshot() == Tables(roles, {}, map[], map[], map[], map[], map[], map[], map[], map[], map[])
    {
      this.roles := roles;
      acls, targets, targetsFts := {}, map[], map[];
      actions, actionsFts, activities, activitiesFts := map[], map[], map[], map[];
      sessions, sessionsFts, dailyQuota := map[], map[], map[];
    }

    function Snapshot(): Tables
      reads this
    {
      Tables(roles, acls, targets, targetsFts, actions, actionsFts, activities, activitiesFts,
             sessions, sessionsFts, dailyQuota)
    }

    /** Put every table back as the snapshot has it (a rollback). */
    method Restore(t: Tables)
      modifies this
      ensures Snapshot() == t
    {
      roles, acls, targets, targetsFts := t.roles, t.acls, t.targets, t.targetsFts;
      actions, actionsFts, activities, activitiesFts := t.actions, t.actionsFts, t.activities, t.activitiesFts;
      sessions, sessionsFts, dailyQuota := t.sessions, t.sessionsFts, t.dailyQuota;
    }

    /** Write the ACL table, the sessions table and its FTS table. */
    method SetSessions(acls: set<Acl>, rows: map<Uuid, SessionRow>, fts: map<Uuid, SessionFts>)
      modifies this
      ensures Snapshot() == old(Snapshot()).(acls := acls, sessions := rows, sessionsFts := fts)
    {
      this.acls, sessions, sessionsFts := acls, rows, fts;
    }

    /** Write one task table and its FTS table. */
    method SetTasks(table: TaskTable, rows: map<Uuid, TaskRow>, fts: map<Uuid, DocFts>)
      modifies this
      ensures Snapshot() == old(Snapshot()).WithTasks(table, rows, fts)
    {
      if table == ActionsTable {
        actions, actionsFts := rows, fts;
      } else {
        activities, activitiesFts := rows, fts;
      }
    }
  }
}
