/** UserPreferencesModel: the list-view preferences each user keeps (sort column, sort order
    and status filter for targets, actions and sessions), the checks on them, and the
    per-user upsert that stores them as a JSON document. */
module Preferences {
  import opened Errors
  import Store
  import Validator

  type Uuid = Store.Uuid

  /** One kind's filter; `status` None is a nil slice, which JSON `null` or a missing key
      decode to. */
  datatype Filter = Filter(sortBy: string, sortOrder: string, status: Option<seq<string>>)

  datatype Filters = Filters(target: Filter, action: Filter, session: Filter)

  datatype Preferences = Preferences(filters: Filters, version: string)

  /** The only preferences version accepted. */
  const CurrentVersion: string := "2025-12-09"

  /** The safelists the checks consult. They and validator.PermittedValues are defined
      outside this model: the lists are values here and PermittedValues a parameter. */
  datatype Safelists = Safelists(
    sort: seq<string>, sortOrder: seq<string>, sessionSort: seq<string>,
    status: seq<string>, sessionStatus: seq<string>)

  /** The slice a status filter holds, empty for nil. */
  function StatusValues(f: Filter): seq<string> {
    if f.status.Some? then f.status.value else []
  }

  /** The checks of ValidatePreferences in order: the version, the sort columns, the sort
      orders, the presence of each status list, and the status values; the last check, on
      the session status values, is recorded under `sessionStatusKey`. */
  function RulesUnder(
    p: Preferences, lists: Safelists, permittedValues: (seq<string>, seq<string>) -> bool,
    sessionStatusKey: string): seq<Validator.Rule>
  {
    [Validator.Rule(p.version == CurrentVersion, "version", "must be '2025-12-09'")]
    + SortByRules(p.filters, lists) + SortOrderRules(p.filters, lists)
    + StatusPresentRules(p.filters) + StatusValueRules(p.filters, lists, permittedValues, sessionStatusKey)
  }

  function SortByRules(f: Filters, lists: Safelists): seq<Validator.Rule> {
    [ Validator.Rule(Validator.PermittedValue(f.target.sortBy, lists.sort), "filters.target.sortBy", "not a permitted value"),
      Validator.Rule(Validator.PermittedValue(f.action.sortBy, lists.sort), "filters.action.sortBy", "not a permitted value"),
      Validator.Rule(Validator.PermittedValue(f.session.sortBy, lists.sessionSort), "filters.session.sortBy", "not a permitted value") ]
  }

  function SortOrderRules(f: Filters, lists: Safelists): seq<Validator.Rule> {
    [ Validator.Rule(Validator.PermittedValue(f.target.sortOrder, lists.sortOrder), "filters.target.sortOrder", "not a permitted value"),
      Validator.Rule(Validator.PermittedValue(f.action.sortOrder, lists.sortOrder), "filters.action.sortOrder", "not a permitted value"),
      Validator.Rule(Validator.PermittedValue(f.session.sortOrder, lists.sortOrder), "filters.session.sortOrder", "not a permitted value") ]
  }

  function StatusPresentRules(f: Filters): seq<Validator.Rule> {
    [ Validator.Rule(f.target.status.Some?, "filters.target.status", "must be provided"),
      Validator.Rule(f.action.status.Some?, "filters.action.status", "must be provided"),
      Validator.Rule(f.session.status.Some?, "filters.session.status", "must be provided") ]
  }

  function StatusValueRules(
    f: Filters, lists: Safelists, permittedValues: (seq<string>, seq<string>) -> bool,
    sessionStatusKey: string): seq<Validator.Rule>
  {
    [ Validator.Rule(permittedValues(StatusValues(f.target), lists.status), "filters.target.status", "contains invalid status value"),
      Validator.Rule(permittedValues(StatusValues(f.action), lists.status), "filters.action.status", "contains invalid status value"),
      Validator.Rule(permittedValues(StatusValues(f.session), lists.sessionStatus), sessionStatusKey, "contains invalid status value") ]
  }

  /** The checks as the source writes them: the session status values are reported under
      the action's key. */
  function Rules(p: Preferences, lists: Safelists, permittedValues: (seq<string>, seq<string>) -> bool): seq<Validator.Rule> {
    RulesUnder(p, lists, permittedValues, "filters.action.status")
  }

  /** The checks with the session status values reported under their own key. */
  function IntendedRules(p: Preferences, lists: Safelists, permittedValues: (seq<string>, seq<string>) -> bool): seq<Validator.Rule> {
    RulesUnder(p, lists, permittedValues, "filters.session.status")
  }

  /** One check followed by four groups of checks, run one after another. */
  lemma ApplyRulesChain(
    e0: map<string, string>, r: Validator.Rule, a: seq<Validator.Rule>, b: seq<Validator.Rule>,
    c: seq<Validator.Rule>, d: seq<Validator.Rule>)
    ensures Validator.ApplyRules(e0, [r] + a + b + c + d)
            == Validator.ApplyRules(Validator.ApplyRules(Validator.ApplyRules(Validator.ApplyRules(
                 Validator.Checked(e0, r), a), b), c), d)
  {
    Validator.ApplyRulesSnoc(e0, [], r);
    assert [] + [r] == [r];
    Validator.ApplyRulesAppend(e0, [r], a);
    Validator.ApplyRulesAppend(e0, [r] + a, b);
    Validator.ApplyRulesAppend(e0, [r] + a + b, c);
    Validator.ApplyRulesAppend(e0, [r] + a + b + c, d);
  }

  /** The thirteen checks, run against the validator. */
  method CheckPreferences(
    v: Validator.Validator, p: Preferences, lists: Safelists,
    permittedValues: (seq<string>, seq<string>) -> bool, sessionStatusKey: string)
    modifies v
    ensures v.errors == Validator.ApplyRules(old(v.errors), RulesUnder(p, lists, permittedValues, sessionStatusKey))
  {
    ghost var e0 := v.errors;
    var f := p.filters;
    v.Check(p.version == CurrentVersion, "version", "must be '2025-12-09'");
    // sort columns, sort orders, presence of the status lists, status values
    v.CheckAll(SortByRules(f, lists));
    v.CheckAll(SortOrderRules(f, lists));
    v.CheckAll(StatusPresentRules(f));
    v.CheckAll(StatusValueRules(f, lists, permittedValues, sessionStatusKey));
    ApplyRulesChain(e0, Validator.Rule(p.version == CurrentVersion, "version", "must be '2025-12-09'"),
                    SortByRules(f, lists), SortOrderRules(f, lists), StatusPresentRules(f),
                    StatusValueRules(f, lists, permittedValues, sessionStatusKey));
  }

  /** ValidatePreferences as written. */
  method ValidatePreferences(
    v: Validator.Validator, p: Preferences, lists: Safelists,
    permittedValues: (seq<string>, seq<string>) -> bool)
    modifies v
    ensures v.errors == Validator.ApplyRules(old(v.errors), Rules(p, lists, permittedValues))
  {
    CheckPreferences(v, p, lists, permittedValues, "filters.action.status");
  }

  /** ValidatePreferences with the session status reported under its own key. */
  method ValidatePreferencesIntended(
    v: Validator.Validator, p: Preferences, lists: Safelists,
    permittedValues: (seq<string>, seq<string>) -> bool)
    modifies v
    ensures v.errors == Validator.ApplyRules(old(v.errors), IntendedRules(p, lists, permittedValues))
  {
    CheckPreferences(v, p, lists, permittedValues, "filters.session.status");
  }

  /** Which key a check reports under does not change whether the preferences pass: they
      pass exactly when the version is current, every sort column and order is in its
      safelist, and every status list is present and permitted. */
  lemma ValidPreferences(
    p: Preferences, lists: Safelists, permittedValues: (seq<string>, seq<string>) -> bool, key: string)
    ensures var f := p.filters;
      Validator.ApplyRules(map[], RulesUnder(p, lists, permittedValues, key)) == map[] <==>
        p.version == CurrentVersion
        && f.target.sortBy in lists.sort && f.action.sortBy in lists.sort
        && f.session.sortBy in lists.sessionSort
        && f.target.sortOrder in lists.sortOrder && f.action.sortOrder in lists.sortOrder
        && f.session.sortOrder in lists.sortOrder
        && f.target.status.Some? && f.action.status.Some? && f.session.status.Some?
        && permittedValues(f.target.status.value, lists.status)
        && permittedValues(f.action.status.value, lists.status)
        && permittedValues(f.session.status.value, lists.sessionStatus)
  {
    var rules := RulesUnder(p, lists, permittedValues, key);
    Validator.ApplyRulesValid(rules);
    assert (forall i :: 0 <= i < |rules| ==> rules[i].ok) <==>
             rules[0].ok && rules[1].ok && rules[2].ok && rules[3].ok && rules[4].ok
             && rules[5].ok && rules[6].ok && rules[7].ok && rules[8].ok && rules[9].ok
             && rules[10].ok && rules[11].ok && rules[12].ok;
  }

  /** Among the first twelve checks only the nil check reports under the session status
      key. */
  lemma SessionStatusKeyOnce(
    p: Preferences, lists: Safelists, permittedValues: (seq<string>, seq<string>) -> bool, key: string)
    requires p.filters.session.status.Some?
    ensures !Validator.FailsFor(RulesUnder(p, lists, permittedValues, key)[..12], "filters.session.status")
  {
    var head := RulesUnder(p, lists, permittedValues, key)[..12];
    forall i | 0 <= i < 12 && head[i].key == "filters.session.status" ensures head[i].ok {
      assert i == 9;
    }
  }

  /** As written, invalid session status values are reported under the action's key: the
      session's own key gets no entry, and the action's key does. */
  lemma SessionStatusMisfiled(p: Preferences, lists: Safelists, permittedValues: (seq<string>, seq<string>) -> bool)
    requires p.filters.session.status.Some?
    requires !permittedValues(p.filters.session.status.value, lists.sessionStatus)
    ensures var errors := Validator.ApplyRules(map[], Rules(p, lists, permittedValues));
      "filters.session.status" !in errors && "filters.action.status" in errors
  {
    var rules := Rules(p, lists, permittedValues);
    SessionStatusKeyOnce(p, lists, permittedValues, "filters.action.status");
    Validator.ApplyRulesEntry(map[], rules[..12], "filters.session.status");
    Validator.ApplyRulesPrefix(map[], rules, 12);
    assert rules[..13] == rules;
  }

  /** With the intended key, invalid session status values are reported as such. */
  lemma SessionStatusReported(p: Preferences, lists: Safelists, permittedValues: (seq<string>, seq<string>) -> bool)
    requires p.filters.session.status.Some?
    requires !permittedValues(p.filters.session.status.value, lists.sessionStatus)
    ensures var errors := Validator.ApplyRules(map[], IntendedRules(p, lists, permittedValues));
      "filters.session.status" in errors && errors["filters.session.status"] == "contains invalid status value"
  {
    var rules := IntendedRules(p, lists, permittedValues);
    SessionStatusKeyOnce(p, lists, permittedValues, "filters.session.status");
    Validator.ApplyRulesEntry(map[], rules[..12], "filters.session.status");
    Validator.ApplyRulesPrefix(map[], rules, 12);
    assert rules[..13] == rules;
  }

  /** PostgreSQL's SQLSTATE for text that does not parse as the target type. */
  const InvalidTextRepresentation: string := "22P02"

  /** Put: insert the user's document, or replace it when the user has one. The `::jsonb`
      cast rejects bytes that are not JSON (`isJson`), and then nothing is written. */
  function PutSpec(rows: map<Uuid, seq<bv8>>, user: Uuid, data: seq<bv8>, isJson: seq<bv8> -> bool)
    : (map<Uuid, seq<bv8>>, Option<Error>)
  {
    if isJson(data) then (rows[user := data], None) else (rows, Some(Pq(InvalidTextRepresentation)))
  }

  /** Get: the user's document decoded with `decode` (encoding/json's Unmarshal); no row is
      ErrRecordNotFound. */
  function GetSpec(rows: map<Uuid, seq<bv8>>, user: Uuid, decode: seq<bv8> -> Result<Preferences>)
    : Result<Preferences>
  {
    if user in rows then decode(rows[user]) else Err(RecordNotFound)
  }

  /** The preferences table, one JSON document per user. */
  class UserPreferencesModel {
    var rows: map<Uuid, seq<bv8>>

    constructor ()
      ensures rows == map[]
    {
      rows := map[];
    }

    method Put(user: Uuid, data: seq<bv8>, isJson: seq<bv8> -> bool) returns (err: Option<Error>)
      modifies this
      ensures (rows, err) == PutSpec(old(rows), user, data, isJson)
    {
      if !isJson(data) {
        return Some(Pq(InvalidTextRepresentation));
      }
      rows := rows[user := data];
      return None;
    }

    method Get(user: Uuid, decode: seq<bv8> -> Result<Preferences>) returns (r: Result<Preferences>)
      ensures r == GetSpec(rows, user, decode)
    {
      if user !in rows {
        return Err(RecordNotFound);
      }
      r := decode(rows[user]);
    }
  }

  /** Put is an upsert: afterwards Get returns the new document for that user, whether or
      not one was stored before, and every other user's Get is unchanged. */
  lemma PutThenGet(
    rows: map<Uuid, seq<bv8>>, user: Uuid, data: seq<bv8>,
    isJson: seq<bv8> -> bool, decode: seq<bv8> -> Result<Preferences>)
    requires isJson(data)
    ensures var (after, err) := PutSpec(rows, user, data, isJson);
      err.None? && GetSpec(after, user, decode) == decode(data)
      && (forall other :: other != user ==> GetSpec(after, other, decode) == GetSpec(rows, other, decode))
  {
  }

  /** Putting twice keeps only the second document. */
  lemma PutOverwrites(
    rows: map<Uuid, seq<bv8>>, user: Uuid, first: seq<bv8>, second: seq<bv8>, isJson: seq<bv8> -> bool)
    requires isJson(first) && isJson(second)
    ensures PutSpec(PutSpec(rows, user, first, isJson).0, user, second, isJson) == PutSpec(rows, user, second, isJson)
  {
    assert rows[user := first][user := second] == rows[user := second];
  }
}
