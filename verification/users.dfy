/** UserModel: accounts, the checks on their fields, and the statements that store them.
    The email column carries a unique constraint; updates use the version column for
    optimistic locking. */
module Users {
  import opened Errors
  import Store
  import Validator
  import Tokens

  type Uuid = Store.Uuid
  type Time = Store.Time

  /** The password struct: `plaintext` is None when no plaintext was presented (a nil
      pointer), `hash` is None for a nil slice. Hashing itself is not modelled. */
  datatype Password = Password(plaintext: Option<string>, hash: Option<seq<bv8>>)

  /** A row of the users table. */
  datatype UserRow = UserRow(
    name: string, email: string, passwordHash: Option<seq<bv8>>, activated: bool, version: int)

  /** The User struct. */
  class User {
    var uuid: Uuid
    var name: string
    var email: string
    var password: Password
    var activated: bool
    var version: int

    constructor (uuid: Uuid, name: string, email: string, password: Password, activated: bool, version: int)
      ensures this.uuid == uuid && this.name == name && this.email == email
      ensures this.password == password && this.activated == activated && this.version == version
    {
      this.uuid, this.name, this.email, this.password := uuid, name, email, password;
      this.activated, this.version := activated, version;
    }

    /** The columns Insert and Update write, at a given version. */
    function Row(version: int): UserRow
      reads this
    {
      UserRow(name, email, password.hash, activated, version)
    }

    /** IsAnonymous: is this the very object AnonymousUser points to? */
    predicate IsAnonymous(anonymous: User) {
      this == anonymous
    }
  }

  /** IsAnonymous compares pointers, not contents: a user whose every field equals the
      sentinel's is not anonymous, and the sentinel itself is. */
  method AnonymousByIdentity(anonymous: User) returns (copy: User)
    ensures copy.uuid == anonymous.uuid && copy.name == anonymous.name && copy.email == anonymous.email
    ensures copy.password == anonymous.password && copy.activated == anonymous.activated
    ensures copy.version == anonymous.version
    ensures !copy.IsAnonymous(anonymous) && anonymous.IsAnonymous(anonymous)
  {
    copy := new User(anonymous.uuid, anonymous.name, anonymous.email, anonymous.password,
                     anonymous.activated, anonymous.version);
  }

  /** The checks of ValidateEmail; `emailRX` is the EmailRX pattern's matcher. */
  function EmailRules(email: string, emailRX: string -> bool): seq<Validator.Rule> {
    [ Validator.Rule(email != "", "email", "must be provided"),
      Validator.Rule(emailRX(email), "email", "must be a valid email address") ]
  }

  method ValidateEmail(v: Validator.Validator, email: string, emailRX: string -> bool)
    modifies v
    ensures v.errors == Validator.ApplyRules(old(v.errors), EmailRules(email, emailRX))
  {
    ghost var e0, rules := v.errors, EmailRules(email, emailRX);
    v.Check(email != "", "email", "must be provided");
    Validator.ApplyRulesSnoc(e0, [], rules[0]);
    v.Check(emailRX(email), "email", "must be a valid email address");
    Validator.ApplyRulesSnoc(e0, [rules[0]], rules[1]);
    assert [rules[0]] + [rules[1]] == rules;
  }

  /** No rune of `pw` is in category Cc or in category Cf (the table `isFormat`). */
  predicate PrintableRunes(pw: string, isFormat: char -> bool) {
    forall i :: 0 <= i < |pw| ==> !Validator.IsControl(pw[i]) && !isFormat(pw[i])
  }

  /** The checks of ValidatePasswordPlaintext. The first two look at the NFKC form (the
      parameter `nfkc`); the length checks count the runes of the password as given. */
  function PasswordRules(password: string, nfkc: string -> string, isFormat: char -> bool): seq<Validator.Rule> {
    var pw := nfkc(password);
    [ Validator.Rule(pw != "", "password", "must be provided"),
      Validator.Rule(PrintableRunes(pw, isFormat), "password", "must no contain unicode Control or Format characters"),
      Validator.Rule(|password| >= 8, "password", "must be at least 8 bytes long"),
      Validator.Rule(|password| <= 72, "password", "must not be more than 72 bytes long") ]
  }

  method ValidatePasswordPlaintext(
    v: Validator.Validator, password: string, nfkc: string -> string, isFormat: char -> bool)
    modifies v
    ensures v.errors == Validator.ApplyRules(old(v.errors), PasswordRules(password, nfkc, isFormat))
  {
    ghost var e0, rules := v.errors, PasswordRules(password, nfkc, isFormat);
    var pw := nfkc(password);
    v.Check(pw != "", "password", "must be provided");
    Validator.ApplyRulesSnoc(e0, [], rules[0]);
    var printable := Validator.ValidUnicodeChars(pw, isFormat);
    v.Check(printable, "password", "must no contain unicode Control or Format characters");
    Validator.ApplyRulesSnoc(e0, rules[..1], rules[1]);
    assert rules[..1] + [rules[1]] == rules[..2];
    v.Check(|password| >= 8, "password", "must be at least 8 bytes long");
    Validator.ApplyRulesSnoc(e0, rules[..2], rules[2]);
    assert rules[..2] + [rules[2]] == rules[..3];
    v.Check(|password| <= 72, "password", "must not be more than 72 bytes long");
    Validator.ApplyRulesSnoc(e0, rules[..3], rules[3]);
    assert rules[..3] + [rules[3]] == rules;
  }

  /** A password passes exactly when its normal form is non-empty and printable and it has
      between 8 and 72 runes. */
  lemma ValidPassword(password: string, nfkc: string -> string, isFormat: char -> bool)
    ensures Validator.ApplyRules(map[], PasswordRules(password, nfkc, isFormat)) == map[] <==>
              nfkc(password) != "" && PrintableRunes(nfkc(password), isFormat) && 8 <= |password| <= 72
  {
    var rules := PasswordRules(password, nfkc, isFormat);
    Validator.ApplyRulesValid(rules);
    assert (forall i :: 0 <= i < |rules| ==> rules[i].ok) <==>
             rules[0].ok && rules[1].ok && rules[2].ok && rules[3].ok;
  }

  /** The checks of ValidateUser: the name (at most 30 runes, under a message that says 40
      bytes), the email, and the password only when a plaintext was presented. */
  function UserRules(
    name: string, email: string, password: Password,
    emailRX: string -> bool, nfkc: string -> string, isFormat: char -> bool): seq<Validator.Rule>
  {
    [ Validator.Rule(name != "", "name", "must be provided"),
      Validator.Rule(|name| <= 30, "name", "must not be more than 40 bytes long") ]
    + EmailRules(email, emailRX)
    + (if password.plaintext.Some? then PasswordRules(password.plaintext.value, nfkc, isFormat) else [])
  }

  /** ValidateUser; `panicked` reports the panic on a user without a password hash, which
      happens after the checks have been recorded. */
  method ValidateUser(
    v: Validator.Validator, user: User,
    emailRX: string -> bool, nfkc: string -> string, isFormat: char -> bool)
    returns (panicked: bool)
    modifies v
    ensures v.errors == Validator.ApplyRules(old(v.errors),
              UserRules(user.name, user.email, user.password, emailRX, nfkc, isFormat))
    ensures panicked <==> user.password.hash.None?
  {
    ghost var e0 := v.errors;
    ghost var nameRules := [ Validator.Rule(user.name != "", "name", "must be provided"),
                             Validator.Rule(|user.name| <= 30, "name", "must not be more than 40 bytes long") ];
    v.Check(user.name != "", "name", "must be provided");
    Validator.ApplyRulesSnoc(e0, [], nameRules[0]);
    v.Check(|user.name| <= 30, "name", "must not be more than 40 bytes long");
    Validator.ApplyRulesSnoc(e0, [nameRules[0]], nameRules[1]);
    assert [nameRules[0]] + [nameRules[1]] == nameRules;
    ValidateEmail(v, user.email, emailRX);
    Validator.ApplyRulesAppend(e0, nameRules, EmailRules(user.email, emailRX));
    ghost var head := nameRules + EmailRules(user.email, emailRX);
    if user.password.plaintext.Some? {
      ValidatePasswordPlaintext(v, user.password.plaintext.value, nfkc, isFormat);
      Validator.ApplyRulesAppend(e0, head, PasswordRules(user.password.plaintext.value, nfkc, isFormat));
    } else {
      assert head + [] == head;
    }
    panicked := user.password.hash.None?;
  }

  /** A user passes exactly when the name is present and at most 30 runes, the email is
      present and matches, and a presented password passes its own checks. */
  lemma ValidUser(
    name: string, email: string, password: Password,
    emailRX: string -> bool, nfkc: string -> string, isFormat: char -> bool)
    ensures Validator.ApplyRules(map[], UserRules(name, email, password, emailRX, nfkc, isFormat)) == map[] <==>
              name != "" && |name| <= 30 && email != "" && emailRX(email)
              && (password.plaintext.Some? ==>
                    var pw := password.plaintext.value;
                    nfkc(pw) != "" && PrintableRunes(nfkc(pw), isFormat) && 8 <= |pw| <= 72)
  {
    var rules := UserRules(name, email, password, emailRX, nfkc, isFormat);
    Validator.ApplyRulesValid(rules);
    if password.plaintext.Some? {
      var pw := password.plaintext.value;
      var tail := PasswordRules(pw, nfkc, isFormat);
      assert rules[4..] == tail;
      assert (forall i :: 0 <= i < |rules| ==> rules[i].ok) <==>
               rules[0].ok && rules[1].ok && rules[2].ok && rules[3].ok
               && tail[0].ok && tail[1].ok && tail[2].ok && tail[3].ok by {
        assert forall i :: 4 <= i < |rules| ==> rules[i] == tail[i - 4];
      }
    } else {
      assert (forall i :: 0 <= i < |rules| ==> rules[i].ok) <==>
               rules[0].ok && rules[1].ok && rules[2].ok && rules[3].ok;
    }
  }

  /** The users_email_key constraint: no two rows share an email. */
  predicate EmailsUnique(rows: map<Uuid, UserRow>) {
    forall a, b :: a in rows && b in rows && rows[a].email == rows[b].email ==> a == b
  }

  /** Does some row other than `id` have this email? */
  predicate EmailTaken(rows: map<Uuid, UserRow>, email: string, id: Uuid) {
    exists other :: other in rows && other != id && rows[other].email == email
  }

  datatype UserOutcome = UserOutcome(rows: map<Uuid, UserRow>, err: Option<Error>)

  /** Insert: `newUuid` is the value gen_random_uuid produced. A taken uuid violates the
      primary key; a taken email is ErrDuplicateEmail; the version starts at 1. */
  function InsertSpec(rows: map<Uuid, UserRow>, newUuid: Uuid, row: UserRow): UserOutcome {
    if newUuid in rows then UserOutcome(rows, Some(Pq(UniqueViolation)))
    else if EmailTaken(rows, row.email, newUuid) then UserOutcome(rows, Some(DuplicateEmail))
    else UserOutcome(rows[newUuid := row.(version := 1)], None)
  }

  /** Update: the row must have the uuid and the version the struct carries, otherwise
      ErrEditConflict; a new email already held by another user is ErrDuplicateEmail. */
  function UpdateSpec(rows: map<Uuid, UserRow>, id: Uuid, row: UserRow): UserOutcome {
    if id !in rows || rows[id].version != row.version then UserOutcome(rows, Some(EditConflict))
    else if EmailTaken(rows, row.email, id) then UserOutcome(rows, Some(DuplicateEmail))
    else UserOutcome(rows[id := row.(version := row.version + 1)], None)
  }

  /** The users table. */
  class UserModel {
    var rows: map<Uuid, UserRow>

    constructor ()
      ensures rows == map[]
    {
      rows := map[];
    }

    /** Insert writes the generated uuid and the version back into the struct. */
    method Insert(user: User, newUuid: Uuid) returns (err: Option<Error>)
      modifies this, user
      ensures var o := InsertSpec(old(rows), newUuid, old(user.Row(user.version)));
        rows == o.rows && err == o.err
      ensures err.None? ==> user.uuid == newUuid && user.version == 1
      ensures err.Some? ==> user.uuid == old(user.uuid) && user.version == old(user.version)
      ensures user.name == old(user.name) && user.email == old(user.email)
      ensures user.password == old(user.password) && user.activated == old(user.activated)
    {
      var row := user.Row(user.version);
      var o := InsertSpec(rows, newUuid, row);
      rows, err := o.rows, o.err;
      if err.None? {
        user.uuid, user.version := newUuid, 1;
      }
    }

    /** GetByEmail: the row with that email, or ErrRecordNotFound. */
    method GetByEmail(email: string) returns (r: Result<(Uuid, UserRow)>)
      ensures r.Ok? <==> exists id :: id in rows && rows[id].email == email
      ensures r.Ok? ==> r.value.0 in rows && rows[r.value.0] == r.value.1 && r.value.1.email == email
      ensures r.Err? ==> r.error == RecordNotFound
      ensures EmailsUnique(rows) ==>
                forall id :: id in rows && rows[id].email == email ==> r == Ok((id, rows[id]))
    {
      var ids := set id | id in rows && rows[id].email == email;
      if ids == {} {
        assert forall id :: id in rows ==> rows[id].email != email by {
          forall id | id in rows ensures rows[id].email != email {
            assert id !in ids;
          }
        }
        return Err(RecordNotFound);
      }
      var id :| id in ids;
      r := Ok((id, rows[id]));
    }

    /** Update writes the new version back into the struct. */
    method Update(user: User) returns (err: Option<Error>)
      modifies this, user
      ensures var o := UpdateSpec(old(rows), old(user.uuid), old(user.Row(user.version)));
        rows == o.rows && err == o.err
      ensures user.version == (if err.None? then old(user.version) + 1 else old(user.version))
      ensures user.uuid == old(user.uuid) && user.name == old(user.name) && user.email == old(user.email)
      ensures user.password == old(user.password) && user.activated == old(user.activated)
    {
      var o := UpdateSpec(rows, user.uuid, user.Row(user.version));
      rows, err := o.rows, o.err;
      if err.None? {
        user.version := user.version + 1;
      }
    }

    /** GetForToken: the user a live token of this scope and plaintext belongs to. */
    method GetForToken(tokens: Tokens.TokenModel, scope: string, plaintext: string, now: Time,
                       sha256: string -> Tokens.Digest)
      returns (r: Result<(Uuid, UserRow)>)
      ensures r.Ok? <==> exists t :: t in tokens.rows && Tokens.Live(t, sha256(plaintext), scope, now)
                                       && t.userUuid in rows
      ensures r.Ok? ==> r.value.0 in rows && rows[r.value.0] == r.value.1
                        && exists t :: t in tokens.rows && Tokens.Live(t, sha256(plaintext), scope, now)
                                       && t.userUuid == r.value.0
      ensures r.Err? ==> r.error == RecordNotFound
    {
      var hash := sha256(plaintext);
      var joined := set t | t in tokens.rows && Tokens.Live(t, hash, scope, now) && t.userUuid in rows;
      if joined == {} {
        assert forall t :: t in tokens.rows && Tokens.Live(t, hash, scope, now) ==> t.userUuid !in rows by {
          forall t | t in tokens.rows && Tokens.Live(t, hash, scope, now) ensures t.userUuid !in rows {
            assert t !in joined;
          }
        }
        return Err(RecordNotFound);
      }
      var t :| t in joined;
      r := Ok((t.userUuid, rows[t.userUuid]));
    }
  }

  /** Insert and Update keep emails unique, whatever they return. */
  lemma WritesKeepEmailsUnique(rows: map<Uuid, UserRow>, id: Uuid, row: UserRow)
    requires EmailsUnique(rows)
    ensures EmailsUnique(InsertSpec(rows, id, row).rows)
    ensures EmailsUnique(UpdateSpec(rows, id, row).rows)
  {
    var o := InsertSpec(rows, id, row);
    if o.err.None? {
      assert forall b :: b in rows && b != id ==> rows[b].email != row.email;
    }
    var u := UpdateSpec(rows, id, row);
    if u.err.None? {
      assert forall b :: b in rows && b != id ==> rows[b].email != row.email;
    }
  }

  /** Update succeeds exactly when the uuid exists at the given version and no other user
      has the email; the row then holds the new fields at the next version and every other
      row is unchanged. */
  lemma UpdateThenGet(rows: map<Uuid, UserRow>, id: Uuid, row: UserRow)
    ensures var o := UpdateSpec(rows, id, row);
      (o.err.None? <==> id in rows && rows[id].version == row.version && !EmailTaken(rows, row.email, id))
      && (o.err.None? ==> id in o.rows && o.rows[id] == row.(version := rows[id].version + 1))
      && (forall other :: other in rows && other != id ==> other in o.rows && o.rows[other] == rows[other])
      && o.rows.Keys == rows.Keys
  {
  }

  /** A stale version is an edit conflict and changes nothing, even when the email is also
      taken. */
  lemma StaleUpdateConflicts(rows: map<Uuid, UserRow>, id: Uuid, row: UserRow)
    requires id in rows && rows[id].version != row.version
    ensures UpdateSpec(rows, id, row) == UserOutcome(rows, Some(EditConflict))
  {
  }

  /** A successful Insert makes the new user findable by its email. */
  lemma InsertThenGetByEmail(rows: map<Uuid, UserRow>, newUuid: Uuid, row: UserRow)
    requires EmailsUnique(rows)
    ensures var o := InsertSpec(rows, newUuid, row);
      o.err.None? ==> EmailsUnique(o.rows) && newUuid in o.rows && o.rows[newUuid].email == row.email
                      && forall id :: id in o.rows && o.rows[id].email == row.email ==> id == newUuid
  {
    WritesKeepEmailsUnique(rows, newUuid, row);
  }
}
