/** TokenModel: the tokens table keeps, for every issued token, the SHA-256 hash of its
    plaintext with the user, the login session, the expiry and the scope. The plaintext
    itself is never stored. */
module Tokens {
  import opened Errors
  import Store
  import Validator
  import Text

  type Uuid = Store.Uuid
  type Time = Store.Time

  /** A SHA-256 digest; the hash function itself is a parameter. */
  type Digest = seq<bv8>

  const ScopeActivation: string := "activation"
  const ScopeAuthentication: string := "authentication"
  const ScopeRefresh: string := "refresh"
  const ScopePasswordReset: string := "password-reset"

  /** The Token struct. */
  datatype Token = Token(
    plaintext: string, hash: Digest, userUuid: Uuid, sessionUuid: Uuid, expiry: Time, scope: string)

  /** A row of the tokens table. */
  datatype TokenRow = TokenRow(hash: Digest, userUuid: Uuid, sessionUuid: Uuid, expiry: Time, scope: string)

  function RowOf(t: Token): TokenRow {
    TokenRow(t.hash, t.userUuid, t.sessionUuid, t.expiry, t.scope)
  }

  /** generateToken: `plaintext` is what rand.Text returned, `now` the clock reading and
      `sha256` the hash function. */
  function GenerateToken(
    user: Uuid, session: Uuid, ttl: int, scope: string,
    plaintext: string, now: Time, sha256: string -> Digest): Token
  {
    Token(plaintext, sha256(plaintext), user, session, now + ttl, scope)
  }

  /** The Base32 alphabet of rand.Text: A-Z and 2-7. */
  predicate IsBase32(c: char) {
    ('A' <= c <= 'Z') || ('2' <= c <= '7')
  }

  /** The checks of ValidateTokenPlaintext, in order. */
  function Rules(plaintext: string): seq<Validator.Rule> {
    [ Validator.Rule(plaintext != "", "token", "must be provided"),
      Validator.Rule(Text.Utf8Len(plaintext) == 26, "token", "must be 26 bytes long") ]
  }

  method ValidateTokenPlaintext(v: Validator.Validator, plaintext: string)
    modifies v
    ensures v.errors == Validator.ApplyRules(old(v.errors), Rules(plaintext))
  {
    ghost var e0, rules := v.errors, Rules(plaintext);
    v.Check(plaintext != "", "token", "must be provided");
    Validator.ApplyRulesSnoc(e0, [], rules[0]);
    v.Check(Text.Utf8Len(plaintext) == 26, "token", "must be 26 bytes long");
    Validator.ApplyRulesSnoc(e0, [rules[0]], rules[1]);
    assert [rules[0]] + [rules[1]] == rules;
  }

  /** A plaintext passes exactly when it is 26 bytes long. */
  lemma ValidTokenPlaintext(plaintext: string)
    ensures Validator.ApplyRules(map[], Rules(plaintext)) == map[] <==> Text.Utf8Len(plaintext) == 26
  {
    Validator.ApplyRulesValid(Rules(plaintext));
  }

  /** An empty plaintext is reported as missing, not as having the wrong length. */
  lemma EmptyTokenMessage()
    ensures var errors := Validator.ApplyRules(map[], Rules(""));
      "token" in errors && errors["token"] == "must be provided"
  {
    var rules := Rules("");
    assert !rules[0].ok && rules[0].key == "token";
    Validator.ApplyRulesEntry(map[], rules, "token");
  }

  /** What rand.Text produces, 26 Base32 characters, passes the validation. */
  lemma {:induction false} GeneratedPlaintextValid(plaintext: string)
    requires |plaintext| == 26
    requires forall i :: 0 <= i < |plaintext| ==> IsBase32(plaintext[i])
    ensures Validator.ApplyRules(map[], Rules(plaintext)) == map[]
  {
    Text.Utf8LenAscii(plaintext);
    ValidTokenPlaintext(plaintext);
  }

  /** The token the lookup finds: this hash, this scope, not yet expired. */
  predicate Live(r: TokenRow, hash: Digest, scope: string, now: Time) {
    r.hash == hash && r.scope == scope && r.expiry > now
  }

  /** The rows Delete leaves. */
  function DeleteSpec(rows: set<TokenRow>, hash: Digest, scope: string): set<TokenRow> {
    set r | r in rows && !(r.hash == hash && r.scope == scope)
  }

  /** The rows DeleteAllForUser leaves. */
  function DeleteAllForUserSpec(rows: set<TokenRow>, scope: string, user: Uuid): set<TokenRow> {
    set r | r in rows && !(r.scope == scope && r.userUuid == user)
  }

  /** The rows DeleteAllForUserSession leaves. */
  function DeleteAllForUserSessionSpec(rows: set<TokenRow>, user: Uuid, session: Uuid): set<TokenRow> {
    set r | r in rows && !(r.userUuid == user && r.sessionUuid == session)
  }

  /** The tokens table, a set of rows. */
  class TokenModel {
    var rows: set<TokenRow>

    constructor ()
      ensures rows == {}
    {
      rows := {};
    }

    /** New generates a token and inserts it. */
    method New(
      user: Uuid, session: Uuid, ttl: int, scope: string,
      plaintext: string, now: Time, sha256: string -> Digest)
      returns (token: Token, err: Option<Error>)
      modifies this
      ensures token == GenerateToken(user, session, ttl, scope, plaintext, now, sha256)
      ensures rows == old(rows) + {RowOf(token)} && err.None?
    {
      token := GenerateToken(user, session, ttl, scope, plaintext, now, sha256);
      err := Insert(token);
    }

    method Insert(token: Token) returns (err: Option<Error>)
      modifies this
      ensures rows == old(rows) + {RowOf(token)} && err.None?
    {
      rows := rows + {RowOf(token)};
      return None;
    }

    /** Get finds a live token with the plaintext's hash and the scope; the plaintext is not
        stored, so the token comes back without it. */
    method Get(plaintext: string, scope: string, now: Time, sha256: string -> Digest)
      returns (r: Result<Token>)
      ensures r.Ok? <==> exists t :: t in rows && Live(t, sha256(plaintext), scope, now)
      ensures r.Ok? ==> r.value.plaintext == "" && RowOf(r.value) in rows
                        && Live(RowOf(r.value), sha256(plaintext), scope, now)
      ensures r.Err? ==> r.error == RecordNotFound
    {
      var hash := sha256(plaintext);
      var found := set t | t in rows && Live(t, hash, scope, now);
      if found == {} {
        assert forall t :: t in rows ==> !Live(t, hash, scope, now) by {
          forall t | t in rows ensures !Live(t, hash, scope, now) {
            assert t !in found;
          }
        }
        return Err(RecordNotFound);
      }
      var t :| t in found;
      r := Ok(Token("", t.hash, t.userUuid, t.sessionUuid, t.expiry, t.scope));
      assert RowOf(r.value) == t;
    }

    method Delete(plaintext: string, scope: string, sha256: string -> Digest) returns (err: Option<Error>)
      modifies this
      ensures rows == DeleteSpec(old(rows), sha256(plaintext), scope) && err.None?
    {
      rows := DeleteSpec(rows, sha256(plaintext), scope);
      return None;
    }

    method DeleteAllForUser(scope: string, user: Uuid) returns (err: Option<Error>)
      modifies this
      ensures rows == DeleteAllForUserSpec(old(rows), scope, user) && err.None?
    {
      rows := DeleteAllForUserSpec(rows, scope, user);
      return None;
    }

    method DeleteAllForUserSession(user: Uuid, session: Uuid) returns (err: Option<Error>)
      modifies this
      ensures rows == DeleteAllForUserSessionSpec(old(rows), user, session) && err.None?
    {
      rows := DeleteAllForUserSessionSpec(rows, user, session);
      return None;
    }
  }

  /** A new token is found by its plaintext and scope until its time to live runs out, and
      from then on the lookup no longer returns it. */
  lemma NewThenGet(
    rows: set<TokenRow>, user: Uuid, session: Uuid, ttl: int, scope: string,
    plaintext: string, issued: Time, now: Time, sha256: string -> Digest)
    ensures var t := GenerateToken(user, session, ttl, scope, plaintext, issued, sha256);
      (now < issued + ttl ==> Live(RowOf(t), sha256(plaintext), scope, now))
      && (now >= issued + ttl ==> !Live(RowOf(t), sha256(plaintext), scope, now))
  {
  }

  /** After Delete nothing with that hash and scope is found at any time, and every row with
      another hash or scope is still there. */
  lemma DeleteThenGet(rows: set<TokenRow>, hash: Digest, scope: string)
    ensures forall t, now :: t in DeleteSpec(rows, hash, scope) ==> !Live(t, hash, scope, now)
    ensures forall t :: t in rows && (t.hash != hash || t.scope != scope) ==> t in DeleteSpec(rows, hash, scope)
  {
  }

  /** DeleteAllForUser removes the user's tokens of one scope only: the user's other scopes
      and every other user's tokens stay. */
  lemma DeleteAllForUserScope(rows: set<TokenRow>, scope: string, user: Uuid)
    ensures forall t :: t in DeleteAllForUserSpec(rows, scope, user) ==> t in rows
    ensures forall t :: t in rows ==> (t in DeleteAllForUserSpec(rows, scope, user) <==> t.scope != scope || t.userUuid != user)
  {
  }

  /** DeleteAllForUserSession ends a login session: no token of that user and session is
      found afterwards, whatever its scope, and other sessions keep theirs. */
  lemma DeleteAllForUserSessionAllScopes(rows: set<TokenRow>, user: Uuid, session: Uuid)
    ensures forall t, hash, scope, now ::
              t in DeleteAllForUserSessionSpec(rows, user, session) && Live(t, hash, scope, now) ==>
                t.userUuid != user || t.sessionUuid != session
    ensures forall t :: t in rows && t.sessionUuid != session ==> t in DeleteAllForUserSessionSpec(rows, user, session)
  {
  }
}
