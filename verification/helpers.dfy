/** The query-string readers of the API handlers: readString and readInt, with the
    strconv.Atoi they rely on. */
module Helpers {
  import opened Errors
  import Validator
  import Decimal

  /** url.Values: every key maps to the values given for it, in order. */
  type Values = map<string, seq<string>>

  /** Values.Get: the first value for the key, or "" when there is none. */
  function Get(qs: Values, key: string): (s: string)
    ensures key !in qs || qs[key] == [] ==> s == ""
    ensures key in qs && qs[key] != [] ==> s == qs[key][0]
  {
    if key in qs && |qs[key]| > 0 then qs[key][0] else ""
  }

  /** The range of Go's int on the 64-bit platforms the server runs on. */
  const MinInt: int := -0x8000_0000_0000_0000
  const MaxInt: int := 0x7FFF_FFFF_FFFF_FFFF

  /** strconv.Atoi: an optional sign followed by one or more decimal digits, whose value
      fits in an int; anything else (empty text, a stray character, underscores, an
      overflow) is an error. */
  function Atoi(s: string): (r: Option<int>)
    ensures r.Some? ==> MinInt <= r.value <= MaxInt
  {
    if s == [] then None
    else
      var signed := s[0] == '-' || s[0] == '+';
      var digits := if signed then s[1..] else s;
      if digits == [] || !Decimal.AllDigits(digits) then None
      else
        var value: int := Decimal.Value(digits);
        var n := if s[0] == '-' then -value else value;
        if MinInt <= n <= MaxInt then Some(n) else None
  }

  /** strconv.Itoa, the formatting Atoi inverts. */
  function Itoa(n: int): string {
    if n < 0 then "-" + Decimal.Digits(-n) else Decimal.Digits(n)
  }

  /** Atoi reads back every int Itoa writes. */
  lemma AtoiItoa(n: int)
    requires MinInt <= n <= MaxInt
    ensures Atoi(Itoa(n)) == Some(n)
  {
    var s := Itoa(n);
    if n < 0 {
      var d := Decimal.Digits(-n);
      Decimal.ValueDigits(-n);
      assert s[0] == '-' && s[1..] == d;
    } else {
      var d := Decimal.Digits(n);
      Decimal.ValueDigits(n);
      assert s == d && Decimal.IsDigit(s[0]);
    }
  }

  /** Atoi also accepts text Itoa never writes: a plus sign, leading zeros, and a minus
      sign on zero. */
  lemma AtoiLenient()
    ensures Atoi("+007") == Some(7) && Atoi("-0") == Some(0)
  {
    assert Decimal.Value("007") == 7 by {
      assert "007"[..2] == "00" && "00"[..1] == "0" && "0"[..0] == "";
    }
    assert Decimal.Value("0") == 0 by {
      assert "0"[..0] == "";
    }
    assert "+007"[1..] == "007" && "-0"[1..] == "0";
  }

  /** Atoi fails on anything with a character that is neither a digit nor a leading sign. */
  lemma AtoiRejectsNonDigit(s: string, i: nat)
    requires i < |s| && !Decimal.IsDigit(s[i])
    requires i > 0 || (s[0] != '-' && s[0] != '+')
    ensures Atoi(s) == None
  {
    if s[0] == '-' || s[0] == '+' {
      assert s[1..][i - 1] == s[i];
    }
  }

  /** readString: the query value for the key, or the default when it is missing or
      empty. */
  function ReadString(qs: Values, key: string, defaultValue: string): (r: string)
    ensures r == "" ==> defaultValue == ""
    ensures r != defaultValue ==> key in qs && qs[key] != [] && r == qs[key][0]
    ensures key in qs && qs[key] != [] && qs[key][0] != "" ==> r == qs[key][0]
  {
    var s := Get(qs, key);
    if s == "" then defaultValue else s
  }

  /** readInt: the query value for the key as an int. A missing or empty value gives the
      default with no error; text Atoi rejects gives the default and records "must be an
      integer" under the key (when the key has no message yet). */
  method ReadInt(qs: Values, key: string, defaultValue: int, v: Validator.Validator) returns (i: int)
    modifies v
    ensures Get(qs, key) == "" ==> i == defaultValue && v.errors == old(v.errors)
    ensures Get(qs, key) != "" && Atoi(Get(qs, key)).None? ==>
              i == defaultValue && v.errors == Validator.Checked(old(v.errors), Validator.Rule(false, key, "must be an integer"))
    ensures Atoi(Get(qs, key)).Some? ==> i == Atoi(Get(qs, key)).value && v.errors == old(v.errors)
  {
    var s := Get(qs, key);
    if s == "" {
      return defaultValue;
    }
    var n := Atoi(s);
    if n.None? {
      v.AddError(key, "must be an integer");
      return defaultValue;
    }
    return n.value;
  }
}
