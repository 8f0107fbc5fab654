/** InputDate: a nullable calendar date exchanged in JSON as a quoted "YYYY-MM-DD" string.
    Dates are kept as their civil year, month and day; a parsed date is midnight UTC. */
module InputDates {
  import opened Errors
  import opened Decimal

  datatype Date = Date(year: int, month: nat, day: nat)

  /** The zero time.Time: January 1 of year 1. */
  const ZeroDate: Date := Date(1, 1, 1)

  /** sql.NullTime: a time and whether it is present. */
  datatype InputDate = InputDate(time: Date, valid: bool)

  /** The value UnmarshalJSON stores for JSON null and for "". */
  const Null: InputDate := InputDate(ZeroDate, false)

  predicate IsLeap(year: int) {
    year % 4 == 0 && (year % 100 != 0 || year % 400 == 0)
  }

  function DaysIn(month: nat, year: int): nat {
    if month == 2 then (if IsLeap(year) then 29 else 28)
    else if month == 4 || month == 6 || month == 9 || month == 11 then 30
    else 31
  }

  /** A date the four-digit year layout can express and the calendar has. */
  predicate IsCalendarDate(d: Date) {
    0 <= d.year < 10000 && 1 <= d.month <= 12 && 1 <= d.day <= DaysIn(d.month, d.year)
  }

  /** The layouts the parser knows; "2006-01-02" is the only one in use. */
  datatype Layout = YearMonthDay

  /** acceptedFormats. */
  const AcceptedFormats: seq<Layout> := [YearMonthDay]

  /** time.Parse with the layout "2006-01-02": four digits, '-', two digits naming a month,
      '-', two digits naming a day of that month, and nothing more. */
  function Parse(layout: Layout, value: string): (r: Option<Date>)
    ensures r.Some? ==> IsCalendarDate(r.value)
  {
    if |value| == 10 && value[4] == '-' && value[7] == '-'
       && AllDigits(value[..4]) && AllDigits(value[5..7]) && AllDigits(value[8..])
    then
      FixedDigitsValue(value[..4]);
      var d := Date(Value(value[..4]), Value(value[5..7]), Value(value[8..]));
      if 1 <= d.month <= 12 && 1 <= d.day <= DaysIn(d.month, d.year) then Some(d) else None
    else None
  }

  /** Time.Format with the layout "2006-01-02". The year is zero-padded to four digits and
      signed when negative; month and day to two. */
  function Format(d: Date): string {
    (if d.year < 0 then "-" + Pad(-d.year, 4) else Pad(d.year, 4))
      + "-" + Pad(d.month, 2) + "-" + Pad(d.day, 2)
  }

  /** strconv.Unquote for the literals that need no escape decoding: a double-quoted
      string without backslash, quote or newline; a back-quoted raw string, carriage returns
      dropped; a single-quoted single character. */
  function Unquote(s: string): (r: Option<string>)
    ensures r.Some? ==> |s| >= 2
  {
    if |s| < 2 || s[0] != s[|s| - 1] then None
    else
      var body := s[1..|s| - 1];
      if s[0] == '"' then
        if forall i :: 0 <= i < |body| ==> body[i] != '"' && body[i] != '\\' && body[i] != '\n'
        then Some(body) else None
      else if s[0] == '`' then
        if forall i :: 0 <= i < |body| ==> body[i] != '`' then Some(DropCR(body)) else None
      else if s[0] == '\'' then
        if |body| == 1 && body[0] != '\'' && body[0] != '\\' && body[0] != '\n'
        then Some(body) else None
      else None
  }

  function DropCR(s: string): string {
    if s == [] then [] else (if s[0] == '\r' then [] else [s[0]]) + DropCR(s[1..])
  }

  /** strconv.Quote for text of printable ASCII without quote or backslash. */
  function Quote(s: string): string {
    "\"" + s + "\""
  }

  predicate Plain(s: string) {
    forall i :: 0 <= i < |s| ==> s[i] != '"' && s[i] != '\\' && s[i] != '\n'
  }

  /** What UnmarshalJSON decodes `json` to, or the error it returns. */
  function Decode(json: string): Result<InputDate> {
    if json == "null" then Ok(Null)
    else match Unquote(json)
      case None => Err(InvalidTimeFormat)
      case Some(s) =>
        if s == "" then Ok(Null)
        else match Parse(YearMonthDay, s)
          case None => Err(InvalidTimeFormat)
          case Some(d) => Ok(InputDate(d, true))
  }

  /** UnmarshalJSON: `it` is the receiver before the call and `it'` after it; on error the
      receiver is left as it was. */
  method UnmarshalJSON(it: InputDate, json: string) returns (it': InputDate, err: Option<Error>)
    ensures Decode(json).Ok? ==> err == None && it' == Decode(json).value
    ensures Decode(json).Err? ==> err == Some(InvalidTimeFormat) && it' == it
  {
    if json == "null" {
      return Null, None;
    }
    var unquoted := Unquote(json);
    if unquoted.None? {
      return it, Some(InvalidTimeFormat);
    }
    if unquoted.value == "" {
      return Null, None;
    }
    for i := 0 to |AcceptedFormats|
      invariant forall j :: 0 <= j < i ==> Parse(AcceptedFormats[j], unquoted.value).None?
    {
      var parsed := Parse(AcceptedFormats[i], unquoted.value);
      if parsed.Some? {
        return InputDate(parsed.value, true), None;
      }
    }
    assert AcceptedFormats[0] == YearMonthDay;
    return it, Some(InvalidTimeFormat);
  }

  /** MarshalJSON as written: an absent date becomes empty output, a present one its quoted
      text. */
  function MarshalJSON(it: InputDate): (json: string)
    ensures !it.valid ==> json == ""
    ensures it.valid ==> json == Quote(String(it))
  {
    if !it.valid then "" else Quote(Format(it.time))
  }

  /** MarshalJSON with an absent date written as JSON null, the value UnmarshalJSON maps
      back to an absent date. */
  function MarshalJSONNull(it: InputDate): (json: string)
    ensures !it.valid ==> json == "null"
    ensures it.valid ==> json == MarshalJSON(it)
  {
    if !it.valid then "null" else Quote(Format(it.time))
  }

  /** String: "" for an absent date, YYYY-MM-DD otherwise. */
  function String(it: InputDate): (s: string)
    ensures s == "" <==> !it.valid
  {
    if it.valid then Format(it.time) else ""
  }

  /** The text of a present calendar date parses back to the date. */
  lemma StringParses(it: InputDate)
    requires it.valid && IsCalendarDate(it.time)
    ensures Parse(YearMonthDay, String(it)) == Some(it.time)
  {
    FormatParses(it.time);
  }

  /** GetTime: the stored time, present or not. */
  function GetTime(it: InputDate): (t: Date)
    ensures it.valid ==> t == it.time
    ensures it == Null ==> t == ZeroDate
  {
    it.time
  }

  /** A quoted plain text unquotes to itself. */
  lemma UnquoteQuote(s: string)
    requires Plain(s)
    ensures Unquote(Quote(s)) == Some(s)
  {
    var q := Quote(s);
    assert q[1..|q| - 1] == s;
  }

  /** The formatted text of a calendar date parses back to the date. */
  lemma FormatParses(d: Date)
    requires IsCalendarDate(d)
    ensures |Format(d)| == 10 && Parse(YearMonthDay, Format(d)) == Some(d)
  {
    PadFits(d.year, 4);
    PadFits(d.month, 2);
    PadFits(d.day, 2);
    var y, m, dd := Pad(d.year, 4), Pad(d.month, 2), Pad(d.day, 2);
    var s := Format(d);
    assert s == y + "-" + m + "-" + dd;
    assert s[..4] == y && s[5..7] == m && s[8..] == dd;
  }

  /** A successful parse reads a text that is exactly the formatted date. */
  lemma ParseFormats(s: string, d: Date)
    requires Parse(YearMonthDay, s) == Some(d)
    ensures s == Format(d)
  {
    FixedDigitsValue(s[..4]);
    FixedDigitsValue(s[5..7]);
    FixedDigitsValue(s[8..]);
    assert s == s[..4] + "-" + s[5..7] + "-" + s[8..];
  }

  /** JSON null and the quoted empty string decode to an absent date without error. */
  lemma DecodeAbsent()
    ensures Decode("null") == Ok(Null)
    ensures Decode(Quote("")) == Ok(Null)
  {
    UnquoteQuote("");
  }

  /** Anything other than null that is not a string literal is a format error. */
  lemma DecodeNotString(json: string)
    requires json != "null" && Unquote(json).None?
    ensures Decode(json) == Err(InvalidTimeFormat)
  {
  }

  /** A non-empty quoted text decodes to a present date exactly when it is the text of a
      calendar date, and to that date; every other text is a format error. */
  lemma {:induction false} DecodeDate(s: string)
    requires Plain(s) && s != ""
    ensures Decode(Quote(s)).Ok? <==> exists d :: IsCalendarDate(d) && s == Format(d)
    ensures forall d :: Decode(Quote(s)) == Ok(InputDate(d, true)) <==> IsCalendarDate(d) && s == Format(d)
    ensures Decode(Quote(s)).Err? ==> Decode(Quote(s)) == Err(InvalidTimeFormat)
  {
    UnquoteQuote(s);
    assert Quote(s) != "null" by { assert |Quote(s)| >= 2 && Quote(s)[0] == '"'; }
    forall d ensures Decode(Quote(s)) == Ok(InputDate(d, true)) <==> IsCalendarDate(d) && s == Format(d) {
      if IsCalendarDate(d) && s == Format(d) {
        FormatParses(d);
      }
      if Parse(YearMonthDay, s) == Some(d) {
        ParseFormats(s, d);
      }
    }
    if Parse(YearMonthDay, s).Some? {
      var d := Parse(YearMonthDay, s).value;
      ParseFormats(s, d);
    }
  }

  /** Marshalling a present calendar date and unmarshalling the output gives it back. */
  lemma RoundTrip(d: Date)
    requires IsCalendarDate(d)
    ensures Decode(MarshalJSON(InputDate(d, true))) == Ok(InputDate(d, true))
  {
    FormatParses(d);
    DecodeDate(Format(d));
  }

  /** MarshalJSON of an absent date is empty output, which UnmarshalJSON rejects. */
  lemma MarshalAbsentRejected(it: InputDate)
    requires !it.valid
    ensures Decode(MarshalJSON(it)) == Err(InvalidTimeFormat)
  {
  }

  /** With null for an absent date, every value the decoder can produce survives the round
      trip. */
  lemma RoundTripNull(it: InputDate)
    requires it == Null || (it.valid && IsCalendarDate(it.time))
    ensures Decode(MarshalJSONNull(it)) == Ok(it)
  {
    if it.valid {
      RoundTrip(it.time);
    }
  }

  /** Everything the decoder produces is the absent value or a present calendar date. */
  lemma DecodeRange(json: string)
    requires Decode(json).Ok?
    ensures Decode(json).value == Null || (Decode(json).value.valid && IsCalendarDate(Decode(json).value.time))
  {
  }
}
