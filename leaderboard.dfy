/**
 * The leaderboard endpoint's decision: the request method, the storage
 * configuration, the `limit` query parameter turned into a row count in
 * 1 .. 20, and the query string sent to the storage service.
 */
module Leaderboard {
  import opened Wrappers
  import opened JsStrings

  const DEFAULT_LIMIT: int := 10
  const MIN_LIMIT: int := 1
  const MAX_LIMIT: int := 20

  const PLUS: CodeUnit := 0x2B
  const MINUS: CodeUnit := 0x2D
  const ZERO: CodeUnit := 0x30

  predicate IsDigit(c: CodeUnit) {
    0x30 <= c <= 0x39
  }

  /** The longest prefix of decimal digits. */
  function DigitPrefix(s: JsString): (d: JsString)
    ensures |d| <= |s| && d == s[..|d|]
    ensures forall i :: 0 <= i < |d| ==> IsDigit(d[i])
    ensures |d| == |s| || !IsDigit(s[|d|])
  {
    if s == [] || !IsDigit(s[0]) then [] else [s[0]] + DigitPrefix(s[1..])
  }

  /** The number a string of decimal digits denotes, most significant digit first. */
  function DigitsValue(d: JsString): int {
    if d == [] then 0 else DigitsValue(d[..|d| - 1]) * 10 + ((d[|d| - 1] as int) - 0x30)
  }

  /**
   * `Number.parseInt(text, 10)`: skip leading white space, read an optional
   * sign, then the longest run of decimal digits; no digits is `NaN` (`None`).
   * A `-0` result is the integer 0 here, which `||` treats alike.
   */
  function ParseInt(text: JsString): (r: Option<int>)
    ensures Blank(text) ==> r.None?
    ensures TrimStart(text) != [] && IsDigit(TrimStart(text)[0]) ==> r.Some?
  {
    ParseSigned(TrimStart(text))
  }

  /** The optional sign in front of the digits. */
  datatype Sign = NoSign | Plus | Minus

  function SignText(sign: Sign): JsString {
    match sign
    case NoSign => []
    case Plus => [PLUS]
    case Minus => [MINUS]
  }

  /** The sign `s` starts with. */
  function SignOf(s: JsString): (sign: Sign)
    ensures |SignText(sign)| <= |s| && SignText(sign) == s[..|SignText(sign)|]
  {
    if s != [] && s[0] == MINUS then Minus
    else if s != [] && s[0] == PLUS then Plus
    else NoSign
  }

  /** The value read after `sign`: negated after a minus sign. */
  function Signed(sign: Sign, v: int): int {
    if sign == Minus then -v else v
  }

  /** `parseInt` after the white space: a minus sign negates, a plus sign is skipped. */
  function ParseSigned(s: JsString): Option<int> {
    var sign := SignOf(s);
    var magnitude := ParseUnsigned(s[|SignText(sign)|..]);
    if magnitude.None? then None else Some(Signed(sign, magnitude.value))
  }

  /** The leading digits' value, or `NaN` when there are none. */
  function ParseUnsigned(u: JsString): Option<int> {
    var digits := DigitPrefix(u);
    if digits == [] then None else Some(DigitsValue(digits))
  }

  /** The decimal numeral of `n`, as `${n}` writes it. */
  function Decimal(n: nat): (s: JsString)
    ensures s != [] && forall i :: 0 <= i < |s| ==> IsDigit(s[i])
    ensures s[0] != ZERO || n == 0
  {
    if n < 10 then [(0x30 + n) as CodeUnit]
    else Decimal(n / 10) + [(0x30 + n % 10) as CodeUnit]
  }

  /** Reading a numeral back gives the number. */
  lemma {:induction false} DecimalValue(n: nat)
    ensures DigitsValue(Decimal(n)) == n
  {
    if n >= 10 {
      DecimalValue(n / 10);
      var d := Decimal(n);
      assert d[..|d| - 1] == Decimal(n / 10);
    }
  }

  /** The digit prefix of digits followed by a non-digit is those digits. */
  lemma {:induction false} DigitPrefixOf(d: JsString, rest: JsString)
    requires forall i :: 0 <= i < |d| ==> IsDigit(d[i])
    requires rest == [] || !IsDigit(rest[0])
    ensures DigitPrefix(d + rest) == d
  {
    if d != [] {
      DigitPrefixOf(d[1..], rest);
      assert (d + rest)[1..] == d[1..] + rest;
      assert [d[0]] + d[1..] == d;
    } else {
      assert d + rest == rest;
    }
  }

  lemma ParseRegrouped(w: JsString, sign: JsString, d: JsString, rest: JsString)
    ensures ParseInt(w + sign + d + rest) == ParseInt(w + (sign + (d + rest)))
  {
    assert w + sign + d + rest == w + (sign + (d + rest));
  }

  /** Digits followed by a non-digit read as the digits' value. */
  lemma ParseUnsignedDigits(d: JsString, rest: JsString)
    requires d != [] && forall i :: 0 <= i < |d| ==> IsDigit(d[i])
    requires rest == [] || !IsDigit(rest[0])
    ensures ParseUnsigned(d + rest) == Some(DigitsValue(d))
  {
    DigitPrefixOf(d, rest);
  }

  /** Text starting with a digit, after a sign: the sign is recognised and the text read after it. */
  lemma SignBeforeDigit(sign: Sign, t: JsString)
    requires t != [] && IsDigit(t[0])
    ensures var s := SignText(sign) + t;
      s != [] && !IsWhiteSpace(s[0]) && SignOf(s) == sign && s[|SignText(sign)|..] == t
  {
    var s := SignText(sign) + t;
    assert s[|SignText(sign)|] == t[0];
  }

  /** A sign in front of text that reads as `v`: `v`, negated after a minus sign. */
  lemma ParseSignedValue(sign: Sign, t: JsString, v: int)
    requires t != [] && IsDigit(t[0]) && ParseUnsigned(t) == Some(v)
    ensures var s := SignText(sign) + t;
      s != [] && !IsWhiteSpace(s[0]) && ParseSigned(s) == Some(Signed(sign, v))
  {
    SignBeforeDigit(sign, t);
  }

  /** `parseInt` skips a blank prefix and reads on from the first other code unit. */
  lemma ParseAfterBlank(w: JsString, s: JsString)
    requires Blank(w) && s != [] && !IsWhiteSpace(s[0])
    ensures ParseInt(w + s) == ParseSigned(s)
  {
    TrimStartAfterBlank(w, s);
  }

  /**
   * `parseInt` reads a string of digits, after any leading white space and
   * an optional sign, and stops at the first non-digit.
   */
  lemma ParseDigits(w: JsString, sign: Sign, d: JsString, rest: JsString)
    requires Blank(w)
    requires d != [] && forall i :: 0 <= i < |d| ==> IsDigit(d[i])
    requires rest == [] || !IsDigit(rest[0])
    ensures ParseInt(w + SignText(sign) + d + rest) == Some(Signed(sign, DigitsValue(d)))
  {
    DigitsThen(d, rest);
    ParseBlankSigned(w, sign, d + rest, DigitsValue(d));
    ParseRegrouped(w, SignText(sign), d, rest);
  }

  lemma ParseBlankSigned(w: JsString, sign: Sign, t: JsString, v: int)
    requires Blank(w) && t != [] && IsDigit(t[0]) && ParseUnsigned(t) == Some(v)
    ensures ParseInt(w + (SignText(sign) + t)) == Some(Signed(sign, v))
  {
    ParseSignedValue(sign, t, v);
    ParseAfterBlank(w, SignText(sign) + t);
  }

  lemma DigitsThen(d: JsString, rest: JsString)
    requires d != [] && forall i :: 0 <= i < |d| ==> IsDigit(d[i])
    requires rest == [] || !IsDigit(rest[0])
    ensures var t := d + rest; t != [] && IsDigit(t[0]) && ParseUnsigned(t) == Some(DigitsValue(d))
  {
    assert (d + rest)[0] == d[0];
    ParseUnsignedDigits(d, rest);
  }

  /** `parseInt` reads a numeral back: the inverse of `Decimal`. */
  lemma ParseNumeral(w: JsString, sign: Sign, n: nat, rest: JsString)
    requires Blank(w)
    requires rest == [] || !IsDigit(rest[0])
    ensures ParseInt(w + SignText(sign) + Decimal(n) + rest) == Some(Signed(sign, n))
  {
    ParseDigits(w, sign, Decimal(n), rest);
    DecimalValue(n);
  }

  function Min(a: int, b: int): int {
    if a <= b then a else b
  }

  function Max(a: int, b: int): int {
    if a >= b then a else b
  }

  /**
   * `safeLimit`: the parsed `limit` parameter, 10 when it is absent, not a
   * number or 0 (both falsy under `||`), then clamped to 1 .. 20.
   */
  function SafeLimit(limitParam: Option<JsString>): (safeLimit: int)
    ensures MIN_LIMIT <= safeLimit <= MAX_LIMIT
  {
    var parsed := if limitParam.Some? then ParseInt(limitParam.value) else None;
    var limit := if parsed.None? || parsed.value == 0 then DEFAULT_LIMIT else parsed.value;
    Min(Max(limit, MIN_LIMIT), MAX_LIMIT)
  }

  /**
   * The row count, case by case: 10 for no number or 0; 1 for a negative
   * number; the number itself in 1 .. 20; 20 above that.
   */
  lemma SafeLimitCases(limitParam: Option<JsString>)
    ensures var parsed := if limitParam.Some? then ParseInt(limitParam.value) else None;
      && (parsed.None? || parsed.value == 0 ==> SafeLimit(limitParam) == DEFAULT_LIMIT)
      && (parsed.Some? && parsed.value < 0 ==> SafeLimit(limitParam) == MIN_LIMIT)
      && (parsed.Some? && MIN_LIMIT <= parsed.value <= MAX_LIMIT ==> SafeLimit(limitParam) == parsed.value)
      && (parsed.Some? && parsed.value > MAX_LIMIT ==> SafeLimit(limitParam) == MAX_LIMIT)
  {
  }

  /**
   * The row count for a `limit` that is a numeral, after any white space and
   * an optional sign, and before any text that does not start with a digit:
   * "7abc" gives 7, "0" and "-0" give 10, "-3" gives 1, " 50" gives 20.
   */
  lemma NumeralLimit(w: JsString, sign: Sign, n: nat, rest: JsString)
    requires Blank(w)
    requires rest == [] || !IsDigit(rest[0])
    ensures SafeLimit(Some(w + SignText(sign) + Decimal(n) + rest)) ==
      if n == 0 then DEFAULT_LIMIT
      else if sign == Minus then MIN_LIMIT
      else Min(n, MAX_LIMIT)
  {
    ParseNumeral(w, sign, n, rest);
  }

  /** The columns read, then the sort order (all ascending) and the row-count key. */
  const SELECT_PART: JsString := Units("select=display_name,time_seconds,max_pressure_ratio,approvals,created_at")
  const ORDER_PART: JsString := Units("&order=time_seconds.asc,max_pressure_ratio.asc,created_at.asc&limit=")

  /**
   * The query string for a row count: the fixed select and order parts, and
   * after `limit=` a numeral that reads back as the row count.
   */
  function Query(safeLimit: nat): (q: JsString)
    ensures |q| > |SELECT_PART + ORDER_PART|
    ensures q[..|SELECT_PART + ORDER_PART|] == SELECT_PART + ORDER_PART
    ensures ParseInt(q[|SELECT_PART + ORDER_PART|..]) == Some(safeLimit)
  {
    var head := SELECT_PART + ORDER_PART;
    var q := head + Decimal(safeLimit);
    assert q[|head|..] == [] + SignText(NoSign) + Decimal(safeLimit) + [];
    ParseNumeral([], NoSign, safeLimit, []);
    q
  }

  /** What the endpoint does with a request: answer with an error, or fetch with a query. */
  datatype Decision = Refused(status: int, allow: Option<string>, error: string) | Fetch(query: JsString)

  /**
   * The handler up to the storage request: anything but GET is refused with
   * 405 and `Allow: GET`; then a missing storage configuration gives 500;
   * only then is the `limit` parameter read.
   */
  function Handle(httpMethod: string, configured: bool, limitParam: Option<JsString>): (d: Decision)
    ensures httpMethod != "GET" ==> d == Refused(405, Some("GET"), "Method not allowed.")
    ensures httpMethod == "GET" && !configured ==> d == Refused(500, None, "Supabase env not configured.")
    ensures httpMethod == "GET" && configured ==> d.Fetch?
  {
    if httpMethod != "GET" then Refused(405, Some("GET"), "Method not allowed.")
    else if !configured then Refused(500, None, "Supabase env not configured.")
    else Fetch(Query(SafeLimit(limitParam)))
  }

  /** A fetch asks for between 1 and 20 rows, and the row count is the one the parameter gives. */
  lemma FetchAsksForSafeLimit(limitParam: Option<JsString>)
    ensures Handle("GET", true, limitParam) == Fetch(Query(SafeLimit(limitParam)))
    ensures var q := Handle("GET", true, limitParam).query;
      && q[..|SELECT_PART + ORDER_PART|] == SELECT_PART + ORDER_PART
      && ParseInt(q[|SELECT_PART + ORDER_PART|..]) == Some(SafeLimit(limitParam))
      && MIN_LIMIT <= ParseInt(q[|SELECT_PART + ORDER_PART|..]).value <= MAX_LIMIT
  {
  }
}
