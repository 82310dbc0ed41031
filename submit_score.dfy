/**
 * The score-submission endpoint's decision: the request method, the storage
 * configuration, the display-name normalisation and the ordered validation of
 * the submitted numbers, ending in the row that would be inserted.
 *
 * Fields arrive already coerced by `Number(...)`: a finite number is
 * `Some(x)`, and `NaN` or an infinity (what a missing or non-numeric field
 * becomes) is `None`.
 */
module SubmitScore {
  import opened Wrappers
  import opened JsStrings

  const NAME_LIMIT: nat := 20

  function Min(a: int, b: int): int {
    if a <= b then a else b
  }

  /**
   * `normalizeName(name)`: `String(name || "")`, trimmed, each white-space run
   * replaced by one space, cut to 20 code units. A missing or falsy name is
   * `None`.
   */
  function NormalizeName(name: Option<JsString>): (r: JsString)
    ensures |r| <= NAME_LIMIT
  {
    Cut(Collapse(Trim(RawName(name))), NAME_LIMIT)
  }

  /** The name a request carries, `""` when it carries none. */
  function RawName(name: Option<JsString>): JsString {
    if name.Some? then name.value else []
  }

  /** `slice(0, n)`: the first `n` code units, or all of them. */
  function Cut(s: JsString, n: nat): (r: JsString)
    ensures |r| == Min(n, |s|) && r == s[..|r|]
  {
    if |s| <= n then s else s[..n]
  }

  /** Cutting a single-spaced string that starts with a letter keeps both facts, and empties only the empty string. */
  lemma CutShape(s: JsString, n: nat)
    requires n > 0 && SingleSpaced(s) && (s == [] || !IsWhiteSpace(s[0]))
    ensures SingleSpaced(Cut(s, n)) && (Cut(s, n) == [] || !IsWhiteSpace(Cut(s, n)[0]))
    ensures Cut(s, n) == [] <==> s == []
  {
    SingleSpacedPrefix(s, |Cut(s, n)|);
  }

  /**
   * The normalised name never starts with white space, holds no white space
   * but single spaces, and is empty exactly when the name is missing or blank.
   * It may end in a space, when the cut falls just after one.
   */
  lemma NormalizeNameShape(name: Option<JsString>)
    ensures NormalizeName(name) == [] || !IsWhiteSpace(NormalizeName(name)[0])
    ensures SingleSpaced(NormalizeName(name))
    ensures NormalizeName(name) == [] <==> Blank(RawName(name))
  {
    var trimmed := Trim(RawName(name));
    CollapseShape(trimmed);
    TrimBlank(RawName(name));
    CutShape(Collapse(trimmed), NAME_LIMIT);
  }

  /**
   * Normalising keeps the letters of the name in order: they are a prefix of
   * the name's letters, all of them when the collapsed name fits in 20 code
   * units.
   */
  lemma NormalizeNameLetters(name: Option<JsString>)
    ensures Letters(NormalizeName(name)) <= Letters(RawName(name))
    ensures |Collapse(Trim(RawName(name)))| <= NAME_LIMIT ==> Letters(NormalizeName(name)) == Letters(RawName(name))
  {
    var raw := RawName(name);
    var collapsed := Collapse(Trim(raw));
    TrimKeepsLetters(raw);
    CollapseKeepsLetters(Trim(raw));
    LettersOfPrefix(collapsed, |Cut(collapsed, NAME_LIMIT)|);
    assert collapsed[..|collapsed|] == collapsed;
  }

  /**
   * Two words with white space around and between them come out as the two
   * words joined by one space, cut to 20 code units: "  Ada \t Lovelace "
   * gives "Ada Lovelace". A part holding white space of its own (a middle
   * name) is collapsed likewise.
   */
  lemma NormalizeNameJoin(u: JsString, a: JsString, w: JsString, b: JsString, v: JsString)
    requires Blank(u) && Blank(w) && Blank(v) && w != []
    requires a != [] && !IsWhiteSpace(a[0]) && !IsWhiteSpace(a[|a| - 1])
    requires b != [] && !IsWhiteSpace(b[0]) && !IsWhiteSpace(b[|b| - 1])
    ensures NormalizeName(Some(u + a + w + b + v)) == Cut(Collapse(a) + [SPACE] + Collapse(b), NAME_LIMIT)
    ensures NoWhiteSpace(a) && NoWhiteSpace(b) ==> NormalizeName(Some(u + a + w + b + v)) == Cut(a + [SPACE] + b, NAME_LIMIT)
  {
    var x := a + w + b;
    assert u + a + w + b + v == u + (x + v);
    TrimStartAfterBlank(u, x + v);
    TrimEndAt(x + v, |x|);
    assert (x + v)[..|x|] == x;
    CollapseJoin(a, w, b);
    if NoWhiteSpace(a) && NoWhiteSpace(b) {
      CollapseWord(a);
      CollapseWord(b);
    }
  }

  /** `isNumber(value)`: `Number.isFinite`. */
  predicate IsNumber(value: Option<real>) {
    value.Some?
  }

  /** The body fields the endpoint reads, after `Number(...)` coercion of the numbers. */
  datatype Submission = Submission(
    displayName: Option<JsString>,
    approvals: Option<real>,
    timeSeconds: Option<real>,
    maxPressureRatio: Option<real>,
    timeLimitSeconds: Option<real>)

  /** The leaderboard row: the round limit is validated but not stored. */
  datatype Payload = Payload(displayName: JsString, approvals: real, timeSeconds: int, maxPressureRatio: real)

  /**
   * What the endpoint does with a request: answer with an error status (and
   * an `Allow` header for 405), or go on to insert the row.
   */
  datatype Decision = Refused(status: int, allow: Option<string>, error: string) | Insert(payload: Payload)

  /** `Math.round`: the nearest integer, halves rounding up. */
  function Round(x: real): int {
    (x + 0.5).Floor
  }

  /** `Number(x.toFixed(3))` for a non-negative `x`: the nearest thousandth, halves rounding up. */
  function Thousandths(x: real): real {
    (Round(x * 1000.0) as real) / 1000.0
  }

  lemma RoundBounds(x: real)
    ensures x - 0.5 < Round(x) as real <= x + 0.5
  {
  }

  /** The error message of each check, in the order the checks run. */
  const MESSAGES: seq<string> :=
    ["Display name required.", "Invalid approvals.", "Invalid time.", "Invalid pressure.", "Invalid time limit."]

  /**
   * The validation checks of the handler, up to the first 400 reply, given
   * the name `normalizeName` produced for the body.
   */
  function Validate(displayName: JsString, body: Submission): (d: Decision)
    ensures d.Refused? ==> d.status == 400 && d.allow == None && d.error in MESSAGES
  {
    var approvals := body.approvals;
    var timeSeconds := body.timeSeconds;
    var maxPressureRatio := body.maxPressureRatio;
    var timeLimitSeconds := body.timeLimitSeconds;
    if displayName == [] then Refused(400, None, MESSAGES[0])
    else if !IsNumber(approvals) || approvals.value < 1.0 || approvals.value > 100.0 then Refused(400, None, MESSAGES[1])
    else if !IsNumber(timeSeconds) || timeSeconds.value < 0.0 || timeSeconds.value > 600.0 then Refused(400, None, MESSAGES[2])
    else if !IsNumber(maxPressureRatio) || maxPressureRatio.value < 0.0 || maxPressureRatio.value > 2.0 then Refused(400, None, MESSAGES[3])
    else if IsNumber(timeLimitSeconds) && (timeLimitSeconds.value < 30.0 || timeLimitSeconds.value > 1200.0) then Refused(400, None, MESSAGES[4])
    else Insert(Payload(displayName, approvals.value, Round(timeSeconds.value), Thousandths(maxPressureRatio.value)))
  }

  /**
   * Each check on its own, in order: a name that normalises to something,
   * approvals in [1, 100], a time in [0, 600], a pressure ratio in [0, 2],
   * and a round limit in [30, 1200] unless it is absent or not finite.
   */
  function Checks(displayName: JsString, body: Submission): (c: seq<bool>)
    ensures |c| == |MESSAGES|
  {
    [ displayName != [],
      body.approvals.Some? && 1.0 <= body.approvals.value <= 100.0,
      body.timeSeconds.Some? && 0.0 <= body.timeSeconds.value <= 600.0,
      body.maxPressureRatio.Some? && 0.0 <= body.maxPressureRatio.value <= 2.0,
      body.timeLimitSeconds.None? || 30.0 <= body.timeLimitSeconds.value <= 1200.0 ]
  }

  lemma MessagesDistinct()
    ensures forall i, j :: 0 <= i < j < |MESSAGES| ==> MESSAGES[i] != MESSAGES[j]
  {
    assert MESSAGES[0][0] == 'D';
    assert MESSAGES[1][0] == 'I' && MESSAGES[2][0] == 'I' && MESSAGES[3][0] == 'I' && MESSAGES[4][0] == 'I';
    assert MESSAGES[1][8] == 'a' && MESSAGES[2][8] == 't' && MESSAGES[3][8] == 'p' && MESSAGES[4][8] == 't';
    assert |MESSAGES[2]| != |MESSAGES[4]|;
  }

  /**
   * The first failing check decides the reply: the submission is refused with
   * message `k` exactly when checks `0 .. k - 1` pass and check `k` fails, and
   * accepted exactly when every check passes.
   */
  lemma FirstFailureDecides(displayName: JsString, body: Submission)
    ensures forall k :: 0 <= k < |MESSAGES| ==>
      (Validate(displayName, body) == Refused(400, None, MESSAGES[k]) <==>
        !Checks(displayName, body)[k] && forall j :: 0 <= j < k ==> Checks(displayName, body)[j])
    ensures Validate(displayName, body).Insert? <==> forall k :: 0 <= k < |MESSAGES| ==> Checks(displayName, body)[k]
  {
    var c := Checks(displayName, body);
    MessagesDistinct();
    forall k | 0 <= k < |MESSAGES|
      ensures Validate(displayName, body) == Refused(400, None, MESSAGES[k]) <==> !c[k] && forall j :: 0 <= j < k ==> c[j]
    {
      assert c[0] == (displayName != []);
      if k == 0 {
        assert (Validate(displayName, body) == Refused(400, None, MESSAGES[0])) == !c[0];
      } else if k == 1 {
        assert (Validate(displayName, body) == Refused(400, None, MESSAGES[1])) == (!c[1] && c[0]);
      } else if k == 2 {
        assert (Validate(displayName, body) == Refused(400, None, MESSAGES[2])) == (!c[2] && c[0] && c[1]);
      } else if k == 3 {
        assert (Validate(displayName, body) == Refused(400, None, MESSAGES[3])) == (!c[3] && c[0] && c[1] && c[2]);
      } else {
        assert (Validate(displayName, body) == Refused(400, None, MESSAGES[4])) == (!c[4] && c[0] && c[1] && c[2] && c[3]);
      }
    }
  }

  /**
   * An accepted submission stores the normalised name, the approvals as sent
   * (any real in [1, 100], not only whole numbers), the time rounded to a
   * whole second in [0, 600] and the ratio rounded to a thousandth in [0, 2].
   */
  lemma AcceptedPayload(displayName: JsString, body: Submission)
    requires Validate(displayName, body).Insert?
    ensures var p := Validate(displayName, body).payload;
      && p.displayName == displayName && p.displayName != []
      && p.approvals == body.approvals.value && 1.0 <= p.approvals <= 100.0
      && 0 <= p.timeSeconds <= 600 && (p.timeSeconds as real - body.timeSeconds.value) <= 0.5
      && body.timeSeconds.value - 0.5 < p.timeSeconds as real
      && 0.0 <= p.maxPressureRatio <= 2.0
      && -0.0005 < p.maxPressureRatio - body.maxPressureRatio.value <= 0.0005
  {
    var t := body.timeSeconds.value;
    var m := body.maxPressureRatio.value;
    RoundBounds(t);
    RoundBounds(m * 1000.0);
    var n := Round(m * 1000.0);
    assert 0 <= n <= 2000;
  }

  /** Approvals need not be whole: 1.5 passes, as does a missing round limit. */
  lemma FractionalApprovalsAccepted()
    ensures Validate([0x41], Submission(Some([0x41]), Some(1.5), Some(10.0), Some(0.5), None)).Insert?
  {
  }

  /**
   * The handler up to the storage request: anything but POST is refused with
   * 405 and `Allow: POST`; then a missing storage configuration gives 500;
   * only then is the body validated.
   */
  function Handle(httpMethod: string, configured: bool, body: Submission): (d: Decision)
    ensures httpMethod != "POST" ==> d == Refused(405, Some("POST"), "Method not allowed.")
    ensures httpMethod == "POST" && !configured ==> d == Refused(500, None, "Supabase env not configured.")
    ensures httpMethod == "POST" && configured ==> d == Validate(NormalizeName(body.displayName), body)
  {
    if httpMethod != "POST" then Refused(405, Some("POST"), "Method not allowed.")
    else if !configured then Refused(500, None, "Supabase env not configured.")
    else Validate(NormalizeName(body.displayName), body)
  }

  /** The method and the configuration are checked before the body is looked at. */
  lemma BodyReadLast(httpMethod: string, configured: bool, a: Submission, b: Submission)
    requires httpMethod != "POST" || !configured
    ensures Handle(httpMethod, configured, a) == Handle(httpMethod, configured, b)
    ensures Handle(httpMethod, configured, a).Refused? && Handle(httpMethod, configured, a).status != 400
  {
  }
}
