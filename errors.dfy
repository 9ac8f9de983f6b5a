/**
  The service's single error and success envelope (errors.rs): an `ApiError`
  is `{ ok: false, error: { code, message, trace_id } }`, always answered
  with HTTP 200; an `ApiSuccess` is `{ ok: true, ...data }`.
 */
module Errors {
  import opened Wrappers
  import opened Decimal
  import opened Json

  const DATABASE_ERROR: string := "DATABASE_ERROR"
  const NOT_FOUND: string := "NOT_FOUND"
  const INTERNAL_ERROR: string := "INTERNAL_ERROR"
  const VALIDATION_ERROR: string := "VALIDATION_ERROR"
  const UPSTREAM_PREFIX: string := "UPSTREAM_"
  const HTTP_CLIENT_PREFIX: string := "HTTP client error: "
  const DISPLAY_PREFIX: string := "ApiError["

  /** HTTP 200 OK: the status of every error response. */
  const STATUS_OK: int := 200

  /** A `reqwest::Error`, seen through `status()` and its `Display` text. */
  datatype ClientError = ClientError(status: Option<u16>, text: string)

  datatype ErrorDetails = ErrorDetails(code: string, message: string, traceId: string)

  /** An HTTP response: its status and its JSON body. */
  datatype Response = Response(status: int, body: Value)

  datatype ApiError = ApiError(ok: bool, error: ErrorDetails) {

    /** `ApiError::new`; the fresh UUID it draws for `trace_id` is the parameter `traceId`. */
    static function New(code: string, message: string, traceId: string): (e: ApiError)
      ensures !e.ok
      ensures e.error.code == code && e.error.message == message && e.error.traceId == traceId
    {
      ApiError(false, ErrorDetails(code, message, traceId))
    }

    static function Database(message: string, traceId: string): (e: ApiError)
      ensures !e.ok && e.error.code == DATABASE_ERROR && e.error.message == message
    {
      New(DATABASE_ERROR, message, traceId)
    }

    /**
      The code is "UPSTREAM_" followed by the status in decimal (`format!` of a
      `u16`: no sign, no leading zeros), a text that reads back as `status`.
     */
    static function Upstream(status: u16, message: string, traceId: string): (e: ApiError)
      ensures !e.ok && e.error.message == message && e.error.traceId == traceId
      ensures e.error.code == UPSTREAM_PREFIX + DecimalText(status)
    {
      New(UPSTREAM_PREFIX + DecimalText(status), message, traceId)
    }

    static function NotFound(message: string, traceId: string): (e: ApiError)
      ensures !e.ok && e.error.code == NOT_FOUND && e.error.message == message
    {
      New(NOT_FOUND, message, traceId)
    }

    static function Internal(message: string, traceId: string): (e: ApiError)
      ensures !e.ok && e.error.code == INTERNAL_ERROR && e.error.message == message
    {
      New(INTERNAL_ERROR, message, traceId)
    }

    static function Validation(message: string, traceId: string): (e: ApiError)
      ensures !e.ok && e.error.code == VALIDATION_ERROR && e.error.message == message
    {
      New(VALIDATION_ERROR, message, traceId)
    }

    /** `impl Display`: "ApiError[<code>]: <message> (trace: <trace_id>)". */
    function Display(): (s: string)
      ensures |s| > |DISPLAY_PREFIX| && s[..|DISPLAY_PREFIX|] == DISPLAY_PREFIX && s[|s| - 1] == ')'
    {
      DISPLAY_PREFIX + error.code + "]: " + error.message + " (trace: " + error.traceId + ")"
    }

    /** The JSON object `#[derive(Serialize)]` produces. */
    function ToJson(): (j: Value)
      ensures Get(j, "ok") == Some(Bool(ok))
    {
      Object(map[
        "ok" := Bool(ok),
        "error" := Object(map[
          "code" := Str(error.code),
          "message" := Str(error.message),
          "trace_id" := Str(error.traceId)])])
    }

    /** `impl IntoResponse`: every error, whatever its code, is sent with HTTP 200. */
    function IntoResponse(): (r: Response)
      ensures r.status == STATUS_OK
      ensures r.body == ToJson()
    {
      Response(STATUS_OK, ToJson())
    }

    /** `From<sqlx::Error>`: the error's text under DATABASE_ERROR. */
    static function FromDbError(text: string, traceId: string): (e: ApiError)
      ensures !e.ok && e.error.code == DATABASE_ERROR && e.error.message == text
    {
      Database(text, traceId)
    }

    /**
      `From<reqwest::Error>`: UPSTREAM_<status> with the error's text when the
      error carries a status, otherwise INTERNAL_ERROR with the text behind a prefix.
     */
    static function FromClientError(err: ClientError, traceId: string): (e: ApiError)
      ensures !e.ok
      ensures err.status.Some? ==> e == Upstream(err.status.value, err.text, traceId)
      ensures err.status.None? ==> e.error.code == INTERNAL_ERROR && e.error.message == HTTP_CLIENT_PREFIX + err.text
    {
      match err.status
      case Some(status) => Upstream(status, err.text, traceId)
      case None => Internal(HTTP_CLIENT_PREFIX + err.text, traceId)
    }

    /** `From<anyhow::Error>`: the error's text under INTERNAL_ERROR. */
    static function FromAnyError(text: string, traceId: string): (e: ApiError)
      ensures !e.ok && e.error.code == INTERNAL_ERROR && e.error.message == text
    {
      Internal(text, traceId)
    }
  }

  /** The status reads back from an upstream code: what follows "UPSTREAM_" parses as that `u16`. */
  lemma UpstreamCodeReadsBack(status: u16, message: string, traceId: string)
    ensures var c := ApiError.Upstream(status, message, traceId).error.code;
      |c| > |UPSTREAM_PREFIX| && c[..|UPSTREAM_PREFIX|] == UPSTREAM_PREFIX &&
      ParseU64(c[|UPSTREAM_PREFIX|..]) == Some(status as u64)
  {
    ParseU64OfDecimal(status);
    assert (UPSTREAM_PREFIX + DecimalText(status))[|UPSTREAM_PREFIX|..] == DecimalText(status);
  }

  /** Distinct statuses give distinct upstream codes. */
  lemma UpstreamCodesDistinct(s1: u16, s2: u16, m1: string, m2: string, t1: string, t2: string)
    ensures s1 != s2 ==> ApiError.Upstream(s1, m1, t1).error.code != ApiError.Upstream(s2, m2, t2).error.code
  {
    var d1, d2 := DecimalText(s1), DecimalText(s2);
    if UPSTREAM_PREFIX + d1 == UPSTREAM_PREFIX + d2 {
      assert d1 == (UPSTREAM_PREFIX + d1)[|UPSTREAM_PREFIX|..];
      assert d2 == (UPSTREAM_PREFIX + d2)[|UPSTREAM_PREFIX|..];
      DecimalTextInjective(s1, s2);
    }
  }

  /** No upstream code is one of the fixed codes. */
  lemma UpstreamCodesNotFixed(status: u16, message: string, traceId: string)
    ensures ApiError.Upstream(status, message, traceId).error.code !in {DATABASE_ERROR, NOT_FOUND, INTERNAL_ERROR, VALIDATION_ERROR}
  {
    var c := ApiError.Upstream(status, message, traceId).error.code;
    assert c[1] == 'P' by {
      assert c[..|UPSTREAM_PREFIX|] == UPSTREAM_PREFIX;
    }
    assert DATABASE_ERROR[1] == 'A' && NOT_FOUND[1] == 'O' && INTERNAL_ERROR[1] == 'N' && VALIDATION_ERROR[1] == 'A';
  }

  /** The characters of `s` before the first `c`, if `s` holds a `c`. */
  function TakeUntil(s: string, c: char): (r: Option<string>)
    ensures r.Some? ==> |r.value| < |s| && s[..|r.value|] == r.value && s[|r.value|] == c && c !in r.value
    ensures r.None? ==> c !in s
  {
    if s == [] then None
    else if s[0] == c then Some([])
    else match TakeUntil(s[1..], c)
      case None => None
      case Some(t) => Some([s[0]] + t)
  }

  lemma {:induction false} TakeUntilFirst(a: string, c: char, b: string)
    requires c !in a
    ensures TakeUntil(a + [c] + b, c) == Some(a)
  {
    if a != [] {
      assert a[0] in a;
      assert (a + [c] + b)[0] == a[0] != c;
      assert (a + [c] + b)[1..] == a[1..] + [c] + b;
      TakeUntilFirst(a[1..], c, b);
      assert [a[0]] + a[1..] == a;
    }
  }

  /** The position of the last `c` in `s`, if `s` holds a `c`. */
  function LastIndexOf(s: string, c: char): (r: Option<nat>)
    ensures r.Some? ==> r.value < |s| && s[r.value] == c && c !in s[r.value + 1..]
    ensures r.None? ==> c !in s
  {
    if s == [] then None
    else if s[|s| - 1] == c then Some(|s| - 1)
    else
      var r := LastIndexOf(s[..|s| - 1], c);
      if r.Some? then
        assert s[r.value + 1..] == s[..|s| - 1][r.value + 1..] + [s[|s| - 1]];
        r
      else
        assert s == s[..|s| - 1] + [s[|s| - 1]];
        r
  }

  lemma LastIndexOfLast(a: string, c: char, b: string)
    requires c !in b
    ensures LastIndexOf(a + [c] + b, c) == Some(|a|)
  {
    var s := a + [c] + b;
    assert s[|a|] == c;
    var r := LastIndexOf(s, c);
    if r.value < |a| {
      assert false;
    } else if r.value > |a| {
      assert false;
    }
  }

  /** What `Display` puts between the message and the trace id. */
  const TRACE_OPEN: string := " (trace: "

  /**
    Reads an error's details back out of a `Display` text: the code runs from
    "ApiError[" to the first ']', and `DisplayTail` reads the rest.
   */
  function ParseDisplay(s: string): Option<ErrorDetails> {
    if !(|s| >= |DISPLAY_PREFIX| && s[..|DISPLAY_PREFIX|] == DISPLAY_PREFIX) then None
    else
      var t := s[|DISPLAY_PREFIX|..];
      match TakeUntil(t, ']')
      case None => None
      case Some(code) => DisplayTail(code, t[|code| + 1..])
  }

  /** What follows "ApiError[<code>]": ": ", then what `SplitTrace` reads, then the final ')'. */
  function DisplayTail(code: string, after: string): Option<ErrorDetails> {
    if !(|after| >= 3 && after[..2] == ": " && after[|after| - 1] == ')') then None
    else match SplitTrace(after[2..|after| - 1])
      case None => None
      case Some((message, traceId)) => Some(ErrorDetails(code, message, traceId))
  }

  /** Splits "<message> (trace: <trace id>" at its last '(': the message before, the trace id after. */
  function SplitTrace(body: string): Option<(string, string)> {
    match LastIndexOf(body, '(')
    case None => None
    case Some(i) =>
      if 1 <= i && i - 1 + |TRACE_OPEN| <= |body| && body[i - 1..i - 1 + |TRACE_OPEN|] == TRACE_OPEN then
        Some((body[..i - 1], body[i - 1 + |TRACE_OPEN|..]))
      else None
  }

  lemma SplitTraceRoundTrip(message: string, traceId: string)
    requires '(' !in traceId
    ensures SplitTrace(message + TRACE_OPEN + traceId) == Some((message, traceId))
  {
    var body := message + TRACE_OPEN + traceId;
    assert body == (message + " ") + ['('] + ("trace: " + traceId);
    LastIndexOfLast(message + " ", '(', "trace: " + traceId);
    assert body[..|message|] == message;
    assert body[|message|..|message| + |TRACE_OPEN|] == TRACE_OPEN;
    assert body[|message| + |TRACE_OPEN|..] == traceId;
  }

  lemma DisplayTailRoundTrip(code: string, message: string, traceId: string)
    requires '(' !in traceId
    ensures DisplayTail(code, ": " + message + TRACE_OPEN + traceId + ")") == Some(ErrorDetails(code, message, traceId))
  {
    var after := ": " + message + TRACE_OPEN + traceId + ")";
    assert after[2..|after| - 1] == message + TRACE_OPEN + traceId;
    SplitTraceRoundTrip(message, traceId);
  }

  /**
    `Display` loses nothing: when the code holds no ']' and the trace id no '('
    (the UUIDs `New` draws never do), the code, the message and the trace id
    all read back from the text. The message may hold any character.
   */
  lemma DisplayRoundTrip(e: ApiError)
    requires ']' !in e.error.code && '(' !in e.error.traceId
    ensures ParseDisplay(e.Display()) == Some(e.error)
  {
    var after := ": " + e.error.message + TRACE_OPEN + e.error.traceId + ")";
    assert e.Display()[|DISPLAY_PREFIX|..] == e.error.code + [']'] + after;
    TakeUntilFirst(e.error.code, ']', after);
    assert (e.error.code + [']'] + after)[|e.error.code| + 1..] == after;
    DisplayTailRoundTrip(e.error.code, e.error.message, e.error.traceId);
  }

  /** Reads an error back from its serialized JSON. */
  function ErrorFromJson(j: Value): Option<ApiError> {
    match (Get(j, "ok"), Get(j, "error"))
    case (Some(Bool(ok)), Some(details)) =>
      (match (Get(details, "code"), Get(details, "message"), Get(details, "trace_id"))
       case (Some(Str(c)), Some(Str(m)), Some(Str(t))) => Some(ApiError(ok, ErrorDetails(c, m, t)))
       case _ => None)
    case _ => None
  }

  /** The response body of an error carries all of it: reading it back gives the same error. */
  lemma ResponseBodyRoundTrip(e: ApiError)
    ensures e.IntoResponse().status == STATUS_OK
    ensures ErrorFromJson(e.IntoResponse().body) == Some(e)
  {
  }

  /** `ApiSuccess<T>`: the data, flattened beside `ok: true`. */
  datatype ApiSuccess<T> = ApiSuccess(ok: bool, data: T) {
    static function New(data: T): (s: ApiSuccess<T>)
      ensures s.ok && s.data == data
    {
      ApiSuccess(true, data)
    }
  }

  type ApiResult<T> = Result<ApiSuccess<T>, ApiError>

  /** The `ok` helper: wraps data as a successful `ApiResult`. */
  function OkResult<T>(data: T): (r: ApiResult<T>)
    ensures r.Ok? && r.value.ok && r.value.data == data
  {
    Ok(ApiSuccess.New(data))
  }

  /** An error and a success can always be told apart by their `ok` flag. */
  lemma OkFlagSeparates<T>(code: string, message: string, traceId: string, data: T)
    ensures ApiError.New(code, message, traceId).ok != ApiSuccess.New(data).ok
    ensures Get(ApiError.New(code, message, traceId).IntoResponse().body, "ok") == Some(Bool(false))
  {
  }
}
