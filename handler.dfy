/**
 * The `POST /api/waitlist` handler: configuration check, body and address
 * validation, forwarding of the submission, and classification of the
 * upstream's answer into the endpoint's own JSON response.
 */
module Handler {
  import opened Wrappers
  import opened Email
  import opened Forwarder

  /** The `source` tag of every submission. */
  const Source: string := "mappli.co"

  /** At most this many characters of the upstream body are echoed as `detail`. */
  const MaxDetail: nat := 2000

  const MissingConfigError: string := "WAITLIST_WEBHOOK_URL is not set"
  const InvalidJsonError: string := "Invalid JSON"
  const InvalidEmailError: string := "Invalid email"
  const UpstreamErrorText: string := "Upstream error"
  const HtmlErrorText: string := "Upstream returned HTML (likely Apps Script error page)"
  const Hint405: string := "Apps Script is allowing GET/HEAD only. Ensure your Apps Script has a doPost(e) handler and that you re-deploy a new Web App version (Execute as: Me, access: Anyone)."

  /** A JSON value as far as the handler looks at it: a string, or anything else. */
  datatype Value = JString(s: string) | JOther

  /**
   * What `await request.json()` gives: a parse failure; the literal `null` (whose
   * `.email` throws inside the same `try`); or another value, with its `email`
   * property if it has one.
   */
  datatype RequestBody = Invalid | ParsedNull | Parsed(emailField: Option<Value>)

  /** The object handed to `JSON.stringify`: `{ email, source, ts }`. */
  datatype Submission = Submission(email: string, source: string, ts: int)

  /** The handler's answer. */
  datatype Response =
    | ErrorResponse(status: int, error: string)
    | UpstreamError(error: string, upstreamStatus: int, contentType: string, allow: string,
                    location: string, detail: string, hint: Option<string>)
    | Accepted
      /** A rejected `fetch` escapes the handler: no response of its own. */
    | Unhandled
  {
    /** The HTTP status the handler sends. */
    function Status(): int
      requires !Unhandled?
    {
      match this
      case ErrorResponse(status, _) => status
      case UpstreamError(_, _, _, _, _, _, _) => 502
      case Accepted => 200
    }
  }

  /** What the handler answers, and every outbound call it made to get there. */
  datatype Exchange = Exchange(response: Response, calls: seq<Call>)

  /** A request that passed every check: where to forward, and the trimmed address. */
  datatype Admission = Admission(url: string, email: string)

  /** `response.ok`, as the Fetch standard defines it. */
  predicate IsOk(status: int) {
    200 <= status <= 299
  }

  function OrEmpty(header: Option<string>): string {
    if header.Some? then header.value else ""
  }

  /** `s.includes(sub)`. */
  predicate Contains(s: string, sub: string) {
    exists i :: 0 <= i <= |s| - |sub| && OccursAt(s, sub, i)
  }

  predicate OccursAt(s: string, sub: string, i: nat)
    requires i + |sub| <= |s|
  {
    s[i..i + |sub|] == sub
  }

  /** Under the `i` flag an ASCII capital matches its small letter. */
  predicate SameIgnoringCase(c: char, lower: char) {
    c == lower || ('A' <= c <= 'Z' && c as int + 32 == lower as int)
  }

  predicate HtmlTagAt(text: string, i: nat)
    requires i + 5 <= |text|
  {
    forall k :: 0 <= k < 5 ==> SameIgnoringCase(text[i + k], "<html"[k])
  }

  /** `/<html/i.test(text)`. */
  predicate HasHtmlTag(text: string) {
    exists i :: 0 <= i <= |text| - 5 && HtmlTagAt(text, i)
  }

  /** The test that marks a 2xx answer as an HTML error page. */
  predicate LooksLikeHtml(up: Resp) {
    Contains(OrEmpty(up.contentType), "text/html") || HasHtmlTag(up.body)
  }

  /** `text.slice(0, 2000)`. */
  function Detail(text: string): (d: string)
    ensures |d| == if |text| < MaxDetail then |text| else MaxDetail
    ensures d <= text
  {
    if |text| <= MaxDetail then text else text[..MaxDetail]
  }

  /**
   * The checks before anything is sent: the webhook URL is set and non-empty
   * (checked before the body), the body is JSON other than `null`, and its
   * `email` is a string whose trimmed form the address pattern accepts.
   */
  function Admit(webhookUrl: Option<string>, body: RequestBody): (r: Result<Admission, Response>)
    ensures r.Ok? ==> Some(r.value.url) == webhookUrl && r.value.url != [] && IsValidEmail(r.value.email)
    ensures r.Err? ==> r.error.ErrorResponse? && (r.error.status == 500 <==> !Configured(webhookUrl))
    ensures r.Err? && r.error.status != 500 ==> r.error.status == 400
  {
    if webhookUrl.None? || webhookUrl.value == [] then
      Err(ErrorResponse(500, MissingConfigError))
    else
      match body
      case Invalid => Err(ErrorResponse(400, InvalidJsonError))
      case ParsedNull => Err(ErrorResponse(400, InvalidJsonError))
      case Parsed(field) =>
        var email := if field.Some? && field.value.JString? then Trim(field.value.s) else "";
        if email == [] || !IsValidEmail(email) then Err(ErrorResponse(400, InvalidEmailError))
        else Ok(Admission(webhookUrl.value, email))
  }

  /**
   * Turns the final upstream response into the handler's answer: a non-2xx
   * status is an upstream error; a 2xx that looks like HTML is one too; anything
   * else is success. Error answers echo the status, the three headers ("" when
   * absent) and at most 2000 characters of the body.
   */
  function Classify(up: Resp): (r: Response)
    ensures r.Accepted? <==> IsOk(up.status) && !LooksLikeHtml(up)
    ensures !r.Accepted? ==> r.UpstreamError?
    ensures r.UpstreamError? ==>
      && (r.error == UpstreamErrorText <==> !IsOk(up.status))
      && (r.error == HtmlErrorText <==> IsOk(up.status))
      && r.upstreamStatus == up.status
      && r.contentType == OrEmpty(up.contentType)
      && r.allow == OrEmpty(up.allow)
      && r.location == OrEmpty(up.location)
      && r.detail <= up.body
      && |r.detail| == if |up.body| < MaxDetail then |up.body| else MaxDetail
    // The 405 hint sits in the 2xx-only branch, so it is never attached.
    ensures r.UpstreamError? ==> r.hint.None?
  {
    var contentType := OrEmpty(up.contentType);
    var allow := OrEmpty(up.allow);
    var location := OrEmpty(up.location);
    var detail := Detail(up.body);
    if !IsOk(up.status) then
      UpstreamError(UpstreamErrorText, up.status, contentType, allow, location, detail, None)
    else if Contains(contentType, "text/html") || HasHtmlTag(up.body) then
      UpstreamError(HtmlErrorText, up.status, contentType, allow, location, detail,
                    if up.status == 405 then Some(Hint405) else None)
    else
      Accepted
  }

  /**
   * Forwarding an admitted request: send the encoded submission through the
   * redirect-following forwarder and classify the final reply. Something is
   * always sent, first a POST of the submission to the configured URL, and the
   * answer is never one of the handler's own 400/500 refusals.
   */
  function Relay(admission: Admission, now: int, encode: Submission -> string, fetch: Fetch): (x: Exchange)
    ensures x.calls != []
    ensures x.calls[0] == Call(Method.Post, admission.url, Some(encode(Submission(admission.email, Source, now))))
    ensures !x.response.ErrorResponse?
  {
    var payload := encode(Submission(admission.email, Source, now));
    var run := Follow(fetch, admission.url, payload, 0);
    match run.reply
    case Rejected => Exchange(Unhandled, run.calls)
    case Answered(up) => Exchange(Classify(up), run.calls)
  }

  /**
   * The handler. `now` stands for `Date.now()`, `encode` for `JSON.stringify`
   * and `fetch` for the network. Nothing is sent exactly when the handler
   * refuses the request itself, with a 400 or a 500.
   */
  function Post(webhookUrl: Option<string>, body: RequestBody, now: int,
                encode: Submission -> string, fetch: Fetch): (x: Exchange)
    ensures x.calls == [] <==> x.response.ErrorResponse?
    ensures x.response.ErrorResponse? ==> x.response.Status() == 400 || x.response.Status() == 500
  {
    match Admit(webhookUrl, body)
    case Err(response) => Exchange(response, [])
    case Ok(admission) => Relay(admission, now, encode, fetch)
  }

  // ---------------------------------------------------------------------------
  // Properties of the handler
  // ---------------------------------------------------------------------------

  /** The URL setting is present and non-empty. */
  predicate Configured(webhookUrl: Option<string>) {
    webhookUrl.Some? && webhookUrl.value != []
  }

  /** The body's `email` is a string whose trimmed form the pattern accepts. */
  predicate Admissible(body: RequestBody) {
    body.Parsed? && body.emailField.Some? && body.emailField.value.JString? &&
    IsValidEmail(Trim(body.emailField.value.s))
  }

  /**
   * A request is admitted exactly when the URL is configured and the body is
   * admissible, and then it is forwarded to that URL with the trimmed address.
   */
  lemma AdmitExactly(webhookUrl: Option<string>, body: RequestBody)
    ensures Admit(webhookUrl, body).Ok? <==> Configured(webhookUrl) && Admissible(body)
    ensures Admit(webhookUrl, body).Ok? ==>
      Admit(webhookUrl, body).value == Admission(webhookUrl.value, Trim(body.emailField.value.s))
  {
  }

  /** A missing or empty webhook URL gives 500 whatever the body, and nothing is sent. */
  lemma MissingConfigFirst(webhookUrl: Option<string>, body: RequestBody, now: int,
                           encode: Submission -> string, fetch: Fetch)
    requires !Configured(webhookUrl)
    ensures var x := Post(webhookUrl, body, now, encode, fetch);
      x == Exchange(ErrorResponse(500, MissingConfigError), []) && x.response.Status() == 500
  {
  }

  /**
   * With the URL set, a body that fails the checks gives 400 and nothing is
   * sent: "Invalid JSON" for a parse failure or `null`, "Invalid email" when
   * the field is missing, not a string, empty after trimming or rejected by the
   * pattern.
   */
  lemma RejectedBeforeForwarding(url: string, body: RequestBody, now: int,
                                 encode: Submission -> string, fetch: Fetch)
    requires url != [] && !Admissible(body)
    ensures var x := Post(Some(url), body, now, encode, fetch);
      && x.calls == []
      && x.response == ErrorResponse(400, if body.Parsed? then InvalidEmailError else InvalidJsonError)
      && x.response.Status() == 400
  {
  }

  /**
   * Something is sent exactly when the URL is set and the request is
   * admissible; then the trimmed address is relayed: the first call POSTs its
   * encoded submission to the configured URL, every POST carries that same
   * payload, and at most five calls are made.
   */
  lemma {:induction false} ForwardsOnlyAdmissible(webhookUrl: Option<string>, body: RequestBody, now: int,
                                                  encode: Submission -> string, fetch: Fetch)
    ensures var x := Post(webhookUrl, body, now, encode, fetch);
      x.calls != [] <==> Configured(webhookUrl) && Admissible(body)
    ensures var x := Post(webhookUrl, body, now, encode, fetch);
      x.calls != [] ==>
        var email := Trim(body.emailField.value.s);
        var payload := encode(Submission(email, Source, now));
        && x == Relay(Admission(webhookUrl.value, email), now, encode, fetch)
        && |x.calls| <= MaxHops + 2
        && x.calls[0] == Call(Method.Post, webhookUrl.value, Some(payload))
        && (forall i :: 0 <= i < |x.calls| && x.calls[i].verb == Method.Post ==> x.calls[i].body == Some(payload))
  {
    AdmitExactly(webhookUrl, body);
    if Configured(webhookUrl) && Admissible(body) {
      var admission := Admission(webhookUrl.value, Trim(body.emailField.value.s));
      var payload := encode(Submission(admission.email, Source, now));
      assert Post(webhookUrl, body, now, encode, fetch) == Relay(admission, now, encode, fetch);
      assert Relay(admission, now, encode, fetch).calls == Follow(fetch, admission.url, payload, 0).calls;
      CallBounds(fetch, admission.url, payload, 0);
    } else {
      assert Admit(webhookUrl, body).Err?;
    }
  }

  /**
   * Once a request is admitted, the answer is decided by the reply to the last
   * call made: a rejection escapes the handler, and a response is classified
   * (see `Classify`).
   */
  lemma AnswerFollowsLastReply(admission: Admission, now: int, encode: Submission -> string, fetch: Fetch)
    ensures var x := Relay(admission, now, encode, fetch);
      x.calls != [] &&
      var last := fetch(|x.calls| - 1, x.calls[|x.calls| - 1]);
      x.response == if last.Rejected? then Unhandled else Classify(last.resp)
  {
    var payload := encode(Submission(admission.email, Source, now));
    ReplyIsLastCall(fetch, admission.url, payload, 0);
  }

  /** The HTML case needs a 2xx status, so the 405 hint is never sent. */
  lemma HintNeverSet(webhookUrl: Option<string>, body: RequestBody, now: int,
                     encode: Submission -> string, fetch: Fetch)
    ensures var r := Post(webhookUrl, body, now, encode, fetch).response;
      r.UpstreamError? ==> r.hint.None?
  {
  }
}
