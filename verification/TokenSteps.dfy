/**
 One login attempt of the broker token generator: five network steps, the one-time-code retry inside
 the second, and the errors each of them raises. What the network and the SDK answer, and how long
 they take, is given by a script; time is in seconds.
 */
module TokenSteps {
  import opened Options

  // ---------------------------------------------------------------- errors

  /** The three exception classes of the module, and any other exception that escapes a step. */
  datatype TokenError =
    | ConfigError(message: string)
    | AuthError(message: string)
    | ConnectionError(message: string)
    | OtherError(message: string)

  const PIN_FAILED := "PIN verification failed"
  const OTP_FAILED := "OTP request failed"
  const TOTP_FAILED := "TOTP verification failed"
  const NO_REQUEST_KEY := "Missing request_key"
  const NO_TEMP_TOKEN := "Missing temporary access_token"
  const CODE_REJECTED := "Authorization code request rejected"
  const NO_REDIRECT := "Redirect Location not found"
  const NO_AUTH_CODE := "auth_code parameter is missing"
  const EXCHANGE_FAILED := "Token exchange failed"
  const EXCHANGE_UNEXPECTED := "Token exchange returned an unexpected"
  const NO_FINAL_TOKEN := "Final access token was missing"
  const INVALID_JSON := "Invalid JSON response"
  const SDK_ERROR := "Fyers SDK SessionModel execution error"
  const CLIENT_ERROR := "HTTP client error during"

  const PERMANENT_MARKERS: set<string> := {
    PIN_FAILED, OTP_FAILED, "Invalid User ID", TOTP_FAILED, NO_REQUEST_KEY, NO_TEMP_TOKEN,
    CODE_REJECTED, NO_REDIRECT, NO_AUTH_CODE, EXCHANGE_FAILED, EXCHANGE_UNEXPECTED,
    NO_FINAL_TOKEN, INVALID_JSON, SDK_ERROR, "Invalid TOTP secret format", CLIENT_ERROR
  }

  predicate StandsAt(text: string, i: nat, part: string) {
    i + |part| <= |text| && text[i..i + |part|] == part
  }

  predicate Contains(text: string, part: string) {
    exists i :: 0 <= i <= |text| && StandsAt(text, i, part)
  }

  /** _is_permanent_auth_error. */
  predicate IsPermanent(message: string) {
    exists marker :: marker in PERMANENT_MARKERS && Contains(message, marker)
  }

  lemma MarkedIsPermanent(marker: string, detail: string)
    requires marker in PERMANENT_MARKERS
    ensures IsPermanent(marker + detail)
  {
    assert StandsAt(marker + detail, 0, marker);
    assert Contains(marker + detail, marker);
  }

  // ---------------------------------------------------------------- what the network answers

  /** A JSON body: a dictionary with its `s == "ok"` flag, message and key or token ("" when missing or
      falsy), or something whose fields cannot be read. */
  datatype Body = Dict(ok: bool, message: string, key: string) | Unreadable

  /** The body of an answer; whether a decoding failure is a RequestException depends on the
      installed version of requests. */
  datatype Content = Json(body: Body) | NotJson(isRequestException: bool)

  /** `drift` is the clock drift read from the Date header, if there is one. */
  datatype Reply =
    | TimedOut(detail: string)
    | Broken(detail: string)
    | Answer(status: int, content: Content, drift: Option<real>, detail: string)

  datatype Hop = Hop(reply: Reply, took: real)

  /** The redirect of the authorization step: absent, not parsable, or with an optional code. */
  datatype Redirect = NoRedirect | BadUrl | Url(code: string)

  datatype CodeReply = CodeTimedOut(detail: string) | CodeBroken(detail: string) | CodeAnswer(status: int, redirect: Redirect)

  datatype CodeHop = CodeHop(reply: CodeReply, took: real)

  datatype Sdk = SdkTimedOut | SdkRaised(name: string) | SdkReturned(body: Body)

  /** One attempt's script, with the jitter drawn after it fails. */
  datatype Script = Script(otp: Hop, secretValid: bool, totp: Hop, totpRetry: Hop, pin: Hop,
                           primary: CodeHop, fallback: CodeHop, sdk: Sdk, sdkTook: real, delay: real)

  datatype Outcome<T> = Ok(value: T) | Err(error: TokenError)

  // ---------------------------------------------------------------- the steps

  /** _post_json. */
  function PostJson(reply: Reply, step: string, accept4xxJson: bool): Outcome<Body> {
    match reply
    case TimedOut(detail) => Err(ConnectionError("Timeout during " + step + detail))
    case Broken(detail) => Err(ConnectionError("Connection failed during " + step + detail))
    case Answer(status, content, _, detail) =>
      if accept4xxJson && 400 <= status < 500 && content.Json? && content.body.Dict? then Ok(content.body)
      else if 400 <= status < 500 && status != 429 then Err(AuthError(CLIENT_ERROR + (" " + step + detail)))
      else if status >= 400 then Err(ConnectionError("HTTP error during " + step + detail))
      else
        match content
        case Json(body) => Ok(body)
        case NotJson(true) => Err(ConnectionError("Connection failed during " + step + detail))
        case NotJson(false) => Err(AuthError(INVALID_JSON + (" during " + step)))
  }

  function DriftAfter(reply: Reply, drift: real): real {
    if reply.Answer? && reply.drift.Some? then reply.drift.value else drift
  }

  /** The checks on a dictionary answer: `s`, then the key; None of it survives an unreadable body. */
  function KeyOf(body: Body, failed: string, missing: string): Outcome<string> {
    match body
    case Unreadable => Err(OtherError("AttributeError"))
    case Dict(ok, message, key) =>
      if !ok then Err(AuthError(failed + (": " + message)))
      else if key == "" then Err(AuthError(missing))
      else Ok(key)
  }

  function CodeReplyError(reply: CodeReply): Option<TokenError> {
    match reply
    case CodeTimedOut(detail) => Some(ConnectionError("Timeout during authorization code request " + detail))
    case CodeBroken(detail) => Some(ConnectionError("Connection failed during authorization code request: " + detail))
    case CodeAnswer(status, _) =>
      if status >= 500 || status == 429 then Some(ConnectionError("HTTP server error during authorization code request"))
      else None
  }

  function CodeFrom(reply: CodeReply): Outcome<string>
    requires reply.CodeAnswer?
  {
    match reply.redirect
    case NoRedirect =>
      Err(AuthError(if reply.status >= 400 then CODE_REJECTED + " (status)" else NO_REDIRECT + " (status)"))
    case BadUrl => Err(OtherError("ValueError"))
    case Url(code) => if code == "" then Err(AuthError(NO_AUTH_CODE + " in redirect URL")) else Ok(code)
  }

  /** _request_auth_code: the fallback is asked only when the primary gave no redirect. */
  function AuthCode(primary: CodeHop, fallback: CodeHop): (Outcome<string>, real) {
    match CodeReplyError(primary.reply)
    case Some(error) => (Err(error), primary.took)
    case None =>
      if !primary.reply.redirect.NoRedirect? then (CodeFrom(primary.reply), primary.took)
      else
        match CodeReplyError(fallback.reply)
        case Some(error) => (Err(error), primary.took + fallback.took)
        case None => (CodeFrom(fallback.reply), primary.took + fallback.took)
  }

  /** _exchange_auth_code and the checks that follow it. */
  function Exchange(sdk: Sdk): Outcome<string> {
    match sdk
    case SdkTimedOut => Err(ConnectionError("Timeout during token exchange SDK step"))
    case SdkRaised(name) => Err(AuthError(SDK_ERROR + (": " + name)))
    case SdkReturned(Unreadable) => Err(AuthError(EXCHANGE_UNEXPECTED + " response type"))
    case SdkReturned(Dict(ok, message, token)) =>
      if !ok then Err(AuthError(EXCHANGE_FAILED + (": " + message)))
      else if token == "" then Err(AuthError(NO_FINAL_TOKEN + " in response"))
      else Ok(token)
  }

  // ---------------------------------------------------------------- clocks and sleeps

  function Max(a: real, b: real): real {
    if a >= b then a else b
  }

  function Min(a: real, b: real): real {
    if a <= b then a else b
  }

  function SecondsLeft(now: real, deadline: real): real {
    Max(0.0, deadline - now)
  }

  /** _sleep_capped: never past the deadline. */
  function SleepCapped(seconds: real, now: real, deadline: real): real {
    if seconds <= 0.0 then 0.0 else Min(seconds, SecondsLeft(now, deadline))
  }

  /** Python's int() of a float. */
  function Truncated(x: real): int {
    if x >= 0.0 then x.Floor else -((-x).Floor)
  }

  /** The pause before the second one-time code: to the next 30 s window and one second more, but at
      most `cap` and at most what the budget leaves. */
  function WindowPause(wall: real, cap: real, left: real): real {
    Min(Min((30 - Truncated(wall) % 30 + 1) as real, cap), Max(0.0, left - 0.5))
  }

  /** Fixed parameters: deadline on the monotonic clock, cap of the inner pause, and what to add to
      the monotonic clock to get wall time. */
  datatype Setup = Setup(deadline: real, cap: real, wallBase: real)

  /** What an attempt gives: its outcome, the time it ends, the drift it leaves and the time it slept. */
  datatype Attempt = Attempt(outcome: Outcome<string>, end: real, drift: real, slept: real)

  /** Steps 3 to 5. */
  function FinishLogin(script: Script, now: real, drift: real, slept: real): Attempt {
    var t3 := now + script.pin.took;
    var drift3 := DriftAfter(script.pin.reply, drift);
    match PostJson(script.pin.reply, "PIN verification", false)
    case Err(error) => Attempt(Err(error), t3, drift3, slept)
    case Ok(body) =>
      match KeyOf(body, PIN_FAILED, NO_TEMP_TOKEN + " in PIN verification response data")
      case Err(error) => Attempt(Err(error), t3, drift3, slept)
      case Ok(_) =>
        var (code, took) := AuthCode(script.primary, script.fallback);
        if code.Err? then Attempt(code, t3 + took, drift3, slept)
        else Attempt(Exchange(script.sdk), t3 + took + script.sdkTook, drift3, slept)
  }

  /** Step 2 from its first answer on, with the inner retry when that answer is not ok. */
  function VerifyCode(script: Script, first: Body, setup: Setup, now: real, drift: real): Attempt {
    match first
    case Unreadable => Attempt(Err(OtherError("AttributeError")), now, drift, 0.0)
    case Dict(true, _, _) => AfterCode(script, first, now, drift, 0.0)
    case Dict(false, _, _) =>
      var pause := WindowPause(now + setup.wallBase + drift, setup.cap, SecondsLeft(now, setup.deadline));
      var slept := SleepCapped(pause, now, setup.deadline);
      var t := now + slept + script.totpRetry.took;
      var drift' := DriftAfter(script.totpRetry.reply, drift);
      match PostJson(script.totpRetry.reply, "TOTP retry verification", true)
      case Err(error) => Attempt(Err(error), t, drift', slept)
      case Ok(second) => AfterCode(script, second, t, drift', slept)
  }

  function AfterCode(script: Script, body: Body, now: real, drift: real, slept: real): Attempt {
    match KeyOf(body, TOTP_FAILED + " after retry", NO_REQUEST_KEY + " in TOTP verification response")
    case Err(error) => Attempt(Err(error), now, drift, slept)
    case Ok(_) => FinishLogin(script, now, drift, slept)
  }

  /** One pass through the try block. */
  function Login(script: Script, setup: Setup, now: real, drift: real): Attempt {
    var t1 := now + script.otp.took;
    var drift1 := DriftAfter(script.otp.reply, drift);
    match PostJson(script.otp.reply, "OTP request", false)
    case Err(error) => Attempt(Err(error), t1, drift1, 0.0)
    case Ok(body) =>
      match KeyOf(body, OTP_FAILED, NO_REQUEST_KEY + " in OTP request response")
      case Err(error) => Attempt(Err(error), t1, drift1, 0.0)
      case Ok(_) =>
        if !script.secretValid then Attempt(Err(ConfigError("Invalid TOTP secret format")), t1, drift1, 0.0)
        else
          var t2 := t1 + script.totp.took;
          var drift2 := DriftAfter(script.totp.reply, drift1);
          match PostJson(script.totp.reply, "TOTP verification", true)
          case Err(error) => Attempt(Err(error), t2, drift2, 0.0)
          case Ok(first) => VerifyCode(script, first, setup, t2, drift2)
  }

  // ---------------------------------------------------------------- what every attempt guarantees

  /** Anything but an authentication error, or one with a permanent marker. */
  predicate Classified<T>(o: Outcome<T>) {
    o.Err? && o.error.AuthError? ==> IsPermanent(o.error.message)
  }

  lemma PostJsonClassified(reply: Reply, step: string, accept4xxJson: bool)
    ensures Classified(PostJson(reply, step, accept4xxJson))
  {
    hide IsPermanent;
    if reply.Answer? {
      MarkedIsPermanent(CLIENT_ERROR, " " + step + reply.detail);
      MarkedIsPermanent(INVALID_JSON, " during " + step);
    }
  }

  lemma KeyOfClassified(body: Body, failed: string, missing: string)
    requires body.Dict? ==> IsPermanent(failed + (": " + body.message))
    requires IsPermanent(missing)
    ensures Classified(KeyOf(body, failed, missing))
  {
    hide IsPermanent;
  }

  lemma AuthCodeClassified(primary: CodeHop, fallback: CodeHop)
    ensures Classified(AuthCode(primary, fallback).0)
  {
    hide IsPermanent;
    MarkedIsPermanent(CODE_REJECTED, " (status)");
    MarkedIsPermanent(NO_REDIRECT, " (status)");
    MarkedIsPermanent(NO_AUTH_CODE, " in redirect URL");
  }

  lemma ExchangeClassified(sdk: Sdk)
    ensures Classified(Exchange(sdk))
  {
    hide IsPermanent;
    match sdk
    case SdkTimedOut =>
    case SdkRaised(name) => MarkedIsPermanent(SDK_ERROR, ": " + name);
    case SdkReturned(Unreadable) => MarkedIsPermanent(EXCHANGE_UNEXPECTED, " response type");
    case SdkReturned(Dict(_, message, _)) =>
      MarkedIsPermanent(EXCHANGE_FAILED, ": " + message);
      MarkedIsPermanent(NO_FINAL_TOKEN, " in response");
  }

  lemma FinishLoginClassified(script: Script, now: real, drift: real, slept: real)
    ensures Classified(FinishLogin(script, now, drift, slept).outcome)
  {
    hide IsPermanent, PostJson, AuthCode, Exchange, KeyOf;
    PostJsonClassified(script.pin.reply, "PIN verification", false);
    AuthCodeClassified(script.primary, script.fallback);
    ExchangeClassified(script.sdk);
    MarkedIsPermanent(NO_TEMP_TOKEN, " in PIN verification response data");
    var body := PostJson(script.pin.reply, "PIN verification", false);
    if body.Ok? {
      if body.value.Dict? {
        MarkedIsPermanent(PIN_FAILED, ": " + body.value.message);
      }
      KeyOfClassified(body.value, PIN_FAILED, NO_TEMP_TOKEN + " in PIN verification response data");
    }
  }

  lemma AfterCodeClassified(script: Script, body: Body, now: real, drift: real, slept: real)
    ensures Classified(AfterCode(script, body, now, drift, slept).outcome)
  {
    hide IsPermanent, KeyOf, FinishLogin;
    FinishLoginClassified(script, now, drift, slept);
    MarkedIsPermanent(NO_REQUEST_KEY, " in TOTP verification response");
    if body.Dict? {
      MarkedIsPermanent(TOTP_FAILED, " after retry" + (": " + body.message));
      assert TOTP_FAILED + (" after retry" + (": " + body.message)) == TOTP_FAILED + " after retry" + (": " + body.message);
    }
    KeyOfClassified(body, TOTP_FAILED + " after retry", NO_REQUEST_KEY + " in TOTP verification response");
  }

  /** Every authentication error any step can raise carries a permanent marker. */
  lemma LoginClassified(script: Script, setup: Setup, now: real, drift: real)
    ensures Classified(Login(script, setup, now, drift).outcome)
  {
    hide IsPermanent, PostJson, KeyOf, AfterCode;
    PostJsonClassified(script.otp.reply, "OTP request", false);
    PostJsonClassified(script.totp.reply, "TOTP verification", true);
    PostJsonClassified(script.totpRetry.reply, "TOTP retry verification", true);
    MarkedIsPermanent(NO_REQUEST_KEY, " in OTP request response");
    var body := PostJson(script.otp.reply, "OTP request", false);
    if body.Ok? {
      if body.value.Dict? {
        MarkedIsPermanent(OTP_FAILED, ": " + body.value.message);
      }
      KeyOfClassified(body.value, OTP_FAILED, NO_REQUEST_KEY + " in OTP request response");
    }
    forall b: Body, t: real, d: real, p: real
      ensures Classified(AfterCode(script, b, t, d, p).outcome)
    {
      AfterCodeClassified(script, b, t, d, p);
    }
  }

  /** Hops take between 0 and hopLimit seconds, the SDK between 0 and sdkLimit. */
  predicate Bounded(script: Script, hopLimit: real, sdkLimit: real) {
    && 0.0 <= script.otp.took <= hopLimit && 0.0 <= script.totp.took <= hopLimit && 0.0 <= script.totpRetry.took <= hopLimit
    && 0.0 <= script.pin.took <= hopLimit
    && 0.0 <= script.primary.took <= hopLimit && 0.0 <= script.fallback.took <= hopLimit
    && 0.0 <= script.sdkTook <= sdkLimit
  }

  lemma FinishTime(script: Script, now: real, drift: real, slept: real, hopLimit: real, sdkLimit: real)
    requires Bounded(script, hopLimit, sdkLimit)
    ensures now <= FinishLogin(script, now, drift, slept).end <= now + 3.0 * hopLimit + sdkLimit
    ensures FinishLogin(script, now, drift, slept).slept == slept
  {
    hide PostJson, KeyOf, Exchange;
  }

  /** One attempt: it sleeps at most once, never past half a second before the deadline, and takes at
      most six hops and the SDK step besides. */
  lemma LoginTime(script: Script, setup: Setup, now: real, drift: real, hopLimit: real, sdkLimit: real)
    requires Bounded(script, hopLimit, sdkLimit)
    ensures var a := Login(script, setup, now, drift);
            && a.slept >= 0.0 && now + a.slept <= a.end
            && (a.slept > 0.0 ==> now + a.slept <= setup.deadline - 0.5)
            && a.end <= Max(now, setup.deadline - 0.5) + 6.0 * hopLimit + sdkLimit
  {
    hide PostJson, KeyOf, FinishLogin, WindowPause, DriftAfter;
    forall t: real, d: real, p: real
      ensures t <= FinishLogin(script, t, d, p).end <= t + 3.0 * hopLimit + sdkLimit && FinishLogin(script, t, d, p).slept == p
    {
      FinishTime(script, t, d, p, hopLimit, sdkLimit);
    }
    forall wall: real, left: real
      ensures WindowPause(wall, setup.cap, left) <= Max(0.0, left - 0.5)
    {
      PauseWithinBudget(wall, setup.cap, left);
    }
  }

  lemma PauseWithinBudget(wall: real, cap: real, left: real)
    ensures WindowPause(wall, cap, left) <= Max(0.0, left - 0.5)
    ensures WindowPause(wall, cap, left) <= cap
  {}

  // ---------------------------------------------------------------- the inner retry's window

  /** The 30 s time step of a moment, as in section 4.2 of RFC 6238. */
  function TimeStep(wall: real): int {
    (wall / 30.0).Floor
  }

  /** Both the cap and the budget let the pause after a refusal reach the end of its time step. */
  predicate Reaches(wall: real, cap: real, left: real) {
    var toBoundary := 30.0 * (TimeStep(wall) + 1) as real - wall;
    cap >= toBoundary && left - 0.5 >= toBoundary
  }

  /** The pause ends in the step after the refusal if it reaches that far, and else in the same one. */
  lemma RetryReachesNextStep(wall: real, cap: real, left: real)
    requires wall >= 0.0
    ensures TimeStep(wall + Max(0.0, WindowPause(wall, cap, left))) ==
            TimeStep(wall) + if Reaches(wall, cap, left) then 1 else 0
  {
    var n := TimeStep(wall);
    var sec := wall.Floor;
    assert 30.0 * n as real <= wall < 30.0 * (n as real + 1.0);
    assert n as real + 1.0 == (n + 1) as real;
    assert 30 * n <= sec < 30 * (n + 1);
    assert sec % 30 == sec - 30 * n;
    var until := wall + Max(0.0, WindowPause(wall, cap, left));
    assert wall <= until < 30.0 * (n + 2) as real;
    StepAfter(until, n - 1);
    StepAfter(until, n);
    StepAfter(until, n + 1);
  }

  /** With enough of both, the pause ends between one and two seconds into the next step. */
  lemma FullPause(wall: real, cap: real, left: real)
    requires wall >= 0.0 && cap >= 31.0 && left >= 31.5
    ensures var next := 30.0 * (TimeStep(wall) + 1) as real;
            next + 1.0 <= wall + WindowPause(wall, cap, left) < next + 2.0
  {
    var n := TimeStep(wall);
    var sec := wall.Floor;
    assert 30.0 * n as real <= wall < 30.0 * (n as real + 1.0);
    assert n as real + 1.0 == (n + 1) as real;
    assert 30 * n <= sec < 30 * (n + 1);
    assert sec % 30 == sec - 30 * n;
  }

  /** The first code is computed and refused: the inner retry happens. */
  predicate Retries(script: Script) {
    && script.secretValid
    && (match PostJson(script.otp.reply, "OTP request", false) case Ok(Dict(ok, _, key)) => ok && key != "" case _ => false)
    && (match PostJson(script.totp.reply, "TOTP verification", true) case Ok(Dict(ok, _, _)) => !ok case _ => false)
  }

  /** The corrected wall time the first code is computed for, before it is sent. */
  function FirstCodeAt(script: Script, setup: Setup, now: real, drift: real): real {
    now + script.otp.took + setup.wallBase + DriftAfter(script.otp.reply, drift)
  }

  /** The corrected wall time at which it has been refused; a Date header may have moved the clock. */
  function RefusedAt(script: Script, setup: Setup, now: real, drift: real): real {
    now + script.otp.took + script.totp.took + setup.wallBase
    + DriftAfter(script.totp.reply, DriftAfter(script.otp.reply, drift))
  }

  function LeftAtRefusal(script: Script, setup: Setup, now: real): real {
    SecondsLeft(now + script.otp.took + script.totp.took, setup.deadline)
  }

  /** The corrected wall time the second code is computed for. */
  function SecondCodeAt(script: Script, setup: Setup, now: real, drift: real): real {
    RefusedAt(script, setup, now, drift) + Login(script, setup, now, drift).slept
  }

  lemma RetrySleeps(script: Script, setup: Setup, now: real, drift: real)
    requires Retries(script)
    ensures var wall, left := RefusedAt(script, setup, now, drift), LeftAtRefusal(script, setup, now);
            Login(script, setup, now, drift).slept == Max(0.0, WindowPause(wall, setup.cap, left))
  {
    hide PostJson, WindowPause, DriftAfter, AuthCode, Exchange;
    var wall, left := RefusedAt(script, setup, now, drift), LeftAtRefusal(script, setup, now);
    PauseWithinBudget(wall, setup.cap, left);
  }

  /** When the retry sends the refused code again, as its comment says it does not: exactly when the
      first code was computed for the step in which the second is, that is, for the step of the
      refusal unless the pause reaches the next one. */
  lemma SameCodeExactly(script: Script, setup: Setup, now: real, drift: real)
    requires Retries(script) && RefusedAt(script, setup, now, drift) >= 0.0
    ensures var first, refused := FirstCodeAt(script, setup, now, drift), RefusedAt(script, setup, now, drift);
            var reaches := Reaches(refused, setup.cap, LeftAtRefusal(script, setup, now));
            TimeStep(SecondCodeAt(script, setup, now, drift)) == TimeStep(first) <==>
            TimeStep(first) == TimeStep(refused) + if reaches then 1 else 0
  {
    hide Login, Retries, WindowPause, TimeStep, Reaches, RefusedAt, LeftAtRefusal;
    RetrySleeps(script, setup, now, drift);
    RetryReachesNextStep(RefusedAt(script, setup, now, drift), setup.cap, LeftAtRefusal(script, setup, now));
  }

  /** A first code refused after a hop of one second. */
  const REFUSED_ONCE: Script :=
    var yes, no := Dict(true, "", "key"), Dict(false, "wrong totp", "");
    var ok, wrong := Answer(200, Json(yes), None, ""), Answer(400, Json(no), None, "");
    Script(Hop(ok, 0.0), true, Hop(wrong, 1.0), Hop(ok, 0.0), Hop(ok, 0.0),
           CodeHop(CodeAnswer(308, Url("code")), 0.0), CodeHop(CodeAnswer(308, NoRedirect), 0.0),
           SdkReturned(yes), 0.0, 5.0)

  /** Computed one second into a step and refused at two, with the default cap of ten seconds and 58
      seconds of budget left: the retry sends the same code again. */
  lemma RetryCanRepeatTheCode()
    ensures var setup := Setup(60.0, 10.0, 0.0);
            && FirstCodeAt(REFUSED_ONCE, setup, 1.0, 0.0) == 1.0 && RefusedAt(REFUSED_ONCE, setup, 1.0, 0.0) == 2.0
            && SecondCodeAt(REFUSED_ONCE, setup, 1.0, 0.0) == 12.0
            && TimeStep(1.0) == TimeStep(12.0)
  {
    var setup := Setup(60.0, 10.0, 0.0);
    assert PostJson(REFUSED_ONCE.otp.reply, "OTP request", false) == Ok(Dict(true, "", "key"));
    assert PostJson(REFUSED_ONCE.totp.reply, "TOTP verification", true) == Ok(Dict(false, "wrong totp", ""));
    RetrySleeps(REFUSED_ONCE, setup, 1.0, 0.0);
    hide Login, PostJson;
    StepAfter(1.0, 0);
    StepAfter(12.0, 0);
    StepAfter(1.0, -1);
    StepAfter(12.0, -1);
  }

  lemma StepAfter(wall: real, n: int)
    ensures TimeStep(wall) > n <==> wall >= 30.0 * (n + 1) as real
  {
    if wall / 30.0 >= (n + 1) as real {
      assert TimeStep(wall) >= n + 1;
    } else {
      assert TimeStep(wall) as real <= wall / 30.0 < (n + 1) as real;
    }
  }
}
