/**
 What one request and one whole login come to, in terms of what the network and the SDK answered:
 which answers give a body, which are worth another attempt, and exactly when a token comes out.
 */
module TokenOutcomes {
  import opened Options
  import opened TokenSteps

  // ---------------------------------------------------------------- one request

  predicate ClientStatus(status: int) {
    400 <= status < 500
  }

  /** The answer carries this JSON body and is no error, or is a 4xx dictionary the step accepts. */
  predicate Gives(reply: Reply, accept4xxJson: bool, body: Body) {
    && reply.Answer? && reply.content == Json(body)
    && (reply.status < 400 || (accept4xxJson && ClientStatus(reply.status) && body.Dict?))
  }

  predicate GivesAny(reply: Reply, accept4xxJson: bool) {
    reply.Answer? && reply.content.Json? && Gives(reply, accept4xxJson, reply.content.body)
  }

  /** No answer, a server error or too many requests, or an unreadable body that the installed version
      of requests reports as its own exception. */
  predicate Transient(reply: Reply, accept4xxJson: bool) {
    match reply
    case TimedOut(_) => true
    case Broken(_) => true
    case Answer(status, content, _, _) =>
      !GivesAny(reply, accept4xxJson) &&
      (status >= 500 || status == 429 || (status < 400 && content == NotJson(true)))
  }

  /** A request gives its body, fails with a connection error, or fails for good, by its answer. */
  lemma PostJsonExactly(reply: Reply, step: string, accept4xxJson: bool)
    ensures var o := PostJson(reply, step, accept4xxJson);
            && (o.Ok? <==> GivesAny(reply, accept4xxJson))
            && (o.Ok? ==> Gives(reply, accept4xxJson, o.value))
            && (o.Err? && o.error.ConnectionError? <==> Transient(reply, accept4xxJson))
            && (o.Err? ==> o.error.ConnectionError? || o.error.AuthError?)
  {}

  // ---------------------------------------------------------------- one login

  /** The answer says ok and has the key the next step needs. */
  predicate Grants(reply: Reply, accept4xxJson: bool) {
    GivesAny(reply, accept4xxJson) && reply.content.body.Dict? && reply.content.body.ok && reply.content.body.key != ""
  }

  predicate Rejects(reply: Reply, accept4xxJson: bool) {
    GivesAny(reply, accept4xxJson) && reply.content.body.Dict? && !reply.content.body.ok
  }

  /** A one-time code was accepted, at once or after the inner retry. */
  predicate CodeAccepted(script: Script) {
    Grants(script.totp.reply, true) || (Rejects(script.totp.reply, true) && Grants(script.totpRetry.reply, true))
  }

  predicate Lost(reply: CodeReply) {
    match reply
    case CodeAnswer(status, _) => status >= 500 || status == 429
    case _ => true
  }

  predicate Asked(script: Script) {
    !Lost(script.primary.reply) && script.primary.reply.redirect.NoRedirect?
  }

  predicate Redirects(reply: CodeReply) {
    !Lost(reply) && reply.redirect.Url? && reply.redirect.code != ""
  }

  /** The authorization code came from the primary address, or from the fallback if the primary gave
      no redirect at all. */
  predicate CodeGiven(script: Script) {
    Redirects(script.primary.reply) || (Asked(script) && Redirects(script.fallback.reply))
  }

  predicate Succeeds(script: Script) {
    && Grants(script.otp.reply, false) && script.secretValid && CodeAccepted(script)
    && Grants(script.pin.reply, false) && CodeGiven(script)
    && script.sdk.SdkReturned? && script.sdk.body.Dict? && script.sdk.body.ok && script.sdk.body.key != ""
  }

  /** The first step that does not go well is one that lost its connection. */
  predicate LosesConnection(script: Script) {
    || Transient(script.otp.reply, false)
    || (Grants(script.otp.reply, false) && script.secretValid &&
        (|| Transient(script.totp.reply, true)
         || (Rejects(script.totp.reply, true) && Transient(script.totpRetry.reply, true))
         || (CodeAccepted(script) &&
             (|| Transient(script.pin.reply, false)
              || (Grants(script.pin.reply, false) &&
                  (|| Lost(script.primary.reply)
                   || (Asked(script) && Lost(script.fallback.reply))
                   || (CodeGiven(script) && script.sdk == SdkTimedOut)))))))
  }

  lemma CodeExactly(primary: CodeHop, fallback: CodeHop, script: Script)
    requires script.primary == primary && script.fallback == fallback
    ensures var (code, took) := AuthCode(primary, fallback);
            && (code.Ok? <==> CodeGiven(script))
            && (code.Err? && code.error.ConnectionError? <==>
                Lost(primary.reply) || (Asked(script) && Lost(fallback.reply)))
            && took == primary.took + if Asked(script) then fallback.took else 0.0
  {}

  lemma FinishExactly(script: Script, now: real, drift: real, slept: real)
    ensures var a := FinishLogin(script, now, drift, slept);
            && (a.outcome.Ok? <==>
                && Grants(script.pin.reply, false) && CodeGiven(script)
                && script.sdk.SdkReturned? && script.sdk.body.Dict? && script.sdk.body.ok && script.sdk.body.key != "")
            && (a.outcome.Ok? ==>
                  && a.outcome.value == script.sdk.body.key && a.drift == DriftAfter(script.pin.reply, drift)
                  && a.end == now + script.pin.took + script.primary.took
                              + (if Asked(script) then script.fallback.took else 0.0) + script.sdkTook)
            && (a.outcome.Err? && a.outcome.error.ConnectionError? <==>
                || Transient(script.pin.reply, false)
                || (Grants(script.pin.reply, false) &&
                    (|| Lost(script.primary.reply)
                     || (Asked(script) && Lost(script.fallback.reply))
                     || (CodeGiven(script) && script.sdk == SdkTimedOut))))
  {
    PostJsonExactly(script.pin.reply, "PIN verification", false);
    CodeExactly(script.primary, script.fallback, script);
    hide PostJson, GivesAny, AuthCode, CodeGiven, Asked, Lost, Transient;
  }

  lemma AfterCodeExactly(script: Script, body: Body, now: real, drift: real, slept: real)
    ensures body.Dict? && body.ok && body.key != "" ==>
              AfterCode(script, body, now, drift, slept) == FinishLogin(script, now, drift, slept)
    ensures !(body.Dict? && body.ok && body.key != "") ==>
              var o := AfterCode(script, body, now, drift, slept).outcome; o.Err? && !o.error.ConnectionError?
  {
    hide FinishLogin;
  }

  /** A login returns a token exactly when every step goes well, the token is the one the SDK returned,
      and it took the hops it made and the time it slept. */
  lemma LoginSucceedsExactly(script: Script, setup: Setup, now: real, drift: real)
    ensures var a := Login(script, setup, now, drift);
            && (a.outcome.Ok? <==> Succeeds(script))
            && (a.outcome.Ok? ==>
                  && a.outcome.value == script.sdk.body.key
                  && a.end == now + script.otp.took + script.totp.took + a.slept
                              + (if Rejects(script.totp.reply, true) then script.totpRetry.took else 0.0)
                              + script.pin.took + script.primary.took
                              + (if Asked(script) then script.fallback.took else 0.0) + script.sdkTook)
  {
    PostJsonExactly(script.otp.reply, "OTP request", false);
    PostJsonExactly(script.totp.reply, "TOTP verification", true);
    PostJsonExactly(script.totpRetry.reply, "TOTP retry verification", true);
    forall body: Body, t: real, d: real, p: real
      ensures body.Dict? && body.ok && body.key != "" ==>
                AfterCode(script, body, t, d, p) == FinishLogin(script, t, d, p)
      ensures !(body.Dict? && body.ok && body.key != "") ==> AfterCode(script, body, t, d, p).outcome.Err?
    {
      AfterCodeExactly(script, body, t, d, p);
    }
    forall t: real, d: real, p: real
      ensures var a := FinishLogin(script, t, d, p);
              && (a.outcome.Ok? <==>
                  && Grants(script.pin.reply, false) && CodeGiven(script)
                  && script.sdk.SdkReturned? && script.sdk.body.Dict? && script.sdk.body.ok && script.sdk.body.key != "")
              && (a.outcome.Ok? ==>
                    && a.outcome.value == script.sdk.body.key
                    && a.end == t + script.pin.took + script.primary.took
                                + (if Asked(script) then script.fallback.took else 0.0) + script.sdkTook)
              && a.slept == p
    {
      FinishExactly(script, t, d, p);
      FinishSleeps(script, t, d, p);
    }
    hide PostJson, AfterCode, FinishLogin, CodeGiven, Asked, DriftAfter, WindowPause, SleepCapped, Transient;
  }

  lemma FinishSleeps(script: Script, now: real, drift: real, slept: real)
    ensures FinishLogin(script, now, drift, slept).slept == slept
  {
    hide PostJson, KeyOf, Exchange;
  }

  /** The body cannot be read as a dictionary. */
  predicate Garbles(reply: Reply, accept4xxJson: bool) {
    GivesAny(reply, accept4xxJson) && reply.content.body.Unreadable?
  }

  predicate BadRedirect(script: Script) {
    || (!Lost(script.primary.reply) && script.primary.reply.redirect.BadUrl?)
    || (Asked(script) && !Lost(script.fallback.reply) && script.fallback.reply.redirect.BadUrl?)
  }

  lemma FinishEscapes(script: Script, now: real, drift: real, slept: real)
    ensures var o := FinishLogin(script, now, drift, slept).outcome;
            && (o.Err? && o.error.OtherError? <==>
                Garbles(script.pin.reply, false) || (Grants(script.pin.reply, false) && BadRedirect(script)))
            && !(o.Err? && o.error.ConfigError?)
  {
    PostJsonExactly(script.pin.reply, "PIN verification", false);
    hide PostJson, GivesAny;
  }

  /** The first step that does not go well has an answer or a redirect that cannot be read. */
  predicate Escapes(script: Script) {
    || Garbles(script.otp.reply, false)
    || (Grants(script.otp.reply, false) && script.secretValid &&
        (|| Garbles(script.totp.reply, true)
         || (Rejects(script.totp.reply, true) && Garbles(script.totpRetry.reply, true))
         || (CodeAccepted(script) &&
             (Garbles(script.pin.reply, false) || (Grants(script.pin.reply, false) && BadRedirect(script))))))
  }

  /** The login raises a configuration error exactly when the secret turns out invalid, and another
      exception than the module's own exactly when an answer or the redirect cannot be read. */
  lemma LoginErrorClasses(script: Script, setup: Setup, now: real, drift: real)
    ensures var o := Login(script, setup, now, drift).outcome;
            && (o.Err? && o.error.ConfigError? <==> Grants(script.otp.reply, false) && !script.secretValid)
            && (o.Err? && o.error.OtherError? <==> Escapes(script))
  {
    PostJsonExactly(script.otp.reply, "OTP request", false);
    PostJsonExactly(script.totp.reply, "TOTP verification", true);
    PostJsonExactly(script.totpRetry.reply, "TOTP retry verification", true);
    forall t: real, d: real, p: real
      ensures var o := FinishLogin(script, t, d, p).outcome;
              && (o.Err? && o.error.OtherError? <==>
                  Garbles(script.pin.reply, false) || (Grants(script.pin.reply, false) && BadRedirect(script)))
              && !(o.Err? && o.error.ConfigError?)
    {
      FinishEscapes(script, t, d, p);
    }
    hide PostJson, FinishLogin, BadRedirect, DriftAfter, WindowPause, SleepCapped;
  }

  /** And it fails in a way worth another attempt exactly when the first step that does not go well
      lost its connection. */
  lemma LoginRetriedExactly(script: Script, setup: Setup, now: real, drift: real)
    ensures var a := Login(script, setup, now, drift);
            a.outcome.Err? && a.outcome.error.ConnectionError? <==> LosesConnection(script)
  {
    PostJsonExactly(script.otp.reply, "OTP request", false);
    PostJsonExactly(script.totp.reply, "TOTP verification", true);
    PostJsonExactly(script.totpRetry.reply, "TOTP retry verification", true);
    forall body: Body, t: real, d: real, p: real
      ensures body.Dict? && body.ok && body.key != "" ==>
                AfterCode(script, body, t, d, p) == FinishLogin(script, t, d, p)
      ensures !(body.Dict? && body.ok && body.key != "") ==>
                var o := AfterCode(script, body, t, d, p).outcome; o.Err? && !o.error.ConnectionError?
    {
      AfterCodeExactly(script, body, t, d, p);
    }
    forall t: real, d: real, p: real
      ensures var a := FinishLogin(script, t, d, p);
              (a.outcome.Err? && a.outcome.error.ConnectionError? <==>
                || Transient(script.pin.reply, false)
                || (Grants(script.pin.reply, false) &&
                    (|| Lost(script.primary.reply)
                     || (Asked(script) && Lost(script.fallback.reply))
                     || (CodeGiven(script) && script.sdk == SdkTimedOut))))
    {
      FinishExactly(script, t, d, p);
    }
    hide PostJson, AfterCode, FinishLogin, CodeGiven, Asked, DriftAfter, WindowPause, SleepCapped, Lost;
    hide Transient;
  }

  predicate Undated(reply: Reply) {
    reply.Answer? ==> reply.drift.None?
  }

  /** A login that got through leaves the clock drift of the last answer that had a Date. */
  lemma LoginDrift(script: Script, setup: Setup, now: real, drift: real)
    requires Succeeds(script)
    ensures var a := Login(script, setup, now, drift);
            && (script.pin.reply.drift.Some? ==> a.drift == script.pin.reply.drift.value)
            && (script.pin.reply.drift.None? && !Rejects(script.totp.reply, true) && script.totp.reply.drift.Some? ==>
                  a.drift == script.totp.reply.drift.value)
            && (script.pin.reply.drift.None? && Rejects(script.totp.reply, true) && script.totpRetry.reply.drift.Some? ==>
                  a.drift == script.totpRetry.reply.drift.value)
            && (Undated(script.totp.reply) && Undated(script.totpRetry.reply) && Undated(script.pin.reply) ==>
                  a.drift == if Undated(script.otp.reply) then drift else script.otp.reply.drift.value)
  {
    PostJsonExactly(script.otp.reply, "OTP request", false);
    PostJsonExactly(script.totp.reply, "TOTP verification", true);
    PostJsonExactly(script.totpRetry.reply, "TOTP retry verification", true);
    forall body: Body, t: real, d: real, p: real
      ensures body.Dict? && body.ok && body.key != "" ==>
                AfterCode(script, body, t, d, p) == FinishLogin(script, t, d, p)
    {
      AfterCodeExactly(script, body, t, d, p);
    }
    forall t: real, d: real, p: real
      ensures FinishLogin(script, t, d, p).drift == DriftAfter(script.pin.reply, d)
    {
      FinishExactly(script, t, d, p);
    }
    hide PostJson, AfterCode, FinishLogin, CodeGiven, Asked, WindowPause, SleepCapped, Transient;
  }
}
