/**
 * The POST /login route (api/user.js:159-223): the rate-limit middleware, then
 * a handler that trims the email and password, checks the email shape and the
 * password length, looks the user up by email, compares the password with the
 * stored hash, and on success resets the limiter's count for the client IP.
 * Any exception inside the handler is answered with 500.
 *
 * User.findOne and bcrypt.compare are oracles in LoginEnv. The limiter's
 * per-IP counts are the state of LoginRateLimiter: its Request method
 * counts the request, applies the 429 gate and performs the resetKey call.
 * The 15-minute window's expiry is not part of this model.
 */
module Login {
  import opened JsText
  import opened Patterns
  import opened Users

  /** The limiter's maximum (api/user.js:14): 5 requests per IP and window. */
  const MaxPerWindow: nat := 5

  /**
   * The two fields of the request body. None stands for a field that is missing
   * or not a string: calling .trim() on it throws inside the try block.
   */
  datatype LoginBody = LoginBody(email: Option<string>, password: Option<string>)

  /** What bcrypt.compare resolves to, or that it rejected. */
  datatype CompareResult = Matched | Mismatched | CompareFailed

  datatype LoginEnv = LoginEnv(
    findByEmail: string -> Lookup,                  // User.findOne({ email })
    compare: (string, string) -> CompareResult)     // bcrypt.compare(password, user.password)

  datatype LoginReply =
    | TooManyRequests
    | InvalidEmailFormat
    | PasswordTooShort
    | NoAccount
    | InvalidPassword
    | SignInSuccessful(data: UserRecord)
    | InternalServerError
  {
    function StatusCode(): nat {
      match this
      case TooManyRequests => 429
      case InvalidEmailFormat => 400
      case PasswordTooShort => 400
      case NoAccount => 404
      case InvalidPassword => 401
      case SignInSuccessful(_) => 200
      case InternalServerError => 500
    }

    function Status(): Status {
      if SignInSuccessful? then Success else Failed
    }

    function Message(): string {
      match this
      case TooManyRequests => "Too many requests, please try again later."
      case InvalidEmailFormat => "Invalid email format"
      case PasswordTooShort => "Password must be at least 8 characters long"
      case NoAccount => "No account associated with this email"
      case InvalidPassword => "Invalid password entered"
      case SignInSuccessful(_) => "Sign In Successful"
      case InternalServerError => "Internal Server Error"
    }
  }

  /** The steps of the handler, with the arguments handed to the oracles. */
  datatype LoginStep =
    | CheckEmailFormat
    | CheckPasswordLength
    | FindUser(email: string)
    | ComparePassword(plain: string, hash: string)
    | ResetLimit

  datatype LoginOutcome = LoginOutcome(reply: LoginReply, trace: seq<LoginStep>)

  /** The handler body inside its try block (api/user.js:160-221). */
  function HandleLogin(body: LoginBody, env: LoginEnv): (o: LoginOutcome)
    ensures o.reply != TooManyRequests
    ensures o.trace == [] <==> body.email.None? || body.password.None?
    ensures o.trace != [] ==> o.trace[0] == CheckEmailFormat
  {
    match (body.email, body.password)
    case (None, _) => LoginOutcome(InternalServerError, [])
    case (Some(_), None) => LoginOutcome(InternalServerError, [])
    case (Some(rawEmail), Some(rawPassword)) =>
      LoginChain(Trim(rawEmail), Trim(rawPassword), env)
  }

  /** The checks and calls after trimming (api/user.js:166-213). */
  function LoginChain(email: string, password: string, env: LoginEnv): (o: LoginOutcome)
    ensures o.reply != TooManyRequests
    ensures |o.trace| > 0 && o.trace[0] == CheckEmailFormat
    ensures o.reply.SignInSuccessful? ==> LoginEmailMatches(email) && |password| >= 8
  {
    var checked := [CheckEmailFormat, CheckPasswordLength, FindUser(email)];
    if !LoginEmailMatches(email) then LoginOutcome(InvalidEmailFormat, checked[..1])
    else if |password| < 8 then LoginOutcome(PasswordTooShort, checked[..2])
    else
      match env.findByEmail(email)
      case LookupFailed => LoginOutcome(InternalServerError, checked)
      case NotFound => LoginOutcome(NoAccount, checked)
      case Found(user) =>
        var compared := checked + [ComparePassword(password, user.password)];
        match env.compare(password, user.password)
        case CompareFailed => LoginOutcome(InternalServerError, compared)
        case Mismatched => LoginOutcome(InvalidPassword, compared)
        case Matched => LoginOutcome(SignInSuccessful(user), compared + [ResetLimit])
  }

  /** The route: the limiter answers 429 on its own, before the handler runs. */
  function LoginRoute(limited: bool, body: LoginBody, env: LoginEnv): (o: LoginOutcome)
    ensures o.reply == TooManyRequests <==> limited
  {
    if limited then LoginOutcome(TooManyRequests, []) else HandleLogin(body, env)
  }

  /** A request the limiter turns away reaches neither the store nor bcrypt. */
  lemma LimitedRequestDoesNoWork(body: LoginBody, env: LoginEnv)
    ensures LoginRoute(true, body, env) == LoginOutcome(TooManyRequests, [])
    ensures LoginRoute(true, body, env).reply.StatusCode() == 429
  {
  }

  /** A missing or non-string field makes .trim() throw: 500, and nothing is looked up. */
  lemma MissingFieldIsInternalError(body: LoginBody, env: LoginEnv)
    requires body.email.None? || body.password.None?
    ensures HandleLogin(body, env) == LoginOutcome(InternalServerError, [])
  {
  }

  /**
   * The decision of the handler for a body with both fields, in terms of the
   * trimmed email e and password p: each reply holds exactly when the checks
   * before it passed and its own condition holds.
   */
  lemma LoginDecision(body: LoginBody, env: LoginEnv)
    requires body.email.Some? && body.password.Some?
    ensures var e, p := Trim(body.email.value), Trim(body.password.value);
      var r := HandleLogin(body, env).reply;
      (r == InvalidEmailFormat <==> !LoginEmailMatches(e)) &&
      (r == PasswordTooShort <==> LoginEmailMatches(e) && |p| < 8) &&
      (r == NoAccount <==> LoginEmailMatches(e) && |p| >= 8 && env.findByEmail(e) == NotFound) &&
      (r == InvalidPassword <==>
        LoginEmailMatches(e) && |p| >= 8 && env.findByEmail(e).Found? &&
        env.compare(p, env.findByEmail(e).user.password) == Mismatched) &&
      (r.SignInSuccessful? <==>
        LoginEmailMatches(e) && |p| >= 8 && env.findByEmail(e).Found? &&
        env.compare(p, env.findByEmail(e).user.password) == Matched) &&
      (r == InternalServerError <==>
        LoginEmailMatches(e) && |p| >= 8 &&
        (env.findByEmail(e) == LookupFailed ||
         (env.findByEmail(e).Found? && env.compare(p, env.findByEmail(e).user.password) == CompareFailed)))
    ensures var r := HandleLogin(body, env).reply;
      r.SignInSuccessful? ==> r.data == env.findByEmail(Trim(body.email.value)).user
  {
    var e, p := Trim(body.email.value), Trim(body.password.value);
    LoginChainDecision(e, p, env);
  }

  lemma LoginChainDecision(e: string, p: string, env: LoginEnv)
    ensures var r := LoginChain(e, p, env).reply;
      (r == InvalidEmailFormat <==> !LoginEmailMatches(e)) &&
      (r == PasswordTooShort <==> LoginEmailMatches(e) && |p| < 8) &&
      (r == NoAccount <==> LoginEmailMatches(e) && |p| >= 8 && env.findByEmail(e) == NotFound) &&
      (r == InvalidPassword <==>
        LoginEmailMatches(e) && |p| >= 8 && env.findByEmail(e).Found? &&
        env.compare(p, env.findByEmail(e).user.password) == Mismatched) &&
      (r.SignInSuccessful? <==>
        LoginEmailMatches(e) && |p| >= 8 && env.findByEmail(e).Found? &&
        env.compare(p, env.findByEmail(e).user.password) == Matched) &&
      (r == InternalServerError <==>
        LoginEmailMatches(e) && |p| >= 8 &&
        (env.findByEmail(e) == LookupFailed ||
         (env.findByEmail(e).Found? && env.compare(p, env.findByEmail(e).user.password) == CompareFailed)))
    ensures var r := LoginChain(e, p, env).reply;
      r.SignInSuccessful? ==> r.data == env.findByEmail(e).user
  {
  }

  /**
   * Both 400 answers come before any lookup: the email shape is checked first,
   * whatever the password, and neither the store nor bcrypt is consulted.
   */
  lemma BadRequestBeforeLookup(body: LoginBody, env: LoginEnv)
    ensures var o := HandleLogin(body, env);
      o.reply.StatusCode() == 400 ==>
        |o.trace| > 0 && o.trace[0] == CheckEmailFormat &&
        forall step :: step in o.trace ==> !step.FindUser? && !step.ComparePassword?
    ensures var o := HandleLogin(body, env);
      o.reply == PasswordTooShort ==> o.trace == [CheckEmailFormat, CheckPasswordLength]
  {
    if body.email.Some? && body.password.Some? {
      var e, p := Trim(body.email.value), Trim(body.password.value);
      assert HandleLogin(body, env) == LoginChain(e, p, env);
      ChainBadRequestBeforeLookup(e, p, env);
    }
  }

  lemma ChainBadRequestBeforeLookup(e: string, p: string, env: LoginEnv)
    ensures var o := LoginChain(e, p, env);
      o.reply.StatusCode() == 400 ==>
        |o.trace| > 0 && o.trace[0] == CheckEmailFormat &&
        forall step :: step in o.trace ==> !step.FindUser? && !step.ComparePassword?
    ensures var o := LoginChain(e, p, env);
      o.reply == PasswordTooShort ==> o.trace == [CheckEmailFormat, CheckPasswordLength]
  {
  }

  /**
   * The steps behind a 404 and a 401: a 404 comes after exactly the two checks
   * and the lookup of the trimmed email, with no compare; a 401 after those and
   * one compare of the trimmed password with the stored hash of the user found.
   */
  lemma LookupRepliesTrace(body: LoginBody, env: LoginEnv)
    ensures var o := HandleLogin(body, env);
      o.reply == NoAccount ==>
        body.email.Some? &&
        o.trace == [CheckEmailFormat, CheckPasswordLength, FindUser(Trim(body.email.value))]
    ensures var o := HandleLogin(body, env);
      o.reply == InvalidPassword ==>
        body.email.Some? && body.password.Some? &&
        env.findByEmail(Trim(body.email.value)).Found? &&
        o.trace == [CheckEmailFormat, CheckPasswordLength, FindUser(Trim(body.email.value)),
                    ComparePassword(Trim(body.password.value),
                                    env.findByEmail(Trim(body.email.value)).user.password)]
  {
    if body.email.Some? && body.password.Some? {
      var e, p := Trim(body.email.value), Trim(body.password.value);
      assert HandleLogin(body, env) == LoginChain(e, p, env);
      ChainLookupRepliesTrace(e, p, env);
    }
  }

  lemma ChainLookupRepliesTrace(e: string, p: string, env: LoginEnv)
    ensures var o := LoginChain(e, p, env);
      o.reply == NoAccount ==> o.trace == [CheckEmailFormat, CheckPasswordLength, FindUser(e)]
    ensures var o := LoginChain(e, p, env);
      o.reply == InvalidPassword ==>
        env.findByEmail(e).Found? &&
        o.trace == [CheckEmailFormat, CheckPasswordLength, FindUser(e),
                    ComparePassword(p, env.findByEmail(e).user.password)]
  {
  }

  /**
   * Credentials that the signup checks accept pass both login checks: the
   * signup email expression is stricter than the login one, and a password the
   * signup expression accepts has at least eight characters. Such a request
   * always reaches the store.
   */
  lemma SignupCredentialsReachLookup(body: LoginBody, env: LoginEnv)
    requires body.email.Some? && body.password.Some?
    ensures SignupEmailMatches(Trim(body.email.value)) && PasswordMatches(Trim(body.password.value)) ==>
      |HandleLogin(body, env).trace| >= 3 &&
      HandleLogin(body, env).trace[2] == FindUser(Trim(body.email.value))
  {
    var e, p := Trim(body.email.value), Trim(body.password.value);
    assert HandleLogin(body, env) == LoginChain(e, p, env);
    if SignupEmailMatches(e) && PasswordMatches(p) {
      ChainSignupCredentialsReachLookup(e, p, env);
    }
  }

  lemma ChainSignupCredentialsReachLookup(e: string, p: string, env: LoginEnv)
    requires SignupEmailMatches(e) && PasswordMatches(p)
    ensures |LoginChain(e, p, env).trace| >= 3 && LoginChain(e, p, env).trace[2] == FindUser(e)
  {
    SignupEmailIsLoginEmail(e);
    LeadingRunIff(p, 8);
  }

  /** Only a full success resets the limiter, and it does so as the last step. */
  lemma ResetOnlyOnSuccess(body: LoginBody, env: LoginEnv)
    ensures var o := HandleLogin(body, env);
      (ResetLimit in o.trace <==> o.reply.SignInSuccessful?) &&
      (o.reply.SignInSuccessful? ==> |o.trace| > 0 && o.trace[|o.trace| - 1] == ResetLimit)
  {
    if body.email.Some? && body.password.Some? {
      var e, p := Trim(body.email.value), Trim(body.password.value);
      assert HandleLogin(body, env) == LoginChain(e, p, env);
      ChainResetOnlyOnSuccess(e, p, env);
    }
  }

  lemma ChainResetOnlyOnSuccess(e: string, p: string, env: LoginEnv)
    ensures var o := LoginChain(e, p, env);
      (ResetLimit in o.trace <==> o.reply.SignInSuccessful?) &&
      (o.reply.SignInSuccessful? ==> |o.trace| > 0 && o.trace[|o.trace| - 1] == ResetLimit)
  {
  }

  /** The password is compared only with the stored hash of the user found for the trimmed email. */
  lemma ComparedWithStoredHash(body: LoginBody, env: LoginEnv, plain: string, hash: string)
    ensures ComparePassword(plain, hash) in HandleLogin(body, env).trace ==>
      body.email.Some? && body.password.Some? &&
      plain == Trim(body.password.value) && |plain| >= 8 &&
      env.findByEmail(Trim(body.email.value)).Found? &&
      hash == env.findByEmail(Trim(body.email.value)).user.password
  {
    if body.email.Some? && body.password.Some? {
      var e, p := Trim(body.email.value), Trim(body.password.value);
      assert HandleLogin(body, env) == LoginChain(e, p, env);
      ChainComparedWithStoredHash(e, p, env, plain, hash);
    }
  }

  lemma ChainComparedWithStoredHash(e: string, p: string, env: LoginEnv, plain: string, hash: string)
    ensures ComparePassword(plain, hash) in LoginChain(e, p, env).trace ==>
      plain == p && |p| >= 8 && env.findByEmail(e).Found? && hash == env.findByEmail(e).user.password
  {
  }

  /** Scenario: a wrong password for jo@example.com, a known account, is answered 401. */
  lemma WrongPasswordIsUnauthorized(body: LoginBody, env: LoginEnv, user: UserRecord)
    requires body == LoginBody(Some("jo@example.com"), Some("Abcdef1!"))
    requires env.findByEmail("jo@example.com") == Found(user)
    requires env.compare("Abcdef1!", user.password) == Mismatched
    ensures HandleLogin(body, env).reply == InvalidPassword
  {
    KnownCredentials(body);
    ReachesLookup(body, env, body.email.value, body.password.value);
  }

  /** Scenario: jo@example.com with no account behind it is answered 404, before bcrypt runs. */
  lemma UnknownEmailIsNotFound(body: LoginBody, env: LoginEnv)
    requires body == LoginBody(Some("jo@example.com"), Some("Abcdef1!"))
    requires env.findByEmail("jo@example.com") == NotFound
    ensures HandleLogin(body, env) ==
      LoginOutcome(NoAccount, [CheckEmailFormat, CheckPasswordLength, FindUser("jo@example.com")])
  {
    KnownCredentials(body);
    ReachesLookup(body, env, body.email.value, body.password.value);
  }

  /** Fields that are already trimmed and pass both checks go to the store as they are. */
  lemma ReachesLookup(body: LoginBody, env: LoginEnv, e: string, p: string)
    requires body.email == Some(e) && body.password == Some(p)
    requires Trim(e) == e && Trim(p) == p && LoginEmailMatches(e) && |p| >= 8
    ensures env.findByEmail(e) == NotFound ==>
      HandleLogin(body, env) == LoginOutcome(NoAccount, [CheckEmailFormat, CheckPasswordLength, FindUser(e)])
    ensures env.findByEmail(e).Found? && env.compare(p, env.findByEmail(e).user.password) == Mismatched ==>
      HandleLogin(body, env).reply == InvalidPassword
  {
    assert HandleLogin(body, env) == LoginChain(e, p, env);
  }

  /** The credentials of the scenarios: already trimmed, a valid email, eight characters. */
  lemma KnownCredentials(body: LoginBody)
    requires body == LoginBody(Some("jo@example.com"), Some("Abcdef1!"))
    ensures Trim(body.email.value) == "jo@example.com" && Trim(body.password.value) == "Abcdef1!"
    ensures LoginEmailMatches("jo@example.com")
  {
    NoSurroundingSpace(body.email.value);
    NoSurroundingSpace(body.password.value);
    KnownEmail("jo@example.com");
  }

  lemma KnownEmail(email: string)
    requires email == "jo@example.com"
    ensures LoginEmailMatches(email)
  {
    assert LoginEmailParts(email, "jo", "example", "com");
    FormLoginEmailMatches(email, "jo", "example", "com");
  }

  /** The limiter's per-IP state, of which the handler uses only resetKey. */
  class LoginRateLimiter {
    /** Requests counted per client IP since its count was last reset; an absent IP counts zero. */
    var hits: map<string, nat>

    constructor ()
      ensures hits == map[]
    {
      hits := map[];
    }

    function Count(ip: string): nat
      reads this
    {
      if ip in hits then hits[ip] else 0
    }

    /** loginRateLimit.resetKey(ip): that IP starts again from zero; other IPs keep their counts. */
    method ResetKey(ip: string)
      modifies this
      ensures hits == old(hits) - {ip}
      ensures Count(ip) == 0
      ensures forall other :: other != ip ==> Count(other) == old(Count(other))
    {
      hits := hits - {ip};
    }

    /**
     * The middleware's verdict for the next request from ip: it counts that
     * request first and refuses it when the count then passes the maximum.
     */
    predicate RefusesNext(ip: string)
      reads this
    {
      Count(ip) + 1 > MaxPerWindow
    }

    /**
     * One request to POST /login from ip. The middleware counts it and turns
     * it away once the IP has more than MaxPerWindow requests in the window;
     * otherwise the handler runs, and a successful sign-in resets the IP's
     * count. Other IPs' counts never change.
     */
    method Request(ip: string, body: LoginBody, env: LoginEnv)
      returns (reply: LoginReply)
      modifies this
      ensures reply == LoginRoute(old(RefusesNext(ip)), body, env).reply
      ensures old(Count(ip)) >= MaxPerWindow ==> reply == TooManyRequests
      ensures reply.SignInSuccessful? ==> hits == old(hits) - {ip}
      ensures !reply.SignInSuccessful? ==> hits == old(hits)[ip := old(Count(ip)) + 1]
    {
      var limited := RefusesNext(ip);
      hits := hits[ip := Count(ip) + 1];
      var outcome := LoginRoute(limited, body, env);
      if ResetLimit in outcome.trace {
        ResetOnlyOnSuccess(body, env);
        ResetKey(ip);
      } else if !limited {
        ResetOnlyOnSuccess(body, env);
      }
      reply := outcome.reply;
    }
  }

  /**
   * From a fresh limiter, five failing attempts from one IP reach the handler
   * and get its answer; the sixth is refused with 429.
   */
  method SixthAttemptRefused(ip: string, body: LoginBody, env: LoginEnv)
    returns (replies: seq<LoginReply>)
    requires !HandleLogin(body, env).reply.SignInSuccessful?
    ensures |replies| == 6
    ensures forall i :: 0 <= i < 5 ==> replies[i] == HandleLogin(body, env).reply
    ensures replies[5] == TooManyRequests
  {
    var expected := HandleLogin(body, env).reply;
    var limiter := new LoginRateLimiter();
    var r1 := limiter.Request(ip, body, env);
    assert r1 == expected && limiter.Count(ip) == 1;
    var r2 := limiter.Request(ip, body, env);
    assert r2 == expected && limiter.Count(ip) == 2;
    var r3 := limiter.Request(ip, body, env);
    assert r3 == expected && limiter.Count(ip) == 3;
    var r4 := limiter.Request(ip, body, env);
    assert r4 == expected && limiter.Count(ip) == 4;
    var r5 := limiter.Request(ip, body, env);
    assert r5 == expected && limiter.Count(ip) == 5;
    var r6 := limiter.Request(ip, body, env);
    replies := [r1, r2, r3, r4, r5, r6];
  }
}
