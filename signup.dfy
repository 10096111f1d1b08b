/**
 * The POST /signup handler (api/user.js:23-155): trim the six fields, run the
 * validation chain, then the two existence lookups, the hash and the save, and
 * answer with exactly one FAILED or SUCCESS reply.
 *
 * The handler's collaborators are oracles in SignupEnv: Date.parse, the two
 * User.findOne queries, bcrypt.hash and newUser.save. The handler is a function
 * that returns its reply together with the trace of the steps it took, so that
 * "no later step is consulted" can be stated.
 */
module Signup {
  import opened JsText
  import opened Patterns
  import opened Users

  /** The six fields of the request body, all present as strings. */
  datatype SignupBody = SignupBody(
    firstName: string,
    secondName: string,
    dateOfBirth: string,
    username: string,
    email: string,
    password: string)

  datatype HashResult = Hashed(digest: string) | HashFailed
  datatype SaveResult = Saved | SaveFailed(detail: string)

  /** The outside world as the handler sees it. */
  datatype SignupEnv = SignupEnv(
    parsesAsDate: string -> bool,          // !isNaN(Date.parse(text))
    findByUsername: string -> Lookup,      // User.findOne({ username })
    findByEmail: string -> Lookup,         // User.findOne({ email })
    hash: string -> HashResult,            // bcrypt.hash(password, 10)
    save: UserRecord -> SaveResult)        // newUser.save()

  /** The replies of the handler; each is sent with res.json, so with HTTP 200. */
  datatype SignupReply =
    | EmptyInputFields
    | InvalidFirstName
    | InvalidSecondName
    | InvalidEmail
    | InvalidDob
    | WeakPassword
    | UsernameTaken
    | EmailTaken
    | LookupError
    | HashError
    | SaveError(detail: string)
    | SignupSuccessful(data: UserRecord)
  {
    function Status(): Status {
      if SignupSuccessful? then Success else Failed
    }

    function Message(): string {
      match this
      case EmptyInputFields => "Empty Input Fields!"
      case InvalidFirstName => "Invalid First Name Entered"
      case InvalidSecondName => "Invalid Second Name Entered"
      case InvalidEmail => "Invalid email Entered"
      case InvalidDob => "Invalid DOB Entered"
      case WeakPassword =>
        "Password must be at least 8 characters long and contain at least one uppercase letter, one lowercase letter, and one special character!"
      case UsernameTaken => "Username already exists. Please choose a different username."
      case EmailTaken => "User with provided email already exists!"
      case LookupError => "An error occurred while checking for existing user!"
      case HashError => "An error occurred while hashing the password!"
      case SaveError(_) => "An error occurred while saving user account"
      case SignupSuccessful(_) => "Signup Successful"
    }
  }

  /** The steps of the handler, with the argument handed to each oracle. */
  datatype Step =
    | CheckEmpty
    | CheckFirstName
    | CheckSecondName
    | CheckEmail
    | ParseDob(text: string)
    | CheckPassword
    | FindUsername(username: string)
    | FindEmail(email: string)
    | HashPassword(plain: string)
    | SaveUser

  datatype SignupOutcome = SignupOutcome(reply: SignupReply, trace: seq<Step>)

  function TrimFields(b: SignupBody): SignupBody {
    SignupBody(Trim(b.firstName), Trim(b.secondName), Trim(b.dateOfBirth),
               Trim(b.username), Trim(b.email), Trim(b.password))
  }

  predicate HasEmptyField(f: SignupBody) {
    f.firstName == "" || f.secondName == "" || f.dateOfBirth == "" ||
    f.username == "" || f.email == "" || f.password == ""
  }

  /** The document built from the trimmed fields, with the hash in place of the password. */
  function NewUser(f: SignupBody, digest: string): UserRecord {
    UserRecord(f.firstName, f.secondName, f.dateOfBirth, f.username, f.email, digest)
  }

  /** The six validation checks of api/user.js:43-83 all pass. */
  predicate PassesValidation(f: SignupBody, env: SignupEnv) {
    !HasEmptyField(f) && NameMatches(f.firstName) && NameMatches(f.secondName) &&
    SignupEmailMatches(f.email) && env.parsesAsDate(f.dateOfBirth) && PasswordMatches(f.password)
  }

  /** The order of the steps in the source, for trimmed fields f. */
  function SignupPlan(f: SignupBody): seq<Step> {
    [CheckEmpty, CheckFirstName, CheckSecondName, CheckEmail, ParseDob(f.dateOfBirth),
     CheckPassword, FindUsername(f.username), FindEmail(f.email), HashPassword(f.password),
     SaveUser]
  }

  /** The handler: trim every field (api/user.js:35-40), then run the chain. */
  function HandleSignup(body: SignupBody, env: SignupEnv): (o: SignupOutcome)
    ensures 0 < |o.trace| <= |SignupPlan(TrimFields(body))|
    ensures o.trace == SignupPlan(TrimFields(body))[..|o.trace|]
    ensures o.reply.SignupSuccessful? ==> PassesValidation(TrimFields(body), env)
  {
    SignupChain(TrimFields(body), env)
  }

  /** The validation chain and the lookup, hash and save chain on the trimmed fields (api/user.js:43-153). */
  function SignupChain(f: SignupBody, env: SignupEnv): (o: SignupOutcome)
    ensures 0 < |o.trace| <= |SignupPlan(f)| && o.trace == SignupPlan(f)[..|o.trace|]
    ensures o.reply.SignupSuccessful? ==> PassesValidation(f, env) && o.trace == SignupPlan(f)
  {
    var plan := SignupPlan(f);
    if HasEmptyField(f) then SignupOutcome(EmptyInputFields, plan[..1])
    else if !NameMatches(f.firstName) then SignupOutcome(InvalidFirstName, plan[..2])
    else if !NameMatches(f.secondName) then SignupOutcome(InvalidSecondName, plan[..3])
    else if !SignupEmailMatches(f.email) then SignupOutcome(InvalidEmail, plan[..4])
    else if !env.parsesAsDate(f.dateOfBirth) then SignupOutcome(InvalidDob, plan[..5])
    else if !PasswordMatches(f.password) then SignupOutcome(WeakPassword, plan[..6])
    else
      match env.findByUsername(f.username)
      case LookupFailed => SignupOutcome(LookupError, plan[..7])
      case Found(_) => SignupOutcome(UsernameTaken, plan[..7])
      case NotFound =>
        match env.findByEmail(f.email)
        case LookupFailed => SignupOutcome(LookupError, plan[..8])
        case Found(_) => SignupOutcome(EmailTaken, plan[..8])
        case NotFound =>
          match env.hash(f.password)
          case HashFailed => SignupOutcome(HashError, plan[..9])
          case Hashed(digest) =>
            var user := NewUser(f, digest);
            match env.save(user)
            case SaveFailed(detail) => SignupOutcome(SaveError(detail), plan)
            case Saved => SignupOutcome(SignupSuccessful(user), plan)
  }

  /**
   * What each step decides on its own: None when it lets the request through,
   * Some(reply) with the reply it fails with.
   */
  function Verdict(step: Step, f: SignupBody, env: SignupEnv): Option<SignupReply> {
    match step
    case CheckEmpty => if HasEmptyField(f) then Some(EmptyInputFields) else None
    case CheckFirstName => if NameMatches(f.firstName) then None else Some(InvalidFirstName)
    case CheckSecondName => if NameMatches(f.secondName) then None else Some(InvalidSecondName)
    case CheckEmail => if SignupEmailMatches(f.email) then None else Some(InvalidEmail)
    case ParseDob(text) => if env.parsesAsDate(text) then None else Some(InvalidDob)
    case CheckPassword => if PasswordMatches(f.password) then None else Some(WeakPassword)
    case FindUsername(name) =>
      (match env.findByUsername(name)
       case NotFound => None
       case Found(_) => Some(UsernameTaken)
       case LookupFailed => Some(LookupError))
    case FindEmail(address) =>
      (match env.findByEmail(address)
       case NotFound => None
       case Found(_) => Some(EmailTaken)
       case LookupFailed => Some(LookupError))
    case HashPassword(plain) => if env.hash(plain).Hashed? then None else Some(HashError)
    case SaveUser =>
      (match env.hash(f.password)
       case HashFailed => Some(HashError)
       case Hashed(digest) =>
         (match env.save(NewUser(f, digest))
          case SaveFailed(detail) => Some(SaveError(detail))
          case Saved => None))
  }

  /**
   * o is what running the plan for f in order and stopping at the first failing
   * step gives: the trace is a prefix of the plan, every step in it but the last
   * lets the request through, and the reply is the last step's failure or, when
   * every step passed, the success reply with the saved document.
   */
  ghost predicate FollowsPlan(o: SignupOutcome, f: SignupBody, env: SignupEnv) {
    var plan := SignupPlan(f);
    0 < |o.trace| <= |plan| && o.trace == plan[..|o.trace|] &&
    (forall i :: 0 <= i < |o.trace| - 1 ==> Verdict(o.trace[i], f, env) == None) &&
    match Verdict(o.trace[|o.trace| - 1], f, env)
    case Some(failure) => o.reply == failure
    case None =>
      o.trace == plan && env.hash(f.password).Hashed? &&
      o.reply == SignupSuccessful(NewUser(f, env.hash(f.password).digest))
  }

  /** Stopping at step k of the plan with the reply that step fails with. */
  lemma StopsAt(f: SignupBody, env: SignupEnv, k: int, reply: SignupReply)
    requires 1 <= k <= |SignupPlan(f)|
    requires forall i :: 0 <= i < k - 1 ==> Verdict(SignupPlan(f)[i], f, env) == None
    requires Verdict(SignupPlan(f)[k - 1], f, env) == Some(reply)
    ensures FollowsPlan(SignupOutcome(reply, SignupPlan(f)[..k]), f, env)
  {
    var trace := SignupPlan(f)[..k];
    assert forall i :: 0 <= i < k ==> trace[i] == SignupPlan(f)[i];
  }

  /**
   * The checks run in the fixed order empty, first name, second name, email,
   * date of birth, password, username taken, email taken, hash, save, and the
   * handler answers with the failure of the first step that fails; no later
   * step is consulted.
   */
  lemma SignupFollowsPlan(body: SignupBody, env: SignupEnv)
    ensures FollowsPlan(HandleSignup(body, env), TrimFields(body), env)
  {
    ChainFollowsPlan(TrimFields(body), env);
  }

  lemma ChainFollowsPlan(f: SignupBody, env: SignupEnv)
    ensures FollowsPlan(SignupChain(f, env), f, env)
  {
    if HasEmptyField(f) {
      StopsAt(f, env, 1, EmptyInputFields);
    } else if !NameMatches(f.firstName) {
      StopsAt(f, env, 2, InvalidFirstName);
    } else if !NameMatches(f.secondName) {
      StopsAt(f, env, 3, InvalidSecondName);
    } else if !SignupEmailMatches(f.email) {
      StopsAt(f, env, 4, InvalidEmail);
    } else if !env.parsesAsDate(f.dateOfBirth) {
      StopsAt(f, env, 5, InvalidDob);
    } else if !PasswordMatches(f.password) {
      StopsAt(f, env, 6, WeakPassword);
    } else {
      StoreChainFollowsPlan(f, env);
    }
  }

  /** The part after validation: lookups, hash and save. */
  lemma StoreChainFollowsPlan(f: SignupBody, env: SignupEnv)
    requires PassesValidation(f, env)
    ensures FollowsPlan(SignupChain(f, env), f, env)
  {
    var plan := SignupPlan(f);
    assert forall i :: 0 <= i < 6 ==> Verdict(plan[i], f, env) == None;
    match env.findByUsername(f.username)
    case LookupFailed => StopsAt(f, env, 7, LookupError);
    case Found(_) => StopsAt(f, env, 7, UsernameTaken);
    case NotFound =>
      match env.findByEmail(f.email)
      case LookupFailed => StopsAt(f, env, 8, LookupError);
      case Found(_) => StopsAt(f, env, 8, EmailTaken);
      case NotFound =>
        match env.hash(f.password)
        case HashFailed => StopsAt(f, env, 9, HashError);
        case Hashed(digest) =>
          match env.save(NewUser(f, digest))
          case SaveFailed(detail) => StopsAt(f, env, 10, SaveError(detail));
          case Saved =>
            assert plan[..10] == plan;
            assert forall i :: 0 <= i < 9 ==> Verdict(plan[i], f, env) == None;
  }

  /**
   * A failed save is reported with the store's error detail, and the document
   * the store refused is the trimmed input with the hash of the trimmed password.
   */
  lemma SaveFailureReported(body: SignupBody, env: SignupEnv)
    ensures var f := TrimFields(body);
      HandleSignup(body, env).reply.SaveError? ==>
        PassesValidation(f, env) &&
        env.findByUsername(f.username) == NotFound && env.findByEmail(f.email) == NotFound &&
        env.hash(f.password).Hashed? &&
        env.save(NewUser(f, env.hash(f.password).digest)) ==
          SaveFailed(HandleSignup(body, env).reply.detail)
  {
    ChainSaveFailureReported(TrimFields(body), env);
  }

  lemma ChainSaveFailureReported(f: SignupBody, env: SignupEnv)
    ensures SignupChain(f, env).reply.SaveError? ==>
      PassesValidation(f, env) &&
      env.findByUsername(f.username) == NotFound && env.findByEmail(f.email) == NotFound &&
      env.hash(f.password).Hashed? &&
      env.save(NewUser(f, env.hash(f.password).digest)) == SaveFailed(SignupChain(f, env).reply.detail)
  {
  }

  /** An empty field after trimming is reported first, whatever the other fields and the store hold. */
  lemma EmptyFieldAnsweredFirst(body: SignupBody, env: SignupEnv)
    requires HasEmptyField(TrimFields(body))
    ensures HandleSignup(body, env) == SignupOutcome(EmptyInputFields, [CheckEmpty])
  {
    assert SignupPlan(TrimFields(body))[..1] == [CheckEmpty];
  }

  /**
   * A digit, hyphen or apostrophe in the first name gives the first-name reply,
   * and in the second name (once the first name is accepted) the second-name reply.
   */
  lemma NameWithForbiddenCharRejected(body: SignupBody, env: SignupEnv, k: int)
    requires !HasEmptyField(TrimFields(body))
    ensures var f := TrimFields(body);
      0 <= k < |f.firstName| && (IsAsciiDigit(f.firstName[k]) || f.firstName[k] in "-'") ==>
        HandleSignup(body, env).reply == InvalidFirstName
    ensures var f := TrimFields(body);
      NameMatches(f.firstName) &&
      0 <= k < |f.secondName| && (IsAsciiDigit(f.secondName[k]) || f.secondName[k] in "-'") ==>
        HandleSignup(body, env).reply == InvalidSecondName
  {
    var f := TrimFields(body);
    if 0 <= k < |f.firstName| && (IsAsciiDigit(f.firstName[k]) || f.firstName[k] in "-'") {
      NameRejectsDigitHyphenApostrophe(f.firstName, k);
    }
    if 0 <= k < |f.secondName| && (IsAsciiDigit(f.secondName[k]) || f.secondName[k] in "-'") {
      NameRejectsDigitHyphenApostrophe(f.secondName, k);
    }
  }

  /**
   * A taken username is reported as such and the email lookup is never made,
   * even when the email is taken as well; nothing is hashed or saved.
   */
  lemma UsernameTakenSkipsEmailLookup(body: SignupBody, env: SignupEnv)
    ensures var f := TrimFields(body);
      PassesValidation(f, env) && env.findByUsername(f.username).Found? ==>
        HandleSignup(body, env).reply == UsernameTaken &&
        forall step :: step in HandleSignup(body, env).trace ==>
          !step.FindEmail? && !step.HashPassword? && !step.SaveUser?
  {
    ChainUsernameTakenSkipsEmailLookup(TrimFields(body), env);
  }

  lemma ChainUsernameTakenSkipsEmailLookup(f: SignupBody, env: SignupEnv)
    ensures PassesValidation(f, env) && env.findByUsername(f.username).Found? ==>
      SignupChain(f, env).reply == UsernameTaken &&
      forall step :: step in SignupChain(f, env).trace ==>
        !step.FindEmail? && !step.HashPassword? && !step.SaveUser?
  {
    if PassesValidation(f, env) && env.findByUsername(f.username).Found? {
      var trace := SignupPlan(f)[..7];
      assert SignupChain(f, env).trace == trace;
      forall step | step in trace ensures !step.FindEmail? && !step.HashPassword? && !step.SaveUser? {
        var i :| 0 <= i < 7 && trace[i] == step;
      }
    }
  }

  /**
   * Signup succeeds exactly when every check passes, neither lookup finds a
   * user, and the hash and the save go through. The saved document is the
   * trimmed input with the password replaced by the hash of the trimmed
   * password, and that document is what the reply carries.
   */
  lemma SignupSucceedsIff(body: SignupBody, env: SignupEnv)
    ensures var f := TrimFields(body);
      HandleSignup(body, env).reply.SignupSuccessful? <==>
        PassesValidation(f, env) &&
        env.findByUsername(f.username) == NotFound && env.findByEmail(f.email) == NotFound &&
        env.hash(f.password).Hashed? && env.save(NewUser(f, env.hash(f.password).digest)) == Saved
    ensures var f := TrimFields(body);
      HandleSignup(body, env).reply.SignupSuccessful? ==>
        env.hash(f.password).Hashed? &&
        HandleSignup(body, env).reply.data == UserRecord(
          Trim(body.firstName), Trim(body.secondName), Trim(body.dateOfBirth),
          Trim(body.username), Trim(body.email), env.hash(Trim(body.password)).digest)
  {
  }

  /** Fields that are already trimmed get the same answer: trimming twice changes nothing. */
  lemma SignupIgnoresSurroundingSpace(body: SignupBody, env: SignupEnv)
    ensures HandleSignup(TrimFields(body), env) == HandleSignup(body, env)
  {
    TrimIdempotent(body.firstName);
    TrimIdempotent(body.secondName);
    TrimIdempotent(body.dateOfBirth);
    TrimIdempotent(body.username);
    TrimIdempotent(body.email);
    TrimIdempotent(body.password);
    assert TrimFields(TrimFields(body)) == TrimFields(body);
  }

  /**
   * Jo Lee signs up with a free username and email: the answer is SUCCESS and
   * the stored password is the hash, not "Abcdef1!".
   */
  lemma JoLeeSignsUp(body: SignupBody, env: SignupEnv, digest: string)
    requires body == SignupBody("Jo", "Lee", "1990-01-01", "jolee", "jo@example.com", "Abcdef1!")
    requires env.parsesAsDate("1990-01-01")
    requires env.findByUsername("jolee") == NotFound && env.findByEmail("jo@example.com") == NotFound
    requires env.hash("Abcdef1!") == Hashed(digest)
    requires env.save(UserRecord("Jo", "Lee", "1990-01-01", "jolee", "jo@example.com", digest)) == Saved
    ensures HandleSignup(body, env).reply ==
      SignupSuccessful(UserRecord("Jo", "Lee", "1990-01-01", "jolee", "jo@example.com", digest))
  {
    JoLeeIsTrimmed(body);
    JoLeeIsWellFormed(body);
  }

  lemma JoLeeIsTrimmed(body: SignupBody)
    requires body == SignupBody("Jo", "Lee", "1990-01-01", "jolee", "jo@example.com", "Abcdef1!")
    ensures TrimFields(body) == body
  {
    NoSurroundingSpace(body.firstName);
    NoSurroundingSpace(body.secondName);
    NoSurroundingSpace(body.dateOfBirth);
    NoSurroundingSpace(body.username);
    NoSurroundingSpace(body.email);
    NoSurroundingSpace(body.password);
  }

  lemma JoLeeIsWellFormed(f: SignupBody)
    requires f == SignupBody("Jo", "Lee", "1990-01-01", "jolee", "jo@example.com", "Abcdef1!")
    ensures !HasEmptyField(f) && NameMatches(f.firstName) && NameMatches(f.secondName)
    ensures SignupEmailMatches(f.email) && PasswordMatches(f.password)
  {
    JoLeeNames(f.firstName, f.secondName);
    JoLeeEmail(f.email);
    JoLeePassword(f.password);
  }

  lemma JoLeeNames(first: string, second: string)
    requires first == "Jo" && second == "Lee"
    ensures NameMatches(first) && NameMatches(second)
  {
  }

  lemma JoLeeEmail(email: string)
    requires email == "jo@example.com"
    ensures SignupEmailMatches(email)
  {
    assert Dotted(["example"]) == "example.";
    assert SignupEmailParts(email, "jo", ["example"], "com");
    FormSignupEmailMatches(email, "jo", ["example"], "com");
  }

  lemma JoLeePassword(password: string)
    requires password == "Abcdef1!"
    ensures PasswordMatches(password)
  {
    PasswordWithoutLineBreak(password);
    assert In(Lower, password[1]) && In(Upper, password[0]) && In(Special, password[7]);
  }
}
