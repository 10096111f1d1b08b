# User signup and login routes

This project is a Dafny model of the two routes in `api/user.js` of a small Express
and MongoDB user service. It models the parts of each route that make decisions.
`POST /signup` trims six fields and runs a chain of checks: empty fields, first and
second name, email shape, date of birth, password strength. It then asks the store
whether the username or the email is taken, hashes the password and saves the new
user document. `POST /login` sits behind a rate limiter (5 requests per IP in 15
minutes). It trims the email and password, checks the email shape and the password
length, looks the user up by email and compares the password with the stored hash.
On success it resets the limiter's count for the client IP.

Each route's handler is a pure function that returns its reply together with the
trace of the steps it took. The store, `Date.parse` and bcrypt are oracles:
function-typed fields of an environment value. That lets the lemmas state which
collaborators a request reaches, and with which arguments: the trace records the text
handed to `Date.parse`, to each lookup, to bcrypt and to compare. The document handed to
`save` is stated by `Signup.SignupSucceedsIff` and `Signup.SaveFailureReported`. The four regular
expressions are written as matchers that follow each expression's structure. Beside
each stands a reference description of the strings it accepts, and a lemma proves
that the two agree. The limiter's per-IP counts are the state of the class
`Login.LoginRateLimiter`. Its `Request` method counts the request, applies the 429 gate and performs `resetKey`.

Files:

- `js_text.dfy`: the ECMAScript white-space set, `trim()`, `indexOf`, ASCII classes.
- `users.dfy`: the user document and the store's answers.
- `patterns.dfy`: the name, signup-email, login-email and password expressions.
- `signup.dfy`: the signup handler.
- `login.dfy`: the login handler, the limiter gate and the limiter's state.

## Behaviour notes

- Every signup reply, failures included, goes out with `res.json`, so with HTTP status 200. The model's replies carry the exact status and message strings (`SignupReply.Message`, `LoginReply.Message`). Login replies carry their own HTTP codes (`LoginReply.StatusCode`).
- Where the usual reading of the code and the code itself differ, the model follows the code:
  - The signup email's last label is `[\w-]{2,4}`, so digits, `_` and `-` are accepted there, not only letters.
  - `[\w-\.]` is word characters, `-` and `.`.
  - The password expression asks for no digit.
  - Its lookaheads use `.`, so they see only the text before the first line terminator.
  - A password has to pass both the trim and the expression.
- A login field that is missing or not a string makes `.trim()` throw inside the `try`, which is answered with 500. The model has this case.

## Model

| member | source | states |
|---|---|---|
| Patterns.NameMatches | api/user.js:50-57 | the name test `/^[a-zA-Z ]+$/`: a name that passes is non-empty and holds no digit, hyphen or apostrophe. The exact set it accepts is stated by `Patterns.NameMatchesIff` |
| Patterns.SignupEmailMatches | api/user.js:64 | the signup email test: an address that passes holds exactly one `@` and no white space. The exact set is stated by `Patterns.SignupEmailIff` |
| Patterns.DomainMatches | api/user.js:64 | the part `([\w-]+\.)+[\w-]{2,4}$` after the `@`: a domain that passes holds no `@` and no white space |
| Patterns.LoginEmailMatches | api/user.js:167-168 | the login email test: an address that passes holds exactly one `@` and no white space. The exact set is stated by `Patterns.LoginEmailIff` |
| Patterns.PasswordMatches | api/user.js:78 | the password test: a password that passes has at least 8 characters. The exact set is stated by `Patterns.PasswordMatchesIff` |
| Patterns.LeadingRun | api/user.js:78 | `(?=.{n,})`: when it holds, the text has at least n characters. The exact condition is stated by `Patterns.LeadingRunIff` |
| Signup.HandleSignup | api/user.js:23-40 | the handler on the raw body: its trace is a non-empty prefix of the ten-step plan for the trimmed fields, and success implies the six checks passed on the trimmed fields. Its full behaviour is stated by `Signup.SignupFollowsPlan` and `Signup.SignupSucceedsIff` |
| Signup.SignupChain | api/user.js:43-153 | the chain on the trimmed fields: its trace is a non-empty prefix of the plan, and success implies all six checks passed and the whole plan ran. See `Signup.SignupFollowsPlan` |
| Signup.SaveFailureReported | api/user.js:119-131 | a failed save is answered with the store's error detail, after all checks passed, neither lookup found a user and the hash succeeded. The document refused is the trimmed input with the hash of the trimmed password |
| Login.HandleLogin | api/user.js:160-164 | the handler with its `try`: it never answers 429. Its trace is empty exactly when a field is missing or not a string, and otherwise it starts with the email check. See `Login.MissingFieldIsInternalError` and `Login.LoginDecision` |
| Login.LoginChain | api/user.js:166-213 | the checks and calls after trimming: the trace starts with the email check, success implies both checks passed, and it never answers 429. See `Login.LoginDecision` and `Login.LookupRepliesTrace` |
| Login.LoginRoute | api/user.js:159 | the route with the limiter in front: the reply is 429 exactly when the limiter refuses the request. See `Login.LimitedRequestDoesNoWork` |
| JsText.Trim | api/user.js:35-40 | the result is a cut `s[i..j]` with only ECMAScript white space or line terminators outside it, and neither end of the cut is white space |
| JsText.TrimUnique | api/user.js:163-164 | any such cut is exactly what `trim()` returns, so the trimmed text is determined by the input |
| JsText.TrimIdempotent | api/user.js:35-40 | trimming a trimmed string changes nothing |
| JsText.TrimKeepsTrimmed | api/user.js:35-40 | a string that neither starts nor ends with white space is returned unchanged |
| JsText.NoSurroundingSpace | api/user.js:35-40 | a string that starts and ends with a word character or `!` is returned unchanged by `trim()` |
| Patterns.NameMatchesIff | api/user.js:50-57 | `/^[a-zA-Z ]+$/` accepts a name if and only if it is non-empty and every character is an ASCII letter or a space |
| Patterns.NameRejectsDigitHyphenApostrophe | api/user.js:50-62 | `/^[a-zA-Z ]+$/` refuses any name with a digit, a hyphen or an apostrophe anywhere in it |
| Patterns.SignupEmailIff | api/user.js:64-69 | the signup email test accepts exactly `local@label1.….labelN.tld`: the local part is one or more of `[A-Za-z0-9_.-]`, there are one or more labels of `[A-Za-z0-9_-]`, and the tld is 2 to 4 of `[A-Za-z0-9_-]` |
| Patterns.SignupRefusesLocalChar | api/user.js:64 | a character outside `[A-Za-z0-9_.-]` before the first `@` makes the signup email test fail |
| Patterns.LoginEmailIff | api/user.js:167-173 | the login email test accepts exactly `a@b.c` where a, b and c are non-empty and hold no white space and no `@` |
| Patterns.SignupEmailIsLoginEmail | api/user.js:64 | every email the signup test accepts is accepted by the login test |
| Patterns.LoginEmailIsLooser | api/user.js:167 | the converse fails: `jo+tag@example.com` passes at login and is refused at signup |
| Patterns.LookaheadFindsIff | api/user.js:78 | `(?=.*[k])` holds at the start exactly when the text before the first line terminator contains a character of class k |
| Patterns.LeadingRunIff | api/user.js:78 | `(?=.{8,})` holds exactly when the text before the first line terminator has at least 8 characters |
| Patterns.PasswordMatchesIff | api/user.js:78-83 | the password test accepts exactly the passwords whose first line has a lower-case letter, an upper-case letter, one of the 20 special characters of the expression and at least 8 characters |
| Patterns.PasswordWithoutLineBreak | api/user.js:78 | for a password without line terminators the same rule applies to the whole password |
| Patterns.PasswordNeedsNoDigit | api/user.js:78-83 | no digit is required: `Abcdefg!` passes |
| Patterns.PasswordLineBreakHidesTail | api/user.js:78 | a special character after a line break is not seen: `Abcdefgh\n!` fails |
| Signup.SignupFollowsPlan | api/user.js:43-153 | the steps run in the fixed order empty, first name, second name, email, date of birth, password, username lookup, email lookup, hash, save. The reply is the failure of the first failing step, and no later step is reached. When every step passes, the reply is success with the document built from the trimmed fields and the hash |
| Signup.EmptyFieldAnsweredFirst | api/user.js:42-48 | a field that is empty after trimming gives "Empty Input Fields!" and nothing else is checked or looked up |
| Signup.NameWithForbiddenCharRejected | api/user.js:43-62 | when no field is empty after trimming, a digit, hyphen or apostrophe in the trimmed first name gives the first-name reply. In the second name, once the first is accepted, it gives the second-name reply |
| Signup.UsernameTakenSkipsEmailLookup | api/user.js:85-97 | once the six checks pass, a taken username is answered as such, and the email lookup, the hash and the save are never made |
| Signup.SignupSucceedsIff | api/user.js:105-124 | signup succeeds if and only if every check passes, neither lookup finds a user, and hash and save succeed. The saved and returned document is the trimmed input with the password replaced by the hash of the trimmed password |
| Signup.SignupIgnoresSurroundingSpace | api/user.js:34-40 | a body whose fields are already trimmed gets the same reply and the same steps |
| Signup.JoLeeSignsUp | api/user.js:23-124 | a concrete signup with a free username and email succeeds and stores the hash instead of the password |
| Login.LimitedRequestDoesNoWork | api/user.js:12-19 | a request the limiter turns away gets 429 with its message, and the handler takes no step |
| Login.MissingFieldIsInternalError | api/user.js:160-164 | a missing or non-string email or password gives 500 and nothing is looked up |
| Login.LoginDecision | api/user.js:166-213 | for trimmed email e and password p, each reply holds if and only if the checks before it passed and its own condition holds. Invalid email format iff the email test fails. Too short iff the email passes and `p` has fewer than 8 characters. 404 iff the lookup finds nobody. 401 iff compare says no. 500 iff the lookup or the compare fails. Success iff compare says yes, and the reply carries the user found |
| Login.BadRequestBeforeLookup | api/user.js:166-184 | a 400 reply comes before any lookup or compare. The email is checked first, whatever the password |
| Login.SignupCredentialsReachLookup | api/user.js:166-184 | an email and a password that the signup checks accept pass both login checks, and the user is looked up by the trimmed email |
| Login.ComparedWithStoredHash | api/user.js:184-195 | the password compared is the trimmed password (at least 8 characters). The hash it is compared with is the stored password of the user found for the trimmed email |
| Login.ResetOnlyOnSuccess | api/user.js:205-213 | the limiter is reset if and only if sign-in succeeds, and then as the last step |
| Login.LookupRepliesTrace | api/user.js:183-202 | for every body: a 404 comes after exactly the email check, the length check and the lookup of the trimmed email, with no compare. A 401 comes after those steps and one compare of the trimmed password with the stored hash of the user found |
| Login.WrongPasswordIsUnauthorized | api/user.js:194-202 | scenario: for the body `jo@example.com` / `Abcdef1!`, a known account and a mismatching compare, the reply is 401 |
| Login.UnknownEmailIsNotFound | api/user.js:183-191 | scenario: for the body `jo@example.com` / `Abcdef1!` with no account, the reply is 404 after exactly the two checks and the lookup, with no compare |
| Login.LoginRateLimiter.constructor | api/user.js:12-19 | a fresh limiter holds no counts |
| Login.LoginRateLimiter.ResetKey | api/user.js:206 | `resetKey(ip)` drops the count of that IP and keeps every other IP's count |
| Login.LoginRateLimiter.Request | api/user.js:12-19 | one request from an IP: the middleware counts it, and refuses it with 429 once the IP already has 5 counted requests. Otherwise the handler's reply is returned. A successful sign-in removes the IP's count (line 206); any other reply leaves it one higher. Other IPs' counts are unchanged |
| Login.SixthAttemptRefused | api/user.js:12-19 | from a fresh limiter, five failing attempts from one IP get the handler's reply and the sixth gets 429 |

## Left out

- Login.LoginRateLimiter.Request: the 15-minute window (`windowMs`) is not modelled. Counts only go back to zero through `resetKey`; the clearing of counts when a window ends belongs to `express-rate-limit`'s store and its timer, which are not part of this model.
- `Date.parse` is an oracle (`parsesAsDate`). Its grammar of accepted date strings belongs to the JavaScript engine.
- bcrypt is an oracle: `hash` and `compare`. Salting, the cost factor 10 and the digest format are not modelled.
- The store (`User.findOne`, `save`) is an oracle. Races between the existence lookups and the save are not modelled: each request is seen alone against a fixed store.
- The `dateOfBirth` field keeps its trimmed text. The store's own conversion to a Date is not part of this model.
- A signup body with a missing or non-string field makes `.trim()` throw inside the route handler, outside any `try` or `.catch`. Express then answers with its default 500 error page. That is not part of this model: the signup fields are taken to be strings.
- JSON formatting of replies, the `data: err` detail of a save failure beyond an opaque text, and `console.log` output are not modelled.
- A Dafny `char` is a Unicode scalar value; the UTF-16 code units of a JavaScript string are not modelled one by one. A character outside the Basic Multilingual Plane counts once here, where JavaScript counts its two surrogate code units, and a lone surrogate cannot occur. This changes only the two length-8 checks.
- The Express app, the routing, the database connection and the schema definition are not part of this model.
