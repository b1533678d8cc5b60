# Blog app account forms and authentication routes, in Dafny

This project models the credential handling of a small blogging application:

- the client-side validation chain that the register, login and account-settings
  forms run before they send anything (an empty-field check, then a username rule,
  an email rule on the register and settings forms, and a password rule, in that order);
- what each form does with the outcome: the register form routes a 400 message to
  the username or email field, the login and settings forms dispatch a START action
  followed by exactly one SUCCESS or FAILURE, the settings form builds the update
  body and attaches `profilePic` only when a file is chosen, and the delete button
  dispatches `DELETE_USER` only after a confirmed, successful delete;
- the server's `/register` and `/login` handlers over a user store that is a
  sequence of `{username, email, password}` records.

Modules, one per component:

| file | module | models |
|---|---|---|
| `credential_rules.dfy` | `CredentialRules` | the three regular expressions as character-level predicates, each proved equal to a literal reading of its pattern |
| `form_checks.dfy` | `FormChecks` | the ordered check chain, its first failure, and each form's copy of it |
| `session.dfy` | `Session` | the dispatched actions, a form's single log of dispatches and requests, and the shape its dispatches keep |
| `auth.dfy` | `Auth` | the user store, `/register` and `/login` |
| `register_page.dfy` | `RegisterPage` | the register form's state and `handleSubmit` |
| `login_page.dfy` | `LoginPage` | the login form's state, `handleSubmit` and the disabled button |
| `settings_page.dfy` | `SettingsPage` | the settings form's state, `handleSubmit` and `handleDelete` |
| `wrappers.dfy` | `Wrappers` | `Option` |

Each form is a class whose fields are its React state variables (plus one log of
the actions it dispatches and the requests it sends, in the order they happen); `handleSubmit` is a method with
the same early returns as the source, proved against a pure function of the
fields (`RegisterFirstFailure` and its siblings). Replies from the network, the
user's answer to the delete confirmation and the current time are method
parameters. bcrypt is a `Crypto` value holding a hash and a compare function; the
handlers' one assumption about it, that a password compares equal to its own
salted hash, is the predicate `CompareAcceptsOwnHash`, taken as a hypothesis
where it is needed.

Readings of the code worth stating:

- `\s` is read as the ECMAScript whitespace set: the line terminators LF, CR,
  U+2028 and U+2029, TAB, VT, FF, SPACE, U+00A0, U+FEFF, U+1680, U+2000 to U+200A,
  U+202F, U+205F and U+3000. `\d` and the letter ranges are ASCII only.
- The email pattern `[^\s@]+@[^\s@]+\.[^\s@]+` admits exactly one `@`, since no
  piece may contain one. Reading the address rule as "at least one `@`" would
  accept more than the pattern does; the model follows the pattern.
- The password look-aheads use `.`, which does not cross a line terminator; since
  the rest of the pattern admits only letters, digits and `@$!%*?&`, this never
  matters (`LookaheadOverPasswordChars`).
- The register route answers success with the saved record, hashed password
  included, while the login route strips the password. The model keeps both as
  written: `Registered` carries a full `User`, `LoggedIn` a `PublicUser`.
- The login form sends the values of the two input elements, which the `onChange`
  handlers keep equal to the state variables; the model sends the state values.

## Model

| member | source | states |
|---|---|---|
| `CredentialRules.UsernameMatchesShape` | frontend/src/pages/register/Register.jsx:25-26 | a string passes the username rule iff it is one ASCII letter followed by 5 to 29 letters, digits or underscores, so 6 to 30 characters in all |
| `CredentialRules.EmailMatchesShape` | frontend/src/pages/register/Register.jsx:35-36 | no whitespace, exactly one `@` not in first place, and a `.` after it with a character on each side holds iff the string splits as non-empty local part, `@`, non-empty domain, `.`, non-empty top part, none containing whitespace or `@` |
| `CredentialRules.ValidEmailHasShape` | frontend/src/pages/register/Register.jsx:35-36 | the character-level email rule implies the literal split of the pattern |
| `CredentialRules.ShapeIsValidEmail` | frontend/src/pages/register/Register.jsx:35-36 | the literal split of the pattern implies the character-level email rule |
| `CredentialRules.PasswordMatchesShape` | frontend/src/pages/register/Register.jsx:43-44 | length at least 8, only `[A-Za-z0-9@$!%*?&]`, and one each of lower-case, upper-case, digit and symbol holds iff the four look-aheads and the `{8,}` body of the pattern all match |
| `CredentialRules.LookaheadOverPasswordChars` | frontend/src/pages/register/Register.jsx:43 | on a string of password characters, a look-ahead `(?=.*[k])` succeeds iff some character is in class `k` |
| `CredentialRules.Without` | frontend/src/pages/register/Register.jsx:43 | removing a character class leaves no character of it, keeps only characters of the input and keeps every other character |
| `CredentialRules.MissingClassRejected` | frontend/src/pages/register/Register.jsx:43-44 | a string with every character of one required class removed fails the password rule |
| `CredentialRules.ScenarioCredentialsValid` | frontend/src/pages/register/Register.jsx:25-44 | `alice01`, `a@example.com` and `Abcdef1!` pass the username, email and password rules |
| `FormChecks.FirstFailure` | frontend/src/pages/register/Register.jsx:18-50 | the result is None iff every check passes; otherwise it is a check that fails and every earlier check passes |
| `FormChecks.VerdictIsFirstComplaint` | frontend/src/pages/register/Register.jsx:18-50 | when checks before position k pass and check k fails, the message shown is check k's |
| `FormChecks.VerdictOfThree` | frontend/src/pages/login/Login.jsx:19-43 | a three-check chain reports the message of its first failing check, or nothing |
| `FormChecks.VerdictOfFour` | frontend/src/pages/register/Register.jsx:18-50 | a four-check chain reports the message of its first failing check, or nothing |
| `FormChecks.RegisterFirstFailure` | frontend/src/pages/register/Register.jsx:18-50 | no message iff all three fields are non-empty and pass their rules; an empty field gives "Please fill in all fields."; otherwise the username, email and password messages in that order |
| `FormChecks.LoginFirstFailure` | frontend/src/pages/login/Login.jsx:19-43 | no message iff both fields are non-empty and pass the username and password rules; the empty-field, username and password messages in that order; never the email message |
| `FormChecks.SettingsFirstFailure` | frontend/src/pages/setting/Settings.jsx:21-53 | the same case table as the register form |
| `FormChecks.SettingsAgreesWithRegister` | frontend/src/pages/setting/Settings.jsx:21-53 | the settings form's chain decides exactly as the register form's on every input |
| `FormChecks.LoginAgreesWithRegister` | frontend/src/pages/login/Login.jsx:19-43 | for any non-empty valid email, the login chain decides as the register chain on the same username and password |
| `Session.Dispatched` | frontend/src/pages/login/Login.jsx:45-54 | the dispatches of a form's log are no more than its entries, and a log that starts with a dispatch has that action first |
| `Session.DispatchedKeepsEvery` | frontend/src/pages/login/Login.jsx:45-54 | every action dispatched anywhere in a form's log is among its dispatches |
| `Session.DispatchedConcat` | frontend/src/pages/login/Login.jsx:45-54 | the dispatches of two logs laid end to end are those of the first followed by those of the second |
| `Session.SendsDispatchNothing` | frontend/src/pages/login/Login.jsx:47 | a log holding only requests dispatches nothing |
| `Session.ExchangeDispatched` | frontend/src/pages/login/Login.jsx:45-54 | a START, any requests, then one action, dispatch exactly the START and that action |
| `Session.AppendKeepsWellFormed` | frontend/src/pages/setting/Settings.jsx:84-90 | appending a log with well-formed dispatches to one with well-formed dispatches keeps them well formed |
| `Session.TraceConcat` | frontend/src/pages/login/Login.jsx:45-54 | two well-formed dispatch logs concatenate to a well-formed log |
| `Session.WellFormedStartsWithNoOutcome` | frontend/src/pages/login/Login.jsx:45-54 | a non-empty well-formed log does not begin with a SUCCESS or FAILURE |
| `Session.StartSettledOnce` | frontend/src/pages/login/Login.jsx:45-54 | in a well-formed log every START is followed at once by its SUCCESS or FAILURE, and not by a second outcome |
| `Session.LoginExchangeWellFormed` | frontend/src/pages/login/Login.jsx:45-54 | `LOGIN_START` then one login outcome is a well-formed log |
| `Session.UpdateExchangeWellFormed` | frontend/src/pages/setting/Settings.jsx:55-81 | `UPDATE_START` then one update outcome is a well-formed log |
| `Auth.FindByUsername` | backend/routes/auth.js:9-11 | finds nothing iff no record has the username; what it finds is a stored record with that username |
| `Auth.FindByEmail` | backend/routes/auth.js:17 | finds nothing iff no record has the email; what it finds is a stored record with that email |
| `Auth.FindUnique` | backend/routes/auth.js:41 | in a store with unique usernames, looking up a record's username finds that record |
| `Auth.FindAppended` | backend/routes/auth.js:25-31 | a record saved under a username no record had is what a later lookup of that username finds |
| `Auth.AppendKeepsUnique` | backend/routes/auth.js:9-31 | appending a record with a fresh username and a fresh email keeps usernames and emails unique |
| `Auth.UserStore.Register` | backend/routes/auth.js:6-32 | a taken username gives 400 "Username is already in use." even when the email is taken too; a taken email alone gives 400 "Email is already in use."; both leave the store unchanged; otherwise exactly one record with the hashed password is appended and returned with 200; uniqueness is preserved; the new user can then log in with the same password |
| `Auth.WithoutPassword` | backend/routes/auth.js:51 | defines the `{ password, ...others }` projection: the record's username and email, with no password field |
| `Auth.UserStore.Login` | backend/routes/auth.js:39-53 | an unknown username and a wrong password give the identical 400 "Wrong Credentials!"; success returns the matching record without its password; with unique usernames, success holds iff some record has the username and a password that compares equal |
| `RegisterPage.Contains` | frontend/src/pages/register/Register.jsx:63-67 | defines JavaScript's `includes`: some position of the message starts a copy of the word |
| `RegisterPage.ContainsWithin` | frontend/src/pages/register/Register.jsx:63-67 | a message holds every word placed between a prefix and a suffix |
| `RegisterPage.LongerNotContained` | frontend/src/pages/register/Register.jsx:63-67 | a word longer than the message is not in it |
| `RegisterPage.FieldFor` | frontend/src/pages/register/Register.jsx:63-71 | defines the routing of a 400 message: under the username field when it includes "Username", else under the email field when it includes "Email", else under neither |
| `RegisterPage.ConflictsReachTheirFields` | frontend/src/pages/register/Register.jsx:61-71 | the register route's username conflict is shown under the username field, its email conflict under the email field, and the login route's message under neither |
| `RegisterPage.AbsentInitialNoMatch` | frontend/src/pages/register/Register.jsx:63-67 | helper for `ConflictsReachTheirFields`, a general fact about strings: a message lacking the first letter of a word, such as "Username" or "Email", does not contain that word |
| `RegisterPage.RegisterForm.constructor` | frontend/src/pages/register/Register.jsx:7-12 | all fields start empty and no error is shown |
| `RegisterPage.RegisterForm.SetUsername` | frontend/src/pages/register/Register.jsx:92 | the username field takes the typed value |
| `RegisterPage.RegisterForm.SetEmail` | frontend/src/pages/register/Register.jsx:100 | the email field takes the typed value |
| `RegisterPage.RegisterForm.SetPassword` | frontend/src/pages/register/Register.jsx:108 | the password field takes the typed value |
| `RegisterPage.RegisterForm.HandleSubmit` | frontend/src/pages/register/Register.jsx:14-81 | a failing check shows its message and sends nothing; otherwise exactly one request is sent; success with data goes to `/login`; a 400 message containing "Username" sets the username error and clears the email error, else one containing "Email" does the reverse, else nothing changes; any other failure clears both field errors and shows the generic message |
| `LoginPage.Outcome` | frontend/src/pages/login/Login.jsx:46-54 | the action settling a login is `LOGIN_SUCCESS` with the response data iff the request succeeded, and `LOGIN_FAILURE` otherwise |
| `LoginPage.Exchange` | frontend/src/pages/login/Login.jsx:45-54 | one login exchange is `LOGIN_START`, then the request with the entered username and password, then one entry whose dispatches with the first are exactly `LOGIN_START` and the reply's outcome |
| `LoginPage.ExchangeKeepsLogWellFormed` | frontend/src/pages/login/Login.jsx:45-54 | appending one login exchange to a log with well-formed dispatches keeps them well formed |
| `LoginPage.LoginForm.constructor` | frontend/src/pages/login/Login.jsx:11-13 | the fields start empty, no error, an empty log |
| `LoginPage.LoginForm.SetUsername` | frontend/src/pages/login/Login.jsx:67 | the username field takes the typed value |
| `LoginPage.LoginForm.SetPassword` | frontend/src/pages/login/Login.jsx:75 | the password field takes the typed value |
| `LoginPage.LoginForm.HandleSubmit` | frontend/src/pages/login/Login.jsx:15-55 | a failing check shows its message and the log is unchanged; otherwise the log grows by `LOGIN_START`, then the request, then exactly one outcome, so `LOGIN_START` precedes the request in the log, and the dispatches stay well formed |
| `LoginPage.LoginForm.Click` | frontend/src/pages/login/Login.jsx:77 | when `isFetching` is true a click changes neither the message nor the log; otherwise it is a submit, with the same log growth |
| `SettingsPage.UserPath` | frontend/src/pages/setting/Settings.jsx:75 | defines the path `"/users/" + user._id` used by both the update and the delete |
| `SettingsPage.BuildUpdate` | frontend/src/pages/setting/Settings.jsx:56-67 | the update body carries the user's id and the entered fields; `profilePic` is set iff a file is chosen, and then equals the name the upload sends, the time text followed by the file name |
| `SettingsPage.Outcome` | frontend/src/pages/setting/Settings.jsx:74-81 | the action settling an update is `UPDATE_SUCCESS` with the response data iff the update succeeded, and `UPDATE_FAILURE` otherwise |
| `SettingsPage.Exchange` | frontend/src/pages/setting/Settings.jsx:55-81 | one update exchange is `UPDATE_START` first, then the upload named by the time text and file name iff a file is chosen, then the update carrying the entered fields and that `profilePic`, then the outcome; its dispatches are exactly `UPDATE_START` and the outcome |
| `SettingsPage.ExchangeKeepsLogWellFormed` | frontend/src/pages/setting/Settings.jsx:55-81 | appending an exchange that dispatches `UPDATE_START` and one outcome keeps a log's dispatches well formed |
| `SettingsPage.SettingsForm.constructor` | frontend/src/pages/setting/Settings.jsx:8-14 | no file, empty fields, `success` false, an empty log |
| `SettingsPage.SettingsForm.SetFile` | frontend/src/pages/setting/Settings.jsx:122 | the chosen file is recorded |
| `SettingsPage.SettingsForm.SetUsername` | frontend/src/pages/setting/Settings.jsx:129 | the username field takes the typed value |
| `SettingsPage.SettingsForm.SetEmail` | frontend/src/pages/setting/Settings.jsx:135 | the email field takes the typed value |
| `SettingsPage.SettingsForm.SetPassword` | frontend/src/pages/setting/Settings.jsx:140 | the password field takes the typed value |
| `SettingsPage.SettingsForm.HandleSubmit` | frontend/src/pages/setting/Settings.jsx:18-82 | a failing check shows its message and changes nothing else; otherwise the log grows by one update exchange (`UPDATE_START` before the upload and the update, the upload only when a file is chosen, the update whatever the upload's fate, the outcome last), and `success` becomes true only on a successful update |
| `SettingsPage.SettingsForm.SendUpdate` | frontend/src/pages/setting/Settings.jsx:55-81 | the log grows by exactly one update exchange, its dispatches stay well formed, and `success` latches only on a successful update |
| `SettingsPage.SettingsForm.HandleDelete` | frontend/src/pages/setting/Settings.jsx:84-98 | a delete request is logged iff the user confirms; `DELETE_USER` is logged after it iff the user confirms and the request succeeds; the browser goes home only when the reply also has data |

## Left out

- Timers: the 4000 ms and 2000 ms `setTimeout` calls that clear the messages again are not modelled; a message, once set, stays until the next submit changes it.
- Rendering: the JSX, the image preview (`URL.createObjectURL`) and the placeholders are not modelled.
- Network and browser: axios, `window.confirm` and `window.location.replace` become parameters (`Reply`, `UpdateReply`, `DeleteReply`, `confirmed`) and the `location` field; `Date.now()` becomes the text parameter `now`.
- The upload's own result is not a parameter of `SettingsPage.SettingsForm.HandleSubmit`: the source catches and ignores it.
- The browser's own validation of the settings email input (`type="email"` inside a form without `noValidate`, Settings.jsx:133) is not modelled: a value that is not a valid HTML email address keeps the submit event from firing, so `handleSubmit` never runs. `FormChecks.SettingsAgreesWithRegister` states agreement between the two handlers' chains, not between what the two pages show for such a value.
- The session context and its reducer are not part of this model: the dispatched actions are logged, and `isFetching` is a parameter of `LoginPage.LoginForm.Click`.
- The users route behind `PUT` and `DELETE /users/:id` is not part of this model; the update's response data is typed as the same public user record login returns.
- `backend/index.js`: the server wiring, static files, multer storage, the database connection and the environment variables are plumbing with no decision logic.
- The 500 answers of both routes (an exception from the database or from bcrypt) are not modelled.
- bcrypt internals, including the cost factor 10 of `genSalt`: the salt is a parameter and hashing is an abstract function. That a hash differs from the raw password cannot be proved of an abstract function and is not claimed.
- The user document's other fields (`_id`, `profilePic`, timestamps) are not part of this model: a stored record holds username, email and password only.
- `SettingsPage.SettingsForm.HandleSubmit`: handlers are modelled as running one at a time, each to its end before the next UI event. In the source the handler waits at the upload and at the update (Settings.jsx:69, 75), and neither the Update button (Settings.jsx:142) nor the delete link (Settings.jsx:105) is disabled. A second submit or a delete can therefore run inside that wait, and the dispatches then interleave, for example `UPDATE_START, UPDATE_START, UPDATE_SUCCESS, UPDATE_SUCCESS` or `UPDATE_START, DELETE_USER, UPDATE_SUCCESS`. `SettingsForm.Valid()`, `SendUpdate`, `HandleDelete` and `Session.StartSettledOnce` describe the one-at-a-time model only.
- `LoginPage.LoginForm.Click`: `isFetching` is a free parameter, not tied to the log; since the model never pauses between `LOGIN_START` and its outcome, it has no state in which the session is fetching, and the disabled button is modelled only as the click's guard.
- Concurrency: two registrations that both pass the checks before either saves are outside a sequential model; `Register` runs one call at a time.
- A 400 reply to the register form without a `message` field, which would make `includes` throw, is not modelled; the register route always sends one.
- `Auth.UserStore.Login`: when the store holds duplicate usernames the model's lookup returns the first record; the database does not promise which one it returns.
