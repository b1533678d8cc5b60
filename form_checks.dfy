/**
  The validation chain that the register, login and settings forms run before they
  send anything. A chain is a list of checks run in order; the first check that
  fails decides the message shown, and only a chain in which every check passes
  lets the form go on to its request.
*/
module FormChecks {

  import opened Wrappers
  import opened CredentialRules

  const FillInAllFields := "Please fill in all fields."
  const UsernameRuleMessage := "Username must be 6 to 30 characters long, start with an alphabetic character, and contain only alphanumeric characters and underscores."
  const EmailRuleMessage := "Please enter a valid email address."
  const PasswordRuleMessage := "Password must be at least 8 characters long, contain at least one uppercase letter, one lowercase letter, one number, one special symbol (@, $, !, %, *, ?, &) ."

  /** One check of a form: a field-presence test over some fields, or one of the three format rules. */
  datatype Check =
    | AllFilled(fields: seq<string>)
    | UsernameFormat(username: string)
    | EmailFormat(email: string)
    | PasswordFormat(password: string)

  /** JavaScript treats only the empty string as a missing text field. */
  predicate Passes(c: Check) {
    match c
    case AllFilled(fields) => "" !in fields
    case UsernameFormat(s) => ValidUsername(s)
    case EmailFormat(s) => ValidEmail(s)
    case PasswordFormat(s) => ValidPassword(s)
  }

  /** The message a failing check puts in the form's error line. */
  function Complaint(c: Check): string {
    match c
    case AllFilled(_) => FillInAllFields
    case UsernameFormat(_) => UsernameRuleMessage
    case EmailFormat(_) => EmailRuleMessage
    case PasswordFormat(_) => PasswordRuleMessage
  }

  /** The position of the first failing check, or None when all pass. */
  function FirstFailure(checks: seq<Check>): (r: Option<nat>)
    ensures r.None? <==> forall i :: 0 <= i < |checks| ==> Passes(checks[i])
    ensures r.Some? ==> r.value < |checks| && !Passes(checks[r.value])
    ensures r.Some? ==> forall i :: 0 <= i < r.value ==> Passes(checks[i])
  {
    if checks == [] then None
    else if !Passes(checks[0]) then Some(0)
    else match FirstFailure(checks[1..])
      case None => None
      case Some(k) => Some(k + 1)
  }

  /** The message of the first failing check, or None when the form may be sent. */
  function Verdict(checks: seq<Check>): Option<string> {
    match FirstFailure(checks)
    case None => None
    case Some(k) => Some(Complaint(checks[k]))
  }

  /** A chain whose first `k` checks pass and whose check `k` fails reports check `k`'s complaint. */
  lemma VerdictIsFirstComplaint(checks: seq<Check>, k: nat)
    requires k < |checks| && !Passes(checks[k])
    requires forall i :: 0 <= i < k ==> Passes(checks[i])
    ensures Verdict(checks) == Some(Complaint(checks[k]))
  {
    var j := FirstFailure(checks).value;
    assert !(j < k) && !(k < j);
  }

  /** A chain of three checks, evaluated in order. */
  lemma VerdictOfThree(a: Check, b: Check, c: Check)
    ensures Verdict([a, b, c]) ==
      if !Passes(a) then Some(Complaint(a))
      else if !Passes(b) then Some(Complaint(b))
      else if !Passes(c) then Some(Complaint(c))
      else None
  {
    var s := [a, b, c];
    if !Passes(a) {
      VerdictIsFirstComplaint(s, 0);
    } else if !Passes(b) {
      VerdictIsFirstComplaint(s, 1);
    } else if !Passes(c) {
      forall i | 0 <= i < 2 ensures Passes(s[i]) { if i == 1 { assert s[i] == b; } }
      VerdictIsFirstComplaint(s, 2);
    } else {
      forall i | 0 <= i < 3 ensures Passes(s[i]) { if i == 1 { assert s[i] == b; } else if i == 2 { assert s[i] == c; } }
    }
  }

  /** A chain of four checks, evaluated in order. */
  lemma VerdictOfFour(a: Check, b: Check, c: Check, d: Check)
    ensures Verdict([a, b, c, d]) ==
      if !Passes(a) then Some(Complaint(a))
      else if !Passes(b) then Some(Complaint(b))
      else if !Passes(c) then Some(Complaint(c))
      else if !Passes(d) then Some(Complaint(d))
      else None
  {
    var s := [a, b, c, d];
    if !Passes(a) {
      VerdictIsFirstComplaint(s, 0);
    } else if !Passes(b) {
      VerdictIsFirstComplaint(s, 1);
    } else if !Passes(c) {
      forall i | 0 <= i < 2 ensures Passes(s[i]) { if i == 1 { assert s[i] == b; } }
      VerdictIsFirstComplaint(s, 2);
    } else if !Passes(d) {
      forall i | 0 <= i < 3 ensures Passes(s[i]) { if i == 1 { assert s[i] == b; } else if i == 2 { assert s[i] == c; } }
      VerdictIsFirstComplaint(s, 3);
    } else {
      forall i | 0 <= i < 4 ensures Passes(s[i]) {
        if i == 1 { assert s[i] == b; } else if i == 2 { assert s[i] == c; } else if i == 3 { assert s[i] == d; }
      }
    }
  }

  /** Register, in source order: fields present, username, email, password. */
  function RegisterChecks(username: string, email: string, password: string): seq<Check> {
    [AllFilled([username, email, password]), UsernameFormat(username), EmailFormat(email), PasswordFormat(password)]
  }

  /** Login has no email field and no email check. */
  function LoginChecks(username: string, password: string): seq<Check> {
    [AllFilled([username, password]), UsernameFormat(username), PasswordFormat(password)]
  }

  /** The settings form repeats the register form's chain. */
  function SettingsChecks(username: string, email: string, password: string): seq<Check> {
    [AllFilled([username, email, password]), UsernameFormat(username), EmailFormat(email), PasswordFormat(password)]
  }

  /** What the register form shows on submit, or None when it sends the request. */
  function RegisterFirstFailure(username: string, email: string, password: string): (m: Option<string>)
    ensures m.None? <==>
      username != "" && email != "" && password != "" &&
      ValidUsername(username) && ValidEmail(email) && ValidPassword(password)
    ensures username == "" || email == "" || password == "" ==> m == Some(FillInAllFields)
    ensures username != "" && email != "" && password != "" && !ValidUsername(username) ==>
      m == Some(UsernameRuleMessage)
    ensures username != "" && email != "" && password != "" && ValidUsername(username) && !ValidEmail(email) ==>
      m == Some(EmailRuleMessage)
    ensures username != "" && email != "" && password != "" && ValidUsername(username) && ValidEmail(email) &&
      !ValidPassword(password)
      ==> m == Some(PasswordRuleMessage)
  {
    VerdictOfFour(AllFilled([username, email, password]), UsernameFormat(username), EmailFormat(email), PasswordFormat(password));
    Verdict(RegisterChecks(username, email, password))
  }

  /** What the login form shows on submit, or None when it dispatches the login. */
  function LoginFirstFailure(username: string, password: string): (m: Option<string>)
    ensures m.None? <==> username != "" && password != "" && ValidUsername(username) && ValidPassword(password)
    ensures username == "" || password == "" ==> m == Some(FillInAllFields)
    ensures username != "" && password != "" && !ValidUsername(username) ==> m == Some(UsernameRuleMessage)
    ensures username != "" && password != "" && ValidUsername(username) && !ValidPassword(password) ==>
      m == Some(PasswordRuleMessage)
    ensures m != Some(EmailRuleMessage)
  {
    VerdictOfThree(AllFilled([username, password]), UsernameFormat(username), PasswordFormat(password));
    Verdict(LoginChecks(username, password))
  }

  /** What the settings form shows on submit, or None when it dispatches the update. */
  function SettingsFirstFailure(username: string, email: string, password: string): (m: Option<string>)
    ensures m.None? <==>
      username != "" && email != "" && password != "" &&
      ValidUsername(username) && ValidEmail(email) && ValidPassword(password)
    ensures username == "" || email == "" || password == "" ==> m == Some(FillInAllFields)
    ensures username != "" && email != "" && password != "" && !ValidUsername(username) ==>
      m == Some(UsernameRuleMessage)
    ensures username != "" && email != "" && password != "" && ValidUsername(username) && !ValidEmail(email) ==>
      m == Some(EmailRuleMessage)
    ensures username != "" && email != "" && password != "" && ValidUsername(username) && ValidEmail(email) &&
      !ValidPassword(password)
      ==> m == Some(PasswordRuleMessage)
  {
    VerdictOfFour(AllFilled([username, email, password]), UsernameFormat(username), EmailFormat(email), PasswordFormat(password));
    Verdict(SettingsChecks(username, email, password))
  }

  /**
    The settings copy of the chain decides exactly as the register copy does. The
    two chains are written identically in the source, and `SettingsChecks` is the
    same list as `RegisterChecks`, so this lemma records that sameness rather than
    a deeper equivalence.
  */
  lemma SettingsAgreesWithRegister(username: string, email: string, password: string)
    ensures SettingsFirstFailure(username, email, password) == RegisterFirstFailure(username, email, password)
  {
    assert SettingsChecks(username, email, password) == RegisterChecks(username, email, password);
  }

  /**
    The login copy decides as the register copy does for any non-empty, valid email:
    it runs the same username and password rules in the same order.
  */
  lemma LoginAgreesWithRegister(username: string, email: string, password: string)
    requires email != "" && ValidEmail(email)
    ensures LoginFirstFailure(username, password) == RegisterFirstFailure(username, email, password)
  {
  }
}
