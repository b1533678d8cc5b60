/**
  The register form. Its React state variables are the fields of `RegisterForm`;
  `HandleSubmit` runs the validation chain with early returns, sends the request
  only when every check passes, and routes a 400 reply to the username or the
  email field by the words the message contains.
*/
module RegisterPage {

  import opened Wrappers
  import CredentialRules
  import FormChecks
  import Auth

  const GenericError := "An error occurred. Please check your input and try again."
  const LoginPath := "/login"

  /** The JSON body of `POST /auth/register`. */
  datatype Credentials = Credentials(username: string, email: string, password: string)

  /**
    What the request yields: a success whose body is present or absent, an HTTP
    error with its status and its `message`, or no response at all.
  */
  datatype Reply = Ok(hasData: bool) | Rejected(status: int, message: string) | NoResponse

  /** `part` occurs in `s` starting at position `i`. */
  predicate OccursAt(s: string, part: string, i: nat) {
    i + |part| <= |s| && s[i..i + |part|] == part
  }

  /** JavaScript's `s.includes(part)`. */
  predicate Contains(s: string, part: string) {
    exists i: nat :: i <= |s| && OccursAt(s, part, i)
  }

  /** A string contains every part of it that sits between a prefix and a suffix. */
  lemma ContainsWithin(prefix: string, part: string, suffix: string)
    ensures Contains(prefix + part + suffix, part)
  {
    var s := prefix + part + suffix;
    assert s[|prefix|..|prefix| + |part|] == part;
    assert OccursAt(s, part, |prefix|);
  }

  /** A part longer than the string cannot occur in it. */
  lemma LongerNotContained(s: string, part: string)
    requires |part| > |s|
    ensures !Contains(s, part)
  {
  }

  /** Which field error a 400 message is shown under. */
  datatype ErrorField = UsernameField | EmailField | Neither

  function FieldFor(message: string): ErrorField {
    if Contains(message, "Username") then UsernameField
    else if Contains(message, "Email") then EmailField
    else Neither
  }

  /** A word cannot occur in a string that lacks its first letter. */
  lemma AbsentInitialNoMatch(s: string, part: string)
    requires |part| > 0 && part[0] !in s
    ensures !Contains(s, part)
  {
    forall i: nat ensures !OccursAt(s, part, i) {
      if i + |part| <= |s| {
        assert s[i..i + |part|][0] == s[i];
      }
    }
  }

  /**
    The two conflict messages of the register route land under their own fields:
    the username conflict under the username, the email conflict under the email;
    the login route's message under neither.
  */
  lemma ConflictsReachTheirFields()
    ensures FieldFor(Auth.UsernameInUse) == UsernameField
    ensures FieldFor(Auth.EmailInUse) == EmailField
    ensures FieldFor(Auth.WrongCredentials) == Neither
  {
    assert OccursAt(Auth.UsernameInUse, "Username", 0);
    assert OccursAt(Auth.EmailInUse, "Email", 0);
    AbsentInitialNoMatch(Auth.EmailInUse, "Username");
    AbsentInitialNoMatch(Auth.WrongCredentials, "Username");
    AbsentInitialNoMatch(Auth.WrongCredentials, "Email");
  }

  class RegisterForm {

    var username: string
    var email: string
    var password: string
    var errorMessage: Option<string>
    var usernameError: Option<string>
    var emailError: Option<string>
    /** The register requests sent, oldest first. */
    var sent: seq<Credentials>
    /** Where `window.location.replace` last sent the browser. */
    var location: Option<string>

    constructor ()
      ensures username == "" && email == "" && password == ""
      ensures errorMessage == None && usernameError == None && emailError == None
      ensures sent == [] && location == None
    {
      username, email, password := "", "", "";
      errorMessage, usernameError, emailError := None, None, None;
      sent, location := [], None;
    }

    method SetUsername(s: string)
      modifies this`username
      ensures username == s
    {
      username := s;
    }

    method SetEmail(s: string)
      modifies this`email
      ensures email == s
    {
      email := s;
    }

    method SetPassword(s: string)
      modifies this`password
      ensures password == s
    {
      password := s;
    }

    /** `handleSubmit`, with the server's answer to the request as `reply`. */
    method HandleSubmit(reply: Reply)
      modifies this
      ensures username == old(username) && email == old(email) && password == old(password)
      // a failing check shows its message and nothing is sent
      ensures FormChecks.RegisterFirstFailure(username, email, password).Some? ==>
        errorMessage == FormChecks.RegisterFirstFailure(username, email, password) &&
        usernameError == old(usernameError) && emailError == old(emailError) &&
        sent == old(sent) && location == old(location)
      // otherwise exactly one request goes out
      ensures FormChecks.RegisterFirstFailure(username, email, password).None? ==>
        sent == old(sent) + [Credentials(username, email, password)]
      ensures FormChecks.RegisterFirstFailure(username, email, password).None? && reply.Ok? ==>
        errorMessage == old(errorMessage) && usernameError == old(usernameError) &&
        emailError == old(emailError) &&
        location == (if reply.hasData then Some(LoginPath) else old(location))
      ensures FormChecks.RegisterFirstFailure(username, email, password).None? &&
              reply.Rejected? && reply.status == 400 ==>
        errorMessage == old(errorMessage) && location == old(location) &&
        match FieldFor(reply.message)
        case UsernameField => usernameError == Some(reply.message) && emailError == None
        case EmailField => emailError == Some(reply.message) && usernameError == None
        case Neither => usernameError == old(usernameError) && emailError == old(emailError)
      ensures FormChecks.RegisterFirstFailure(username, email, password).None? &&
              !reply.Ok? && !(reply.Rejected? && reply.status == 400) ==>
        usernameError == None && emailError == None && errorMessage == Some(GenericError) &&
        location == old(location)
    {
      if username == "" || email == "" || password == "" {
        errorMessage := Some(FormChecks.FillInAllFields);
        return;
      }
      if !CredentialRules.ValidUsername(username) {
        errorMessage := Some(FormChecks.UsernameRuleMessage);
        return;
      }
      if !CredentialRules.ValidEmail(email) {
        errorMessage := Some(FormChecks.EmailRuleMessage);
        return;
      }
      if !CredentialRules.ValidPassword(password) {
        errorMessage := Some(FormChecks.PasswordRuleMessage);
        return;
      }
      sent := sent + [Credentials(username, email, password)];
      match reply {
        case Ok(hasData) =>
          if hasData {
            location := Some(LoginPath);
          }
        case Rejected(status, message) =>
          if status == 400 {
            if Contains(message, "Username") {
              usernameError := Some(message);
              emailError := None;
            } else if Contains(message, "Email") {
              emailError := Some(message);
              usernameError := None;
            }
          } else {
            usernameError := None;
            emailError := None;
            errorMessage := Some(GenericError);
          }
        case NoResponse =>
          usernameError := None;
          emailError := None;
          errorMessage := Some(GenericError);
      }
    }
  }
}
