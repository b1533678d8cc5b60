/**
  The login form. `HandleSubmit` runs the username and password checks with early
  returns; only when both pass does it dispatch `LOGIN_START`, send the request and
  then dispatch exactly one of `LOGIN_SUCCESS` (carrying the response data) or
  `LOGIN_FAILURE`. The submit button is disabled while the session is fetching.
*/
module LoginPage {

  import opened Wrappers
  import CredentialRules
  import FormChecks
  import Auth
  import Session

  /** The JSON body of `POST /auth/login`. */
  datatype LoginBody = LoginBody(username: string, password: string)

  /** What the request yields: the response data, or any rejection. */
  datatype Reply = Ok(data: Auth.PublicUser) | Failed

  class LoginForm {

    var username: string
    var password: string
    var errorMessage: Option<string>
    /** The actions dispatched and the requests sent, in the order they happened. */
    var events: seq<Session.Event<LoginBody>>

    ghost predicate Valid()
      reads this
    {
      Session.WellFormedTrace(Session.Dispatched(events))
    }

    constructor ()
      ensures Valid()
      ensures username == "" && password == "" && errorMessage == None
      ensures events == []
    {
      username, password, errorMessage := "", "", None;
      events := [];
    }

    method SetUsername(s: string)
      modifies this`username
      ensures username == s
    {
      username := s;
    }

    method SetPassword(s: string)
      modifies this`password
      ensures password == s
    {
      password := s;
    }

    /** `handleSubmit`, with the server's answer to the request as `reply`. */
    method HandleSubmit(reply: Reply)
      requires Valid()
      modifies this
      ensures Valid()
      ensures username == old(username) && password == old(password)
      ensures FormChecks.LoginFirstFailure(username, password).Some? ==>
        errorMessage == FormChecks.LoginFirstFailure(username, password) && events == old(events)
      ensures FormChecks.LoginFirstFailure(username, password).None? ==>
        errorMessage == old(errorMessage) &&
        events == old(events) + Exchange(username, password, reply)
    {
      if username == "" || password == "" {
        errorMessage := Some(FormChecks.FillInAllFields);
        return;
      }
      if !CredentialRules.ValidUsername(username) {
        errorMessage := Some(FormChecks.UsernameRuleMessage);
        return;
      }
      if !CredentialRules.ValidPassword(password) {
        errorMessage := Some(FormChecks.PasswordRuleMessage);
        return;
      }
      ghost var before := events;
      events := events + [Session.Dispatch(Session.LoginStart)];
      events := events + [Session.Send(LoginBody(username, password))];
      match reply {
        case Ok(data) =>
          events := events + [Session.Dispatch(Session.LoginSuccess(data))];
        case Failed =>
          events := events + [Session.Dispatch(Session.LoginFailure)];
      }
      assert events == before + Exchange(username, password, reply);
      ExchangeKeepsLogWellFormed(before, username, password, reply);
    }

    /** A click on the login button: ignored while the session is fetching. */
    method Click(isFetching: bool, reply: Reply)
      requires Valid()
      modifies this
      ensures Valid()
      ensures isFetching ==> errorMessage == old(errorMessage) && events == old(events)
      ensures username == old(username) && password == old(password)
      ensures !isFetching && FormChecks.LoginFirstFailure(username, password).None? ==>
        events == old(events) + Exchange(username, password, reply)
      ensures !isFetching && FormChecks.LoginFirstFailure(username, password).Some? ==>
        errorMessage == FormChecks.LoginFirstFailure(username, password) && events == old(events)
    {
      if !isFetching {
        HandleSubmit(reply);
      }
    }
  }

  /**
    One login exchange as the log records it: `LOGIN_START` is dispatched before the
    request goes out, and the outcome after the reply arrives.
  */
  function Exchange(username: string, password: string, reply: Reply): (log: seq<Session.Event<LoginBody>>)
    ensures Session.Dispatched(log) == [Session.LoginStart, Outcome(reply)]
    ensures |log| == 3 && log[0] == Session.Dispatch(Session.LoginStart)
    ensures log[1] == Session.Send(LoginBody(username, password)) && log[2].Dispatch?
  {
    var log := [Session.Dispatch(Session.LoginStart), Session.Send(LoginBody(username, password)),
                Session.Dispatch(Outcome(reply))];
    Session.ExchangeDispatched(Session.LoginStart, [log[1]], Outcome(reply));
    assert log == [log[0]] + [log[1]] + [log[2]];
    log
  }

  /** Appending one login exchange to a well-formed log keeps its dispatches well formed. */
  lemma ExchangeKeepsLogWellFormed(log: seq<Session.Event<LoginBody>>, username: string, password: string,
                                   reply: Reply)
    requires Session.WellFormedTrace(Session.Dispatched(log))
    ensures Session.WellFormedTrace(Session.Dispatched(log + Exchange(username, password, reply)))
  {
    Session.DispatchedConcat(log, Exchange(username, password, reply));
    Session.LoginExchangeWellFormed(Outcome(reply));
    Session.TraceConcat(Session.Dispatched(log), [Session.LoginStart, Outcome(reply)]);
  }

  /** The action that settles a login exchange: success carries the response data. */
  function Outcome(reply: Reply): (a: Session.Action)
    ensures Session.Settles(Session.LoginStart, a)
    ensures a.LoginSuccess? <==> reply.Ok?
    ensures reply.Ok? ==> a.payload == reply.data
  {
    match reply
    case Ok(data) => Session.LoginSuccess(data)
    case Failed => Session.LoginFailure
  }
}
