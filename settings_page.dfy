/**
  The account settings form. `HandleSubmit` runs the same chain as the register
  form; when it passes it dispatches `UPDATE_START`, builds the update body (with
  `profilePic` only when a file is chosen, after sending the upload), sends the
  update, and dispatches exactly one of `UPDATE_SUCCESS` or `UPDATE_FAILURE`.
  `HandleDelete` dispatches `DELETE_USER` only after a confirmed, successful delete.
*/
module SettingsPage {

  import opened Wrappers
  import CredentialRules
  import FormChecks
  import Auth
  import Session

  const HomePath := "/"

  /** A file picked in the file input; only its name matters here. */
  datatype File = File(name: string)

  /** The body of `PUT /users/:id`. */
  datatype UpdatedUser = UpdatedUser(
    userId: string, username: string, email: string, password: string, profilePic: Option<string>)

  /** The requests the form sends: the upload, the update and the delete. */
  datatype Request =
    | Upload(name: string, file: File)
    | Put(path: string, body: UpdatedUser)
    | Delete(path: string, userId: string)

  /** What the update request yields: the response data, or any rejection. */
  datatype UpdateReply = Updated(data: Auth.PublicUser) | UpdateFailed

  /** What the delete request yields: a success whose body is present or absent, or any rejection. */
  datatype DeleteReply = Deleted(hasData: bool) | DeleteFailed

  function UserPath(userId: string): string {
    "/users/" + userId
  }

  /**
    The construction of `updatedUser`: the entered fields and the session user's id;
    when a file is chosen, the upload to send and `profilePic` set to the very name
    that upload carries (the timestamp text `now` followed by the file's name).
  */
  method BuildUpdate(userId: string, username: string, email: string, password: string,
                     file: Option<File>, now: string)
    returns (body: UpdatedUser, upload: Option<Request>)
    ensures body.userId == userId && body.username == username
    ensures body.email == email && body.password == password
    ensures body.profilePic.Some? <==> file.Some?
    ensures upload.Some? <==> file.Some?
    ensures upload.Some? ==>
      upload.value.Upload? && upload.value.file == file.value &&
      upload.value.name == now + file.value.name &&
      body.profilePic == Some(upload.value.name)
  {
    body := UpdatedUser(userId, username, email, password, None);
    upload := None;
    if file.Some? {
      var filename := now + file.value.name;
      upload := Some(Upload(filename, file.value));
      body := body.(profilePic := Some(filename));
    }
  }

  /** The action that settles an update exchange: success carries the response data. */
  function Outcome(reply: UpdateReply): (a: Session.Action)
    ensures Session.Settles(Session.UpdateStart, a)
    ensures a.UpdateSuccess? <==> reply.Updated?
    ensures reply.Updated? ==> a.payload == reply.data
  {
    match reply
    case Updated(data) => Session.UpdateSuccess(data)
    case UpdateFailed => Session.UpdateFailure
  }

  /**
    One update exchange as the log records it: `UPDATE_START` first, then the upload
    when a file is chosen, then the update carrying the entered fields, and last the
    outcome once the update's reply arrives.
  */
  function Exchange(userId: string, username: string, email: string, password: string,
                    file: Option<File>, now: string, reply: UpdateReply): (log: seq<Session.Event<Request>>)
    ensures Session.Dispatched(log) == [Session.UpdateStart, Outcome(reply)]
    ensures |log| == (if file.Some? then 4 else 3)
    ensures log[0] == Session.Dispatch(Session.UpdateStart)
    ensures log[|log| - 1] == Session.Dispatch(Outcome(reply))
    ensures file.Some? ==> log[1] == Session.Send(Upload(now + file.value.name, file.value))
    ensures log[|log| - 2] == Session.Send(Put(UserPath(userId), UpdatedUser(
      userId, username, email, password, if file.Some? then Some(now + file.value.name) else None)))
  {
    var uploads := if file.Some? then [Session.Send(Upload(now + file.value.name, file.value))] else [];
    var body := UpdatedUser(userId, username, email, password,
                            if file.Some? then Some(now + file.value.name) else None);
    var requests := uploads + [Session.Send(Put(UserPath(userId), body))];
    Session.ExchangeDispatched(Session.UpdateStart, requests, Outcome(reply));
    [Session.Dispatch(Session.UpdateStart)] + requests + [Session.Dispatch(Outcome(reply))]
  }

  /** Appending one update exchange to a log with well-formed dispatches keeps them well formed. */
  lemma ExchangeKeepsLogWellFormed(log: seq<Session.Event<Request>>, exchange: seq<Session.Event<Request>>,
                                   reply: UpdateReply)
    requires Session.WellFormedTrace(Session.Dispatched(log))
    requires Session.Dispatched(exchange) == [Session.UpdateStart, Outcome(reply)]
    ensures Session.WellFormedTrace(Session.Dispatched(log + exchange))
  {
    Session.UpdateExchangeWellFormed(Outcome(reply));
    Session.AppendKeepsWellFormed(log, exchange);
  }

  class SettingsForm {

    /** `user._id` of the session user. */
    const userId: string

    var file: Option<File>
    var username: string
    var email: string
    var password: string
    var success: bool
    var errorMessage: Option<string>
    /** The actions dispatched and the requests sent, in the order they happened. */
    var events: seq<Session.Event<Request>>
    /** Where `window.location.replace` last sent the browser. */
    var location: Option<string>

    ghost predicate Valid()
      reads this
    {
      Session.WellFormedTrace(Session.Dispatched(events))
    }

    constructor (userId: string)
      ensures Valid() && this.userId == userId
      ensures file == None && username == "" && email == "" && password == ""
      ensures !success && errorMessage == None
      ensures events == [] && location == None
    {
      this.userId := userId;
      file, username, email, password := None, "", "", "";
      success, errorMessage := false, None;
      events, location := [], None;
    }

    method SetFile(f: Option<File>)
      modifies this`file
      ensures file == f
    {
      file := f;
    }

    method SetUsername(s: string)
      modifies this`username
      ensures username == s
    {
      username := s;
    }

    method SetEmail(s: string)
      modifies this`email
      ensures email == s
    {
      email := s;
    }

    method SetPassword(s: string)
      modifies this`password
      ensures password == s
    {
      password := s;
    }

    /**
      `handleSubmit`, with `now` the text of the current time and `reply` the
      server's answer to the update. The upload's own outcome is not a parameter:
      a failed upload is caught and ignored, and nothing after it depends on it.
    */
    method HandleSubmit(now: string, reply: UpdateReply)
      requires Valid()
      modifies this
      ensures Valid()
      ensures file == old(file) && username == old(username) && email == old(email)
      ensures password == old(password)
      ensures FormChecks.SettingsFirstFailure(username, email, password).Some? ==>
        errorMessage == FormChecks.SettingsFirstFailure(username, email, password) &&
        success == old(success) && events == old(events) && location == old(location)
      ensures FormChecks.SettingsFirstFailure(username, email, password).None? ==>
        errorMessage == old(errorMessage) && location == old(location) &&
        success == (reply.Updated? || old(success)) &&
        events == old(events) + Exchange(userId, username, email, password, file, now, reply)
    {
      if username == "" || email == "" || password == "" {
        errorMessage := Some(FormChecks.FillInAllFields);
        return;
      }
      if !CredentialRules.ValidUsername(username) {
        errorMessage := Some(FormChecks.UsernameRuleMessage);
        return;
      }
      if !CredentialRules.ValidEmail(email) {
        errorMessage := Some(FormChecks.EmailRuleMessage);
        return;
      }
      if !CredentialRules.ValidPassword(password) {
        errorMessage := Some(FormChecks.PasswordRuleMessage);
        return;
      }
      SendUpdate(now, reply);
    }

    /**
      The part of `handleSubmit` after every check has passed: dispatch
      `UPDATE_START`, send the upload when a file is chosen, send the update, and
      dispatch its outcome, latching `success` when the update succeeds.
    */
    method SendUpdate(now: string, reply: UpdateReply)
      requires Valid()
      modifies this`events, this`success
      ensures Valid()
      ensures success == (reply.Updated? || old(success))
      ensures events == old(events) + Exchange(userId, username, email, password, file, now, reply)
    {
      ghost var before := events;
      events := events + [Session.Dispatch(Session.UpdateStart)];
      var updatedUser, upload := BuildUpdate(userId, username, email, password, file, now);
      if upload.Some? {
        events := events + [Session.Send(upload.value)];
      }
      events := events + [Session.Send(Put(UserPath(userId), updatedUser))];
      match reply {
        case Updated(data) =>
          success := true;
          events := events + [Session.Dispatch(Session.UpdateSuccess(data))];
        case UpdateFailed =>
          events := events + [Session.Dispatch(Session.UpdateFailure)];
      }
      ghost var exchange := Exchange(userId, username, email, password, file, now, reply);
      assert events == before + exchange;
      ExchangeKeepsLogWellFormed(before, exchange, reply);
    }

    /** `handleDelete`, with the user's answer to the confirmation and the server's reply. */
    method HandleDelete(confirmed: bool, reply: DeleteReply)
      requires Valid()
      modifies this
      ensures Valid()
      ensures file == old(file) && username == old(username) && email == old(email)
      ensures password == old(password) && success == old(success) && errorMessage == old(errorMessage)
      ensures events == old(events) +
        if confirmed then
          [Session.Send(Delete(UserPath(userId), userId))] +
          (if reply.Deleted? then [Session.Dispatch(Session.DeleteUser)] else [])
        else []
      ensures location == (if confirmed && reply.Deleted? && reply.hasData then Some(HomePath) else old(location))
    {
      if confirmed {
        var request: seq<Session.Event<Request>> := [Session.Send(Delete(UserPath(userId), userId))];
        Session.SendsDispatchNothing(request);
        Session.AppendKeepsWellFormed(events, request);
        events := events + request;
        match reply {
          case Deleted(hasData) =>
            var deleted: seq<Session.Event<Request>> := [Session.Dispatch(Session.DeleteUser)];
            assert deleted[1..] == [] && [Session.DeleteUser][1..] == [];
            Session.AppendKeepsWellFormed(events, deleted);
            events := events + deleted;
            if hasData {
              location := Some(HomePath);
            }
          case DeleteFailed =>
        }
      }
    }
  }
}
