/**
  The actions the login and settings forms dispatch to the session context, the
  single log in which a form records its dispatches and its requests in order, and
  the shape the dispatches of every such log have when each handler runs to its end
  before the next event is handled: each START action is followed at once by exactly
  one matching SUCCESS or FAILURE, and DELETE_USER stands alone.
*/
module Session {

  import Auth

  datatype Action =
    | LoginStart
    | LoginSuccess(payload: Auth.PublicUser)
    | LoginFailure
    | UpdateStart
    | UpdateSuccess(payload: Auth.PublicUser)
    | UpdateFailure
    | DeleteUser

  /**
    One entry of a form's log: an action dispatched to the session context, or a
    request of type `R` sent to the server. One log keeps both, so the order between
    a dispatch and a request is part of what a form's handler promises.
  */
  datatype Event<R> = Dispatch(action: Action) | Send(request: R)

  /** The actions of a form's log, in the order they were dispatched. */
  function Dispatched<R>(log: seq<Event<R>>): (actions: seq<Action>)
    ensures |actions| <= |log|
    ensures log != [] && log[0].Dispatch? ==> actions != [] && actions[0] == log[0].action
    decreases |log|
  {
    if log == [] then []
    else (if log[0].Dispatch? then [log[0].action] else []) + Dispatched(log[1..])
  }

  /** Every action dispatched at some point of the log shows up among its dispatches. */
  lemma {:induction false} DispatchedKeepsEvery<R>(log: seq<Event<R>>, i: nat)
    requires i < |log| && log[i].Dispatch?
    ensures log[i].action in Dispatched(log)
    decreases i
  {
    if i > 0 {
      DispatchedKeepsEvery(log[1..], i - 1);
    }
  }

  /** The dispatches of two logs laid end to end are those of each, in turn. */
  lemma {:induction false} DispatchedConcat<R>(a: seq<Event<R>>, b: seq<Event<R>>)
    ensures Dispatched(a + b) == Dispatched(a) + Dispatched(b)
    decreases |a|
  {
    if a == [] {
      assert a + b == b;
    } else {
      assert (a + b)[1..] == a[1..] + b;
      DispatchedConcat(a[1..], b);
    }
  }

  /**
    An exchange on a form's log: a START, then any requests, then one action; its
    dispatches are exactly the START and that action.
  */
  lemma ExchangeDispatched<R>(start: Action, requests: seq<Event<R>>, outcome: Action)
    requires forall i :: 0 <= i < |requests| ==> requests[i].Send?
    ensures Dispatched([Dispatch(start)] + requests + [Dispatch(outcome)]) == [start, outcome]
  {
    SendsDispatchNothing(requests);
    DispatchedConcat([Dispatch(start)] + requests, [Dispatch(outcome)]);
    DispatchedConcat([Dispatch(start)], requests);
    var first: seq<Event<R>> := [Dispatch(start)];
    var last: seq<Event<R>> := [Dispatch(outcome)];
    assert first[1..] == [] && last[1..] == [];
  }

  /** Appending a log whose dispatches are well formed keeps a form's dispatches well formed. */
  lemma AppendKeepsWellFormed<R>(log: seq<Event<R>>, extra: seq<Event<R>>)
    requires WellFormedTrace(Dispatched(log)) && WellFormedTrace(Dispatched(extra))
    ensures WellFormedTrace(Dispatched(log + extra))
  {
    DispatchedConcat(log, extra);
    TraceConcat(Dispatched(log), Dispatched(extra));
  }

  /** A log of requests alone dispatches nothing. */
  lemma {:induction false} SendsDispatchNothing<R>(log: seq<Event<R>>)
    requires forall i :: 0 <= i < |log| ==> log[i].Send?
    ensures Dispatched(log) == []
    decreases |log|
  {
    if log != [] {
      SendsDispatchNothing(log[1..]);
    }
  }

  predicate IsStart(a: Action) { a.LoginStart? || a.UpdateStart? }

  predicate IsSettle(a: Action) {
    a.LoginSuccess? || a.LoginFailure? || a.UpdateSuccess? || a.UpdateFailure?
  }

  /** `a` is an outcome of the request that `start` began. */
  predicate Settles(start: Action, a: Action) {
    match start
    case LoginStart => a.LoginSuccess? || a.LoginFailure?
    case UpdateStart => a.UpdateSuccess? || a.UpdateFailure?
    case _ => false
  }

  /** The log splits into `[START, outcome]` pairs and single `DELETE_USER` entries. */
  predicate WellFormedTrace(log: seq<Action>)
    decreases |log|
  {
    if log == [] then true
    else if IsStart(log[0]) then |log| >= 2 && Settles(log[0], log[1]) && WellFormedTrace(log[2..])
    else log[0].DeleteUser? && WellFormedTrace(log[1..])
  }

  /** Well-formed logs are closed under concatenation, so appending one exchange keeps the shape. */
  lemma {:induction false} TraceConcat(a: seq<Action>, b: seq<Action>)
    requires WellFormedTrace(a) && WellFormedTrace(b)
    ensures WellFormedTrace(a + b)
    decreases |a|
  {
    if a != [] {
      if IsStart(a[0]) {
        assert (a + b)[2..] == a[2..] + b;
        TraceConcat(a[2..], b);
      } else {
        assert (a + b)[1..] == a[1..] + b;
        TraceConcat(a[1..], b);
      }
    } else {
      assert a + b == b;
    }
  }

  /** A well-formed log never begins with an outcome. */
  lemma WellFormedStartsWithNoOutcome(log: seq<Action>)
    requires WellFormedTrace(log) && log != []
    ensures !IsSettle(log[0])
  {
  }

  /**
    In a well-formed log, every START at position `i` is followed by its outcome at
    `i + 1`, and the entry after that (if any) is not a second outcome.
  */
  lemma {:induction false} StartSettledOnce(log: seq<Action>, i: nat)
    requires WellFormedTrace(log) && i < |log| && IsStart(log[i])
    ensures i + 1 < |log| && Settles(log[i], log[i + 1])
    ensures i + 2 < |log| ==> !IsSettle(log[i + 2])
    decreases |log|
  {
    if IsStart(log[0]) {
      if i == 0 {
        if 2 < |log| {
          WellFormedStartsWithNoOutcome(log[2..]);
        }
      } else if i >= 2 {
        StartSettledOnce(log[2..], i - 2);
      }
    } else {
      StartSettledOnce(log[1..], i - 1);
    }
  }

  /** One login exchange: `LOGIN_START`, then the success with the response data or the failure. */
  lemma LoginExchangeWellFormed(outcome: Action)
    requires outcome.LoginSuccess? || outcome.LoginFailure?
    ensures WellFormedTrace([LoginStart, outcome])
  {
    assert [LoginStart, outcome][2..] == [];
  }

  /** One update exchange: `UPDATE_START`, then the success with the response data or the failure. */
  lemma UpdateExchangeWellFormed(outcome: Action)
    requires outcome.UpdateSuccess? || outcome.UpdateFailure?
    ensures WellFormedTrace([UpdateStart, outcome])
  {
    assert [UpdateStart, outcome][2..] == [];
  }
}
