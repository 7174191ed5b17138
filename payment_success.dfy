/** The payment confirmation page: after a checkout redirect it polls the backend's status
    endpoint for the session, at most `MaxAttempts` times, and shows one of four views.

    The network is replaced by an oracle: `replies[k]` is what the `k`-th call of
    `getPaymentStatus` gives, either a decoded body (`Ok`) or a thrown error (`Err`, which
    covers a non-ok response, a network failure and an unparsable body). What the loop does
    to the outside world is recorded as a log of events: a query issued for an attempt, a
    value passed to `setStatus`, and a timer wait. */
module PaymentSuccess {

  const MaxAttempts: nat := 4
  const DelayMs: nat := 3000

  /** The component's `status` state. The backend's `result.status` is stored unchecked, so any
      string can appear; `Undefined` stands for a body without a string `status` property. */
  datatype Status = Str(text: string) | Undefined

  const Loading: Status := Str("loading")
  const Pending: Status := Str("pending")
  const Completed: Status := Str("completed")
  const Failed: Status := Str("failed")

  /** The outcome of one `getPaymentStatus(sessionId)` call. */
  datatype Reply = Ok(status: Status) | Err

  /** What one run of `checkStatus` does, in order. */
  datatype Event =
    | Query(attempt: nat)  // `getPaymentStatus` called during this attempt
    | Emit(status: Status) // `setStatus` called with this value
    | Wait(ms: nat)        // `setTimeout` awaited for this many milliseconds

  predicate IsTerminal(s: Status)
  {
    s == Completed || s == Failed
  }

  /** The loop goes on to another attempt (if any remain) after this reply. */
  predicate Continues(reply: Reply)
  {
    reply.Ok? && !IsTerminal(reply.status)
  }

  /** The status displayed once this reply has been handled. */
  function Shown(reply: Reply): Status
  {
    match reply
    case Ok(s) => s
    case Err => Failed
  }

  /** The events of the run from `attempt` on: the specification of the polling loop. While
      attempts remain it holds at least a query and its status update, and at most three
      events per remaining attempt, less one since the last attempt never waits. */
  function Attempts(replies: seq<Reply>, attempt: nat): (events: seq<Event>)
    requires attempt <= MaxAttempts <= |replies|
    ensures attempt == MaxAttempts ==> events == []
    ensures attempt < MaxAttempts ==> 2 <= |events| <= 3 * (MaxAttempts - attempt) - 1
    decreases MaxAttempts - attempt
  {
    if attempt == MaxAttempts then []
    else
      match replies[attempt]
      case Err => [Query(attempt), Emit(Failed)]
      case Ok(s) =>
        if IsTerminal(s) then [Query(attempt), Emit(s)]
        else if s == Pending && attempt < MaxAttempts - 1 then
          [Query(attempt), Emit(s), Wait(DelayMs)] + Attempts(replies, attempt + 1)
        else
          [Query(attempt), Emit(s)] + Attempts(replies, attempt + 1)
  }

  /** The events of one whole run of `checkStatus`: the first query and its status update,
      and at most eleven events in all. */
  function Poll(replies: seq<Reply>): (events: seq<Event>)
    requires MaxAttempts <= |replies|
    ensures 2 <= |events| <= 3 * MaxAttempts - 1
    ensures events[0] == Query(0) && events[1] == Emit(Shown(replies[0]))
  {
    Attempts(replies, 0)
  }

  /** The status displayed after `events`, starting from `initial`: the last value emitted.
      It changes only through a `setStatus` call in the log. */
  function Displayed(initial: Status, events: seq<Event>): (shown: Status)
    ensures shown != initial ==> Emit(shown) in events
  {
    if events == [] then initial
    else if events[|events| - 1].Emit? then events[|events| - 1].status
    else Displayed(initial, events[..|events| - 1])
  }

  /** The attempt numbers of the queries in `events`, in order. */
  function QueryAttempts(events: seq<Event>): seq<nat>
  {
    if events == [] then []
    else
      var rest := QueryAttempts(events[..|events| - 1]);
      if events[|events| - 1].Query? then rest + [events[|events| - 1].attempt] else rest
  }

  /** The number of timer waits in `events`. */
  function WaitCount(events: seq<Event>): nat
  {
    if events == [] then 0
    else WaitCount(events[..|events| - 1]) + (if events[|events| - 1].Wait? then 1 else 0)
  }

  /** Whether the loop waits after handling this reply in this attempt. */
  predicate WaitsAfter(reply: Reply, attempt: nat)
  {
    reply == Ok(Pending) && attempt < MaxAttempts - 1
  }

  /** The events of a single attempt. */
  function Block(reply: Reply, attempt: nat): seq<Event>
  {
    [Query(attempt), Emit(Shown(reply))] + (if WaitsAfter(reply, attempt) then [Wait(DelayMs)] else [])
  }

  /** One attempt's events, then the rest of the run if the reply lets the loop go on. */
  lemma AttemptsUnfold(replies: seq<Reply>, attempt: nat)
    requires attempt < MaxAttempts <= |replies|
    ensures Attempts(replies, attempt) ==
      Block(replies[attempt], attempt)
      + (if Continues(replies[attempt]) then Attempts(replies, attempt + 1) else [])
  {
  }

  /** Regrouping concatenated logs. Dafny knows this fact, but stated as its own lemma it keeps
      the solver from searching for it inside `AttemptExtendsPrefix`. */
  lemma ConcatAssociative(a: seq<Event>, b: seq<Event>, c: seq<Event>)
    ensures (a + b) + c == a + (b + c)
  {
  }

  /** Handling the reply of `attempt` extends a prefix of the run by that attempt's events:
      to the whole run if the reply stops the loop, else to the prefix before the next attempt. */
  lemma AttemptExtendsPrefix(replies: seq<Reply>, attempt: nat, before: seq<Event>)
    requires attempt < MaxAttempts <= |replies|
    requires before + Attempts(replies, attempt) == Poll(replies)
    ensures !Continues(replies[attempt]) ==> before + Block(replies[attempt], attempt) == Poll(replies)
    ensures Continues(replies[attempt]) ==>
      (before + Block(replies[attempt], attempt)) + Attempts(replies, attempt + 1) == Poll(replies)
  {
    AttemptsUnfold(replies, attempt);
    ConcatAssociative(before, Block(replies[attempt], attempt), Attempts(replies, attempt + 1));
  }

  /** After an attempt's events the display shows what that attempt's reply leads to. */
  lemma DisplayedAfterBlock(initial: Status, events: seq<Event>, reply: Reply, attempt: nat)
    ensures Displayed(initial, events + Block(reply, attempt)) == Shown(reply)
  {
  }

  /** The four status values the page knows are distinct. */
  lemma KnownStatusesDistinct()
    ensures Loading != Completed && Loading != Pending && Loading != Failed
    ensures Completed != Pending && Completed != Failed && Pending != Failed
  {
  }

  /** The component's state and the effects of its polling effect. */
  class StatusPoller {
    var status: Status
    ghost var effects: seq<Event>

    /** `useState('loading')`: nothing has been queried yet. */
    constructor ()
      ensures status == Loading && effects == []
    {
      status := Loading;
      effects := [];
    }

    /** `checkStatus()`: the bounded polling loop with the `try`/`catch` around it. A thrown
        error leaves the loop at once and the handler then sets the status to failed. */
    method CheckStatus(replies: seq<Reply>)
      requires MaxAttempts <= |replies|
      modifies this
      ensures effects == old(effects) + Poll(replies)
      ensures status == Displayed(old(status), Poll(replies))
    {
      ghost var done: seq<Event> := [];
      var threw := false;
      var attempt: nat := 0;
      while attempt < MaxAttempts
        invariant attempt <= MaxAttempts
        invariant !threw
        invariant done + Attempts(replies, attempt) == Poll(replies)
        invariant status == Displayed(old(status), done)
        invariant effects == old(effects)
      {
        var reply := replies[attempt];
        AttemptExtendsPrefix(replies, attempt, done);
        DisplayedAfterBlock(old(status), done, reply, attempt);
        // The events of this attempt, appended to `done` once the attempt is over.
        ghost var step := [Query(attempt), Emit(Shown(reply))];
        if reply.Err? {
          threw := true;
          assert step == Block(reply, attempt);
          done := done + step;
          break;
        }
        var s := reply.status;
        status := s;
        if s == Completed || s == Failed {
          assert step == Block(reply, attempt);
          done := done + step;
          break;
        }
        if s == Pending && attempt < MaxAttempts - 1 {
          step := step + [Wait(DelayMs)];
        }
        assert Continues(reply) && step == Block(reply, attempt);
        done := done + step;
        attempt := attempt + 1;
      }
      if threw {
        status := Failed;
      }
      assert done == Poll(replies);
      effects := effects + done;
    }
  }

  /** The views the page renders for a status, in page order. */
  datatype View = Verifying | Successful | Processing | PaymentFailed

  /** Each view is guarded by its own comparison with the status, so at most one is shown,
      and none at all for a value other than the four known ones. */
  function StatusViews(s: Status): (views: seq<View>)
    ensures |views| <= 1
    ensures views == [Verifying] <==> s == Loading
    ensures views == [Successful] <==> s == Completed
    ensures views == [Processing] <==> s == Pending
    ensures views == [PaymentFailed] <==> s == Failed
    ensures views == [] <==> s !in {Loading, Completed, Pending, Failed}
  {
    KnownStatusesDistinct();
    var views :=
      (if s == Loading then [Verifying] else [])
      + (if s == Completed then [Successful] else [])
      + (if s == Pending then [Processing] else [])
      + (if s == Failed then [PaymentFailed] else []);
    assert s == Loading ==> views == [Verifying];
    assert s == Completed ==> views == [Successful];
    assert s == Pending ==> views == [Processing];
    assert s == Failed ==> views == [PaymentFailed];
    views
  }
}
