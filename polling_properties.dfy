/** What the payment page's polling loop guarantees, proved about its specification
    `PaymentSuccess.Attempts` (and so, through `StatusPoller.CheckStatus`, about the loop). */
module PollingProperties {
  import opened PaymentSuccess

  // ---------------------------------------------------------------------------------------
  // Measures of a log over concatenation

  lemma {:induction false} DisplayedConcat(initial: Status, a: seq<Event>, b: seq<Event>)
    ensures Displayed(initial, a + b) == Displayed(Displayed(initial, a), b)
    decreases |b|
  {
    if b != [] {
      assert (a + b)[..|a + b| - 1] == a + b[..|b| - 1];
      DisplayedConcat(initial, a, b[..|b| - 1]);
    } else {
      assert a + b == a;
    }
  }

  lemma {:induction false} QueryAttemptsConcat(a: seq<Event>, b: seq<Event>)
    ensures QueryAttempts(a + b) == QueryAttempts(a) + QueryAttempts(b)
    decreases |b|
  {
    if b != [] {
      assert (a + b)[..|a + b| - 1] == a + b[..|b| - 1];
      QueryAttemptsConcat(a, b[..|b| - 1]);
    } else {
      assert a + b == a;
    }
  }

  lemma {:induction false} WaitCountConcat(a: seq<Event>, b: seq<Event>)
    ensures WaitCount(a + b) == WaitCount(a) + WaitCount(b)
    decreases |b|
  {
    if b != [] {
      assert (a + b)[..|a + b| - 1] == a + b[..|b| - 1];
      WaitCountConcat(a, b[..|b| - 1]);
    } else {
      assert a + b == a;
    }
  }

  /** Events other than `setStatus` calls leave the displayed status alone. */
  lemma {:induction false} NoEmitKeepsStatus(initial: Status, events: seq<Event>)
    requires forall i :: 0 <= i < |events| ==> !events[i].Emit?
    ensures Displayed(initial, events) == initial
    decreases |events|
  {
    if events != [] {
      NoEmitKeepsStatus(initial, events[..|events| - 1]);
    }
  }

  // ---------------------------------------------------------------------------------------
  // One attempt

  /** One attempt's events: a single query, numbered `attempt`, a wait only when the loop
      waits after that reply, and the display then shows what the reply leads to. */
  lemma BlockMeasures(reply: Reply, attempt: nat)
    ensures QueryAttempts(Block(reply, attempt)) == [attempt]
    ensures WaitCount(Block(reply, attempt)) == if WaitsAfter(reply, attempt) then 1 else 0
    ensures forall initial :: Displayed(initial, Block(reply, attempt)) == Shown(reply)
  {
    forall initial ensures Displayed(initial, Block(reply, attempt)) == Shown(reply) {
      DisplayedAfterBlock(initial, [], reply, attempt);
      assert [] + Block(reply, attempt) == Block(reply, attempt);
    }
    var q := [Query(attempt)];
    var qe := q + [Emit(Shown(reply))];
    assert q[..0] == [] && qe[..1] == q;
    assert WaitCount(q[..0]) == 0 && QueryAttempts(q[..0]) == [];
    assert QueryAttempts(q) == [attempt] && WaitCount(q) == 0;
    assert QueryAttempts(qe) == QueryAttempts(q) && WaitCount(qe) == WaitCount(q);
    if WaitsAfter(reply, attempt) {
      var qew := qe + [Wait(DelayMs)];
      assert Block(reply, attempt) == qew && qew[..2] == qe;
    } else {
      assert Block(reply, attempt) == qe;
    }
  }

  /** A reply that stops the loop ends the run with its attempt's events. */
  lemma StoppedRun(replies: seq<Reply>, attempt: nat)
    requires attempt < MaxAttempts <= |replies|
    requires !Continues(replies[attempt]) || attempt == MaxAttempts - 1
    ensures Attempts(replies, attempt) == Block(replies[attempt], attempt)
    ensures !WaitsAfter(replies[attempt], attempt)
  {
  }

  /** A reply that lets the loop go on is followed by the rest of the run. */
  lemma ContinuedRun(replies: seq<Reply>, attempt: nat)
    requires attempt < MaxAttempts - 1 && MaxAttempts <= |replies|
    requires Continues(replies[attempt])
    ensures Attempts(replies, attempt) == Block(replies[attempt], attempt) + Attempts(replies, attempt + 1)
  {
  }

  // ---------------------------------------------------------------------------------------
  // Counting and ending the run

  /** The queries of a run from `attempt` are numbered `attempt`, `attempt + 1`, ... in order,
      there is at least one while attempts remain, and never more than the attempts left. */
  lemma {:induction false} QueriesNumbered(replies: seq<Reply>, attempt: nat)
    requires attempt <= MaxAttempts <= |replies|
    ensures var qs := QueryAttempts(Attempts(replies, attempt));
      |qs| <= MaxAttempts - attempt &&
      (attempt < MaxAttempts ==> 1 <= |qs|) &&
      forall i :: 0 <= i < |qs| ==> qs[i] == attempt + i
    decreases MaxAttempts - attempt
  {
    if attempt < MaxAttempts {
      var b := Block(replies[attempt], attempt);
      BlockMeasures(replies[attempt], attempt);
      if Continues(replies[attempt]) && attempt < MaxAttempts - 1 {
        ContinuedRun(replies, attempt);
        QueriesNumbered(replies, attempt + 1);
        QueryAttemptsConcat(b, Attempts(replies, attempt + 1));
      } else {
        StoppedRun(replies, attempt);
      }
    }
  }

  /** The attempt whose reply ends a run that starts at `attempt`: the first reply that is
      terminal or an error, or the last attempt if every reply lets the loop go on. */
  function LastAttempt(replies: seq<Reply>, attempt: nat): (last: nat)
    requires attempt < MaxAttempts <= |replies|
    ensures attempt <= last < MaxAttempts
    ensures forall j :: attempt <= j < last ==> Continues(replies[j])
    ensures last < MaxAttempts - 1 ==> !Continues(replies[last])
    decreases MaxAttempts - attempt
  {
    if !Continues(replies[attempt]) || attempt == MaxAttempts - 1 then attempt
    else LastAttempt(replies, attempt + 1)
  }

  /** A run asks exactly for the replies up to its last attempt. */
  lemma {:induction false} QueryCount(replies: seq<Reply>, attempt: nat)
    requires attempt < MaxAttempts <= |replies|
    ensures |QueryAttempts(Attempts(replies, attempt))| == LastAttempt(replies, attempt) - attempt + 1
    decreases MaxAttempts - attempt
  {
    var b := Block(replies[attempt], attempt);
    BlockMeasures(replies[attempt], attempt);
    if Continues(replies[attempt]) && attempt < MaxAttempts - 1 {
      ContinuedRun(replies, attempt);
      QueryCount(replies, attempt + 1);
      QueryAttemptsConcat(b, Attempts(replies, attempt + 1));
    } else {
      StoppedRun(replies, attempt);
    }
  }

  /** The status displayed at the end of the run is what the last reply leads to: its own
      status, stored as it came, or failed for an error. */
  lemma {:induction false} FinalStatusIsLastReply(replies: seq<Reply>, attempt: nat, initial: Status)
    requires attempt < MaxAttempts <= |replies|
    ensures Displayed(initial, Attempts(replies, attempt)) == Shown(replies[LastAttempt(replies, attempt)])
    decreases MaxAttempts - attempt
  {
    var b := Block(replies[attempt], attempt);
    BlockMeasures(replies[attempt], attempt);
    if Continues(replies[attempt]) && attempt < MaxAttempts - 1 {
      var rest := Attempts(replies, attempt + 1);
      ContinuedRun(replies, attempt);
      DisplayedConcat(initial, b, rest);
      FinalStatusIsLastReply(replies, attempt + 1, Shown(replies[attempt]));
    } else {
      StoppedRun(replies, attempt);
    }
  }

  /** Fewer waits than queries: at most 3 waits in a run. */
  lemma {:induction false} WaitsFewerThanQueries(replies: seq<Reply>, attempt: nat)
    requires attempt < MaxAttempts <= |replies|
    ensures WaitCount(Attempts(replies, attempt)) < |QueryAttempts(Attempts(replies, attempt))|
    decreases MaxAttempts - attempt
  {
    var b := Block(replies[attempt], attempt);
    BlockMeasures(replies[attempt], attempt);
    if Continues(replies[attempt]) && attempt < MaxAttempts - 1 {
      var rest := Attempts(replies, attempt + 1);
      ContinuedRun(replies, attempt);
      WaitsFewerThanQueries(replies, attempt + 1);
      WaitCountConcat(b, rest);
      QueryAttemptsConcat(b, rest);
    } else {
      StoppedRun(replies, attempt);
    }
  }

  // ---------------------------------------------------------------------------------------
  // Where each kind of event can stand in the log

  /** A run with attempts left opens with that attempt's query and the value it sets. */
  lemma RunOpens(replies: seq<Reply>, attempt: nat)
    requires attempt < MaxAttempts <= |replies|
    ensures var events := Attempts(replies, attempt);
      |events| >= 2 && events[0] == Query(attempt) && events[1] == Emit(Shown(replies[attempt]))
  {
  }

  /** A terminal value (or the failure an error sets) is only ever set as the very last event:
      after it the loop issues no query, sets nothing and does not wait. */
  lemma {:induction false} TerminalStatusEndsRun(replies: seq<Reply>, attempt: nat)
    requires attempt <= MaxAttempts <= |replies|
    ensures var events := Attempts(replies, attempt);
      forall k :: 0 <= k < |events| - 1 ==> !(events[k].Emit? && IsTerminal(events[k].status))
    decreases MaxAttempts - attempt
  {
    if attempt < MaxAttempts {
      var b := Block(replies[attempt], attempt);
      if Continues(replies[attempt]) && attempt < MaxAttempts - 1 {
        var rest := Attempts(replies, attempt + 1);
        ContinuedRun(replies, attempt);
        TerminalStatusEndsRun(replies, attempt + 1);
        var events := b + rest;
        forall k | 0 <= k < |events| - 1
          ensures !(events[k].Emit? && IsTerminal(events[k].status))
        {
          if k >= |b| {
            assert events[k] == rest[k - |b|];
          }
        }
      } else {
        StoppedRun(replies, attempt);
      }
    }
  }

  /** Every query is answered at once by a `setStatus` call with what its reply leads to, and
      the query of the last attempt is followed by nothing else. */
  lemma {:induction false} EveryQueryAnswered(replies: seq<Reply>, attempt: nat)
    requires attempt <= MaxAttempts <= |replies|
    ensures var events := Attempts(replies, attempt);
      forall k :: 0 <= k < |events| && events[k].Query? ==>
        attempt <= events[k].attempt < MaxAttempts &&
        k + 1 < |events| &&
        events[k + 1] == Emit(Shown(replies[events[k].attempt])) &&
        (events[k].attempt == MaxAttempts - 1 ==> k + 2 == |events|)
    decreases MaxAttempts - attempt
  {
    if attempt < MaxAttempts {
      var b := Block(replies[attempt], attempt);
      if Continues(replies[attempt]) && attempt < MaxAttempts - 1 {
        var rest := Attempts(replies, attempt + 1);
        ContinuedRun(replies, attempt);
        EveryQueryAnswered(replies, attempt + 1);
        RunOpens(replies, attempt + 1);
        var events := b + rest;
        forall k | 0 <= k < |events| && events[k].Query?
          ensures attempt <= events[k].attempt < MaxAttempts
          ensures k + 1 < |events| && events[k + 1] == Emit(Shown(replies[events[k].attempt]))
          ensures events[k].attempt == MaxAttempts - 1 ==> k + 2 == |events|
        {
          if k >= |b| {
            assert events[k] == rest[k - |b|] && events[k + 1] == rest[k + 1 - |b|];
          } else {
            assert events[k] == b[k];
          }
        }
      } else {
        StoppedRun(replies, attempt);
      }
    }
  }

  /** The wait at position `k` lasts `DelayMs`, comes right after a pending status set in
      an attempt that is not the last, and is followed at once by the next attempt's query. */
  predicate WaitWellPlaced(events: seq<Event>, k: int)
  {
    2 <= k < |events| - 1 &&
    events[k] == Wait(DelayMs) &&
    events[k - 1] == Emit(Pending) &&
    events[k - 2].Query? && events[k - 2].attempt < MaxAttempts - 1 &&
    events[k + 1] == Query(events[k - 2].attempt + 1)
  }

  /** A well-placed wait stays well placed when events are put in front of it. */
  lemma WaitPlacementShifts(b: seq<Event>, rest: seq<Event>, k: int)
    requires |b| <= k && WaitWellPlaced(rest, k - |b|)
    ensures WaitWellPlaced(b + rest, k)
  {
    var events := b + rest;
    assert events[k] == rest[k - |b|];
    assert events[k - 1] == rest[k - 1 - |b|] && events[k - 2] == rest[k - 2 - |b|];
    assert events[k + 1] == rest[k + 1 - |b|];
  }

  /** The wait inside an attempt's events is well placed once the next attempt's query follows. */
  lemma WaitInBlockPlaced(reply: Reply, attempt: nat, rest: seq<Event>, k: int)
    requires 0 <= k < |Block(reply, attempt)| && Block(reply, attempt)[k].Wait?
    requires rest != [] && rest[0] == Query(attempt + 1)
    ensures WaitWellPlaced(Block(reply, attempt) + rest, k)
  {
    var b := Block(reply, attempt);
    assert k == 2;
    assert (b + rest)[k + 1] == rest[0];
  }

  /** A wait always lasts `DelayMs`, comes right after a pending status set in an attempt
      that is not the last, and is followed at once by the next attempt's query: there is
      never a wait after the last attempt. */
  lemma {:induction false} WaitOnlyAfterPending(replies: seq<Reply>, attempt: nat)
    requires attempt <= MaxAttempts <= |replies|
    ensures var events := Attempts(replies, attempt);
      forall k :: 0 <= k < |events| && events[k].Wait? ==> WaitWellPlaced(events, k)
    decreases MaxAttempts - attempt
  {
    if attempt < MaxAttempts {
      var b := Block(replies[attempt], attempt);
      if Continues(replies[attempt]) && attempt < MaxAttempts - 1 {
        var rest := Attempts(replies, attempt + 1);
        ContinuedRun(replies, attempt);
        WaitOnlyAfterPending(replies, attempt + 1);
        RunOpens(replies, attempt + 1);
        var events := b + rest;
        forall k | 0 <= k < |events| && events[k].Wait? ensures WaitWellPlaced(events, k) {
          if k >= |b| {
            assert rest[k - |b|] == events[k];
            WaitPlacementShifts(b, rest, k);
          } else {
            assert b[k] == events[k];
            WaitInBlockPlaced(replies[attempt], attempt, rest, k);
          }
        }
      } else {
        StoppedRun(replies, attempt);
      }
    }
  }

  /** At position `k` a query of an attempt that is not the last is answered by a
      non-terminal value. */
  predicate NonTerminalAnswerAt(events: seq<Event>, k: int)
  {
    0 <= k < |events| - 1 && events[k].Query? && events[k].attempt < MaxAttempts - 1 &&
    events[k + 1].Emit? && !IsTerminal(events[k + 1].status)
  }

  /** What comes after such an answer: for pending, a wait of `DelayMs` and then the next
      attempt's query; for any other value, the next attempt's query at once. */
  predicate ResumesAfter(events: seq<Event>, k: int)
    requires NonTerminalAnswerAt(events, k)
  {
    if events[k + 1].status == Pending then
      k + 3 < |events| && events[k + 2] == Wait(DelayMs) && events[k + 3] == Query(events[k].attempt + 1)
    else
      k + 2 < |events| && events[k + 2] == Query(events[k].attempt + 1)
  }

  /** What follows a non-terminal status set in an attempt that is not the last: for pending,
      a wait and then the next query; for any other value (an unrecognised status or a missing
      one) the next query at once, with no wait. */
  lemma {:induction false} NextAfterNonTerminal(replies: seq<Reply>, attempt: nat)
    requires attempt <= MaxAttempts <= |replies|
    ensures var events := Attempts(replies, attempt);
      forall k :: NonTerminalAnswerAt(events, k) ==> ResumesAfter(events, k)
    decreases MaxAttempts - attempt
  {
    if attempt < MaxAttempts {
      var b := Block(replies[attempt], attempt);
      if Continues(replies[attempt]) && attempt < MaxAttempts - 1 {
        var rest := Attempts(replies, attempt + 1);
        ContinuedRun(replies, attempt);
        NextAfterNonTerminal(replies, attempt + 1);
        RunOpens(replies, attempt + 1);
        var events := b + rest;
        forall k | NonTerminalAnswerAt(events, k) ensures ResumesAfter(events, k) {
          if k >= |b| {
            var i := k - |b|;
            assert events[k] == rest[i] && events[k + 1] == rest[i + 1];
            assert NonTerminalAnswerAt(rest, i);
            assert i + 2 < |rest| ==> events[k + 2] == rest[i + 2];
            assert i + 3 < |rest| ==> events[k + 3] == rest[i + 3];
          } else {
            assert events[k] == b[k];
            assert events[|b|] == rest[0];
          }
        }
      } else {
        StoppedRun(replies, attempt);
      }
    }
  }

  // ---------------------------------------------------------------------------------------
  // Whole runs of `checkStatus`

  /** A run issues between one and `MaxAttempts` queries, numbered 0, 1, ... in order, and
      waits fewer times than it queries, so at most `MaxAttempts - 1` times. */
  lemma RunIsBounded(replies: seq<Reply>)
    requires MaxAttempts <= |replies|
    ensures var qs := QueryAttempts(Poll(replies));
      1 <= |qs| <= MaxAttempts && (forall i :: 0 <= i < |qs| ==> qs[i] == i)
    ensures WaitCount(Poll(replies)) < |QueryAttempts(Poll(replies))|
    ensures WaitCount(Poll(replies)) <= MaxAttempts - 1
  {
    QueriesNumbered(replies, 0);
    WaitsFewerThanQueries(replies, 0);
  }

  /** Before the first reply has been handled the page shows `loading`: the only event that
      can precede the first `setStatus` is the first query. */
  lemma LoadingUntilFirstReply(replies: seq<Reply>, k: nat)
    requires MaxAttempts <= |replies|
    requires k <= |Poll(replies)|
    requires forall i :: 0 <= i < k ==> !Poll(replies)[i].Emit?
    ensures k <= 1
    ensures Displayed(Loading, Poll(replies)[..k]) == Loading
  {
    RunOpens(replies, 0);
    NoEmitKeepsStatus(Loading, Poll(replies)[..k]);
  }

  /** If the `k`-th query throws (a non-ok response, a network failure, a body that cannot be
      read) after only non-final replies, the run ends there: `k + 1` queries, no later event,
      and failed displayed. */
  lemma ErrorEndsRun(replies: seq<Reply>, k: nat)
    requires MaxAttempts <= |replies| && k < MaxAttempts
    requires replies[k] == Err
    requires forall j :: 0 <= j < k ==> Continues(replies[j])
    ensures |QueryAttempts(Poll(replies))| == k + 1
    ensures Poll(replies)[|Poll(replies)| - 1] == Emit(Failed)
    ensures Displayed(Loading, Poll(replies)) == Failed
  {
    FinalReplyEndsRun(replies, k);
  }

  /** If the `k`-th reply is completed or failed after only non-final replies, the run ends
      there with that value displayed and `k + 1` queries. */
  lemma TerminalReplyEndsRun(replies: seq<Reply>, k: nat)
    requires MaxAttempts <= |replies| && k < MaxAttempts
    requires replies[k].Ok? && IsTerminal(replies[k].status)
    requires forall j :: 0 <= j < k ==> Continues(replies[j])
    ensures |QueryAttempts(Poll(replies))| == k + 1
    ensures Poll(replies)[|Poll(replies)| - 1] == Emit(replies[k].status)
    ensures Displayed(Loading, Poll(replies)) == replies[k].status
  {
    FinalReplyEndsRun(replies, k);
  }

  /** The common part of the two lemmas above: a reply that stops the loop, after only
      replies that let it go on, is the last one asked for. */
  lemma FinalReplyEndsRun(replies: seq<Reply>, k: nat)
    requires MaxAttempts <= |replies| && k < MaxAttempts
    requires !Continues(replies[k])
    requires forall j :: 0 <= j < k ==> Continues(replies[j])
    ensures |QueryAttempts(Poll(replies))| == k + 1
    ensures Poll(replies)[|Poll(replies)| - 1] == Emit(Shown(replies[k]))
    ensures Displayed(Loading, Poll(replies)) == Shown(replies[k])
  {
    var last := LastAttempt(replies, 0);
    assert last == k;
    QueryCount(replies, 0);
    FinalStatusIsLastReply(replies, 0, Loading);
    var events := Poll(replies);
    LastEventIsEmit(replies, 0);
  }

  /** A run ends with a `setStatus` call. */
  lemma {:induction false} LastEventIsEmit(replies: seq<Reply>, attempt: nat)
    requires attempt < MaxAttempts <= |replies|
    ensures var events := Attempts(replies, attempt);
      events != [] && events[|events| - 1] == Emit(Shown(replies[LastAttempt(replies, attempt)]))
    decreases MaxAttempts - attempt
  {
    if !Continues(replies[attempt]) || attempt == MaxAttempts - 1 {
      StoppedRun(replies, attempt);
    } else {
      ContinuedRun(replies, attempt);
      LastEventIsEmit(replies, attempt + 1);
    }
  }

  /** Exhaustion: four pending replies give four queries, three waits and `pending` left on
      the page, never failed. */
  lemma FourPendingReplies(replies: seq<Reply>)
    requires MaxAttempts <= |replies|
    requires forall j :: 0 <= j < MaxAttempts ==> replies[j] == Ok(Pending)
    ensures Poll(replies) == [
      Query(0), Emit(Pending), Wait(DelayMs),
      Query(1), Emit(Pending), Wait(DelayMs),
      Query(2), Emit(Pending), Wait(DelayMs),
      Query(3), Emit(Pending)]
    ensures Displayed(Loading, Poll(replies)) == Pending
  {
  }

  /** Immediate completion: one query, and `completed` replaces `loading`. */
  lemma CompletedAtOnce(replies: seq<Reply>)
    requires MaxAttempts <= |replies| && replies[0] == Ok(Completed)
    ensures Poll(replies) == [Query(0), Emit(Completed)]
    ensures Displayed(Loading, Poll(replies)) == Completed
  {
  }

  /** Pending, pending, completed: three queries with a wait after each pending reply. */
  lemma CompletedAfterTwoPending(replies: seq<Reply>)
    requires MaxAttempts <= |replies|
    requires replies[0] == Ok(Pending) && replies[1] == Ok(Pending) && replies[2] == Ok(Completed)
    ensures Poll(replies) == [
      Query(0), Emit(Pending), Wait(DelayMs),
      Query(1), Emit(Pending), Wait(DelayMs),
      Query(2), Emit(Completed)]
    ensures Displayed(Loading, Poll(replies)) == Completed
  {
  }

  /** Pending, then an error on the second attempt: two queries and failed displayed. */
  lemma ErrorOnSecondAttempt(replies: seq<Reply>)
    requires MaxAttempts <= |replies|
    requires replies[0] == Ok(Pending) && replies[1] == Err
    ensures Poll(replies) == [Query(0), Emit(Pending), Wait(DelayMs), Query(1), Emit(Failed)]
    ensures Displayed(Loading, Poll(replies)) == Failed
  {
  }

  /** An unrecognised status is displayed as it came and the next attempt follows at once:
      here a reply "processing" on the first attempt, then completed. */
  lemma UnrecognisedStatusRetriesAtOnce(replies: seq<Reply>)
    requires MaxAttempts <= |replies|
    requires replies[0] == Ok(Str("processing")) && replies[1] == Ok(Completed)
    ensures Poll(replies) == [Query(0), Emit(Str("processing")), Query(1), Emit(Completed)]
    ensures Displayed(Loading, Poll(replies)[..2]) == Str("processing")
  {
  }

  /** A body without a `status` property is not treated as a failure: `undefined` is stored,
      the page then renders none of its four views, and the loop queries again at once. */
  lemma MissingStatusBlanksPage(replies: seq<Reply>)
    requires MaxAttempts <= |replies| && replies[0] == Ok(Undefined)
    ensures Poll(replies)[..3] == [Query(0), Emit(Undefined), Query(1)]
    ensures StatusViews(Displayed(Loading, Poll(replies)[..2])) == []
  {
  }
}
