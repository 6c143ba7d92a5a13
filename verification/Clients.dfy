/** The retry loop of a client connection (connectWithRetry of channel/client.go). */
module Clients {
  import opened Bytes
  import opened Values
  import opened Futures

  datatype Dial = Connected(conn: int) | DialTimedOut | Refused(code: int)

  /** What one turn of the loop meets: the stop signal before it dials, the dial, the signal while it waits. */
  datatype Round = Round(stopped: bool, dial: Dial, stoppedWaiting: bool)

  type Answer = Result<int, Error>

  /** Round j ends in another one; a negative count never runs out. */
  predicate Retried(reconnCount: int, round: Round, j: nat) {
    !round.stopped && round.dial.Refused? && j != reconnCount && !round.stoppedWaiting
  }

  function AnswerOf(reconnCount: int, round: Round, j: nat): Answer {
    if round.stopped then Err(ClientStopped)
    else match round.dial
      case Connected(conn) => Ok(conn)
      case DialTimedOut => Err(TimedOut)
      case Refused(code) => Err(if j == reconnCount then ConnectionLost(code) else ClientStopped)
  }

  predicate EndsAt(reconnCount: int, rounds: seq<Round>, j: nat) {
    && j < |rounds|
    && (forall i: nat :: i < j ==> Retried(reconnCount, rounds[i], i))
    && !Retried(reconnCount, rounds[j], j)
  }

  /** How often the loop has dialed when round j ends it. */
  function DialsAt(rounds: seq<Round>, j: nat): nat
    requires j < |rounds|
  {
    j + if rounds[j].stopped then 0 else 1
  }

  function Answered(f: Fut, answer: Option<Answer>): Fut {
    match answer
    case None => f
    case Some(Ok(_)) => AfterSuccess(f).0
    case Some(Err(e)) => AfterFailure(f, Some(e)).0
  }

  /** `rounds` is what the loop meets; without an answer it is still going when they are used up. */
  method ConnectWithRetry(future: Future, reconnCount: int, rounds: seq<Round>)
    returns (dials: nat, answer: Option<Answer>)
    modifies future
    ensures future.State() == Answered(old(future.State()), answer)
    ensures forall j: nat :: EndsAt(reconnCount, rounds, j) ==>
              && answer == Some(AnswerOf(reconnCount, rounds[j], j))
              && dials == DialsAt(rounds, j)
    ensures answer == None ==> dials == |rounds| && forall i: nat :: i < |rounds| ==> Retried(reconnCount, rounds[i], i)
    ensures answer != None ==> exists j: nat :: EndsAt(reconnCount, rounds, j)
  {
    var attemptsLeft := reconnCount;
    dials, answer := 0, None;
    for j := 0 to |rounds|
      invariant answer == None && dials == j && future.State() == old(future.State())
      invariant attemptsLeft == if reconnCount < 0 then reconnCount else reconnCount - j
      invariant forall i: nat :: i < j ==> Retried(reconnCount, rounds[i], i)
      invariant reconnCount < 0 || j <= reconnCount
    {
      var round := rounds[j];
      ghost var ends := EndsAt(reconnCount, rounds, j);
      if round.stopped {
        var _ := future.SetFailure(Some(ClientStopped));
        return dials, Some(Err(ClientStopped));
      }
      dials := dials + 1;
      if round.dial.Connected? {
        var _ := future.SetSuccess();
        return dials, Some(Ok(round.dial.conn));
      }
      var lastError := if round.dial.DialTimedOut? then TimedOut else ConnectionLost(round.dial.code);
      if lastError == TimedOut || attemptsLeft == 0 {
        var _ := future.SetFailure(Some(lastError));
        return dials, Some(Err(lastError));
      }
      if attemptsLeft > 0 {
        attemptsLeft := attemptsLeft - 1;
      }
      if round.stoppedWaiting {
        var _ := future.SetFailure(Some(ClientStopped));
        return dials, Some(Err(ClientStopped));
      }
    }
  }

  lemma {:induction false} FirstEnd(reconnCount: nat, rounds: seq<Round>, n: nat)
    requires n <= |rounds| && forall i: nat :: i < n ==> Retried(reconnCount, rounds[i], i)
    requires |rounds| > reconnCount
    ensures exists j: nat :: EndsAt(reconnCount, rounds, j) && j <= reconnCount
    decreases |rounds| - n
  {
    assert !Retried(reconnCount, rounds[reconnCount], reconnCount);
    if Retried(reconnCount, rounds[n], n) {
      FirstEnd(reconnCount, rounds, n + 1);
    } else {
      assert EndsAt(reconnCount, rounds, n);
    }
  }

  /**
   With a count k >= 0 the loop always ends, in one round only and within k + 1 dials. Whatever
   the count, it answers with a connection exactly if some dial connected before the stop
   signal, a time-out or the end of the retries; and a new future is then completed, once.
   */
  lemma {:induction false} RetryAccounting(reconnCount: int, rounds: seq<Round>)
    ensures 0 <= reconnCount < |rounds| ==> exists j: nat :: EndsAt(reconnCount, rounds, j)
    ensures forall j: nat :: EndsAt(reconnCount, rounds, j) ==>
              && (reconnCount >= 0 ==> DialsAt(rounds, j) <= reconnCount + 1)
              && (forall i: nat :: EndsAt(reconnCount, rounds, i) ==> i == j)
              && (AnswerOf(reconnCount, rounds[j], j).Ok? <==> !rounds[j].stopped && rounds[j].dial.Connected?)
              && Answered(NEW_FUTURE, Some(AnswerOf(reconnCount, rounds[j], j))).done
              && (Answered(NEW_FUTURE, Some(AnswerOf(reconnCount, rounds[j], j))).IsSuccess() <==>
                    !rounds[j].stopped && rounds[j].dial.Connected?)
  {
    if 0 <= reconnCount < |rounds| {
      FirstEnd(reconnCount, rounds, 0);
      assert !Retried(reconnCount, rounds[reconnCount], reconnCount);
    }
  }

  /** Refused, and neither before the dial nor behind it does the loop see the stop. */
  predicate PlainlyRefused(round: Round) {
    !round.stopped && round.dial.Refused? && !round.stoppedWaiting
  }

  /**
   What the loop makes of round j when it has only been refused before: it answers the stop without
   a dial, a connection, a time-out and the last refusal of its count at once, and the stop during
   its wait; otherwise it goes on. A negative count has no last refusal.
   */
  lemma {:induction false} RoundByRound(reconnCount: int, rounds: seq<Round>, j: nat)
    requires j < |rounds| && forall i: nat :: i < j ==> PlainlyRefused(rounds[i])
    requires reconnCount < 0 || j <= reconnCount
    ensures var r := rounds[j]; var a := AnswerOf(reconnCount, r, j);
      && (EndsAt(reconnCount, rounds, j) <==> !PlainlyRefused(r) || j == reconnCount)
      && (r.stopped ==> a == Err(ClientStopped) && DialsAt(rounds, j) == j)
      && (!r.stopped ==> DialsAt(rounds, j) == j + 1)
      && (!r.stopped && r.dial.Connected? ==> a == Ok(r.dial.conn))
      && (!r.stopped && r.dial.DialTimedOut? ==> a == Err(TimedOut))
      && (!r.stopped && r.dial.Refused? && j == reconnCount ==> a == Err(ConnectionLost(r.dial.code)))
      && (!r.stopped && r.dial.Refused? && j != reconnCount && r.stoppedWaiting ==> a == Err(ClientStopped))
  {
    assert forall i: nat :: i < j ==> Retried(reconnCount, rounds[i], i);
  }

  /** Refused all the time, a count k >= 0 gives up after k + 1 dials and a negative one never does. */
  lemma {:induction false} RefusedThroughout(reconnCount: int, rounds: seq<Round>)
    requires forall i: nat :: i < |rounds| ==> PlainlyRefused(rounds[i])
    ensures 0 <= reconnCount < |rounds| ==>
      EndsAt(reconnCount, rounds, reconnCount) && DialsAt(rounds, reconnCount) == reconnCount + 1
    ensures reconnCount < 0 ==> forall j: nat :: !EndsAt(reconnCount, rounds, j)
  {
    if 0 <= reconnCount < |rounds| {
      RoundByRound(reconnCount, rounds, reconnCount);
    }
    assert reconnCount < 0 ==> forall i: nat :: i < |rounds| ==> Retried(reconnCount, rounds[i], i);
  }
}
