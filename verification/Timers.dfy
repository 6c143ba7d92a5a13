/** The one-shot timer of util/singleton.go and the race between its callback and Cancel. */
module Timers {
  /**
   Armed: the run-time timer is pending. Expired: the callback goroutine is about to take the
   lock. Committed: it has seen that the flag is down, and runs the task. Skipped: it has seen
   the flag. Stopped: Stop came before the expiry.
   */
  datatype Phase = Unarmed | Armed | Expired | Committed | Ran | Skipped | Stopped

  datatype Timeout = Timeout(phase: Phase, cancelled: bool)

  const FRESH := Timeout(Unarmed, false)

  /** The critical section of Cancel, with Timer.Stop inside it. */
  function AfterCancel(t: Timeout): (Timeout, bool) {
    if t.cancelled then (t, false)
    else if t.phase == Armed then (Timeout(Stopped, true), true)
    else (t.(cancelled := true), false)
  }

  /** The next step of the clock and of the callback it starts. */
  function AfterTick(t: Timeout): Timeout {
    match t.phase
    case Armed => t.(phase := Expired)
    case Expired => t.(phase := if t.cancelled then Skipped else Committed)
    case Committed => t.(phase := Ran)
    case _ => t
  }

  /** The code over its fields; the run-time timer is the phase. */
  class TimeoutTask {
    var cancelled: bool
    var phase: Phase

    function State(): Timeout
      reads this
    {
      Timeout(phase, cancelled)
    }

    constructor ()
      ensures State() == Timeout(Armed, false)
    {
      cancelled, phase := false, Armed;
    }

    method Cancel() returns (stopped: bool)
      modifies this
      ensures (State(), stopped) == AfterCancel(old(State()))
    {
      if cancelled {
        return false;
      }
      cancelled := true;
      stopped := phase == Armed;
      if stopped {
        phase := Stopped;
      }
    }

    /** The locked part of the callback: whether the task is to run. */
    method Check() returns (run: bool)
      requires phase == Expired
      modifies this`phase
      ensures State() == AfterTick(old(State())) && run == (phase == Committed)
    {
      run := !cancelled;
      phase := if run then Committed else Skipped;
    }
  }

  // ----- The race: one clock, any number of calls of Cancel -----

  datatype Turn = Tick | CancelCall

  /** `runs` counts the runs of the task; `stops` the calls of Cancel that returned true. */
  datatype Race = Race(t: Timeout, runs: nat, stops: nat)

  const START := Race(Timeout(Armed, false), 0, 0)

  function Step(s: Race, turn: Turn): Race {
    match turn
    case Tick =>
      Race(AfterTick(s.t), s.runs + if s.t.phase == Committed then 1 else 0, s.stops)
    case CancelCall =>
      var (t, stopped) := AfterCancel(s.t);
      Race(t, s.runs, s.stops + if stopped then 1 else 0)
  }

  function Run(s: Race, turns: seq<Turn>): Race
    decreases |turns|
  {
    if turns == [] then s else Run(Step(s, turns[0]), turns[1..])
  }

  predicate Inv(s: Race) {
    && s.runs == (if s.t.phase == Ran then 1 else 0)
    && s.stops == (if s.t.phase == Stopped then 1 else 0)
    && s.t.phase != Unarmed
    && (s.t.phase == Stopped || s.t.phase == Skipped ==> s.t.cancelled)
    && (s.t.cancelled ==> s.t.phase != Armed)
  }

  lemma {:induction false} RunKeepsInv(s: Race, turns: seq<Turn>)
    requires Inv(s)
    ensures Inv(Run(s, turns))
    decreases |turns|
  {
    if turns != [] {
      RunKeepsInv(Step(s, turns[0]), turns[1..]);
    }
  }

  /** A flag set before the check, by whichever call, keeps the task from running ever after. */
  lemma {:induction false} FlagBeforeCheck(s: Race, turns: seq<Turn>)
    requires s.t.cancelled && s.t.phase != Committed && s.t.phase != Ran
    ensures Run(s, turns).runs == s.runs
    ensures Run(s, turns).t.phase != Committed && Run(s, turns).t.phase != Ran
    decreases |turns|
  {
    if turns != [] {
      FlagBeforeCheck(Step(s, turns[0]), turns[1..]);
    }
  }

  function Ticks(turns: seq<Turn>): nat {
    if turns == [] then 0 else Ticks(turns[1..]) + if turns[0].Tick? then 1 else 0
  }

  lemma {:induction false} TicksFit(turns: seq<Turn>)
    ensures Ticks(turns) <= |turns|
  {
    if turns != [] {
      TicksFit(turns[1..]);
    }
  }

  /** A task that has passed its check runs at the next tick, whatever is cancelled by then. */
  lemma {:induction false} CommittedRuns(s: Race, turns: seq<Turn>)
    requires s.t.phase == Committed || s.t.phase == Ran
    ensures Run(s, turns).runs == s.runs + if s.t.phase == Committed && Ticks(turns) > 0 then 1 else 0
    decreases |turns|
  {
    if turns != [] {
      CommittedRuns(Step(s, turns[0]), turns[1..]);
    }
  }

  /** How many ticks a timer needs before its check is done. */
  function TicksToCheck(p: Phase): nat {
    match p case Armed => 2 case Expired => 1 case _ => 0
  }

  /** No Cancel comes before the tick of the check. */
  predicate CheckedFirst(turns: seq<Turn>, ticks: nat) {
    ticks == 0 || (turns != [] && turns[0].Tick? && CheckedFirst(turns[1..], ticks - 1))
  }

  lemma {:induction false} RunsIffFrom(s: Race, turns: seq<Turn>)
    requires !s.t.cancelled && (s.t.phase == Armed || s.t.phase == Expired)
    ensures Run(s, turns).runs > s.runs <==>
      CheckedFirst(turns, TicksToCheck(s.t.phase)) && Ticks(turns) > TicksToCheck(s.t.phase)
    decreases |turns|
  {
    if turns != [] {
      var s' := Step(s, turns[0]);
      if turns[0].CancelCall? {
        FlagBeforeCheck(s', turns[1..]);
      } else if s.t.phase == Expired {
        CommittedRuns(s', turns[1..]);
        assert CheckedFirst(turns[1..], 0);
      } else {
        RunsIffFrom(s', turns[1..]);
      }
    }
  }

  /**
   The task runs exactly if the timer expires, its check is done before any Cancel, and the
   callback goes on.
   */
  lemma {:induction false} RunsIff(turns: seq<Turn>)
    ensures Run(START, turns).runs == 1 <==>
      |turns| >= 3 && turns[0].Tick? && turns[1].Tick? && Ticks(turns) >= 3
  {
    RunsIffFrom(START, turns);
    RunKeepsInv(START, turns);
    if |turns| >= 2 {
      assert CheckedFirst(turns[1..][1..], 0);
      assert CheckedFirst(turns[1..], 1) <==> turns[1].Tick?;
    }
    assert CheckedFirst(turns, 2) <==> |turns| >= 2 && turns[0].Tick? && turns[1].Tick?;
    TicksFit(turns);
  }

  /**
   In every interleaving the task runs at most once; after a Cancel that returned true, of which
   there is at most one, it has not run and never will; and a task that ran passed its check
   before any Cancel had set the flag.
   */
  lemma {:induction false} CancelOrRun(before: seq<Turn>, after: seq<Turn>)
    ensures var s := Run(START, before); var s' := Run(s, after);
      && s'.runs <= 1 && s'.stops <= 1
      && (s.stops > 0 ==> s'.runs == 0)
      && (s.t.cancelled && s.t.phase == Expired ==> s'.runs == 0)
      && (s'.runs + s'.stops <= 1)
  {
    var s := Run(START, before);
    RunKeepsInv(START, before);
    RunKeepsInv(s, after);
    if s.t.cancelled && s.t.phase != Committed && s.t.phase != Ran {
      FlagBeforeCheck(s, after);
    }
  }
}
