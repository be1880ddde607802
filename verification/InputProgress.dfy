/**
 That a key of the input service (applications/input/input.c) does not get stuck: after every press the thread
 is back at its scan, the daemon takes the stop that the thread waits for, and a held key's timer fires.
 */
module InputProgress {
  import opened InputDebounce
  import opened InputPress

  // ----- The thread's way back to its scan

  /** The thread waits for the timer to stop; the one statement that it may repeat. */
  predicate Waits(p: Pin) {
    p.thread == AwaitStop && p.active
  }

  /** How many own steps, not counting waits, the thread takes at most until it scans again. */
  function ScanRank(p: Pin): nat {
    match p.thread
    case Scan => 0
    case StartTimer => 1
    case StopTimer => 5
    case AwaitStop => 4
    case TestCounter => if p.counter < LONG_PRESS_COUNTS then 3 else 2
    case PublishShort => 2
    case ResetCounter => 1
  }

  lemma OwnStepComesCloser(p: Pin, debounceTicks: nat, level: bool)
    requires p.thread != Scan
    ensures Waits(p) ==> ThreadStep(p, debounceTicks, level) == p
    ensures !Waits(p) ==> ScanRank(ThreadStep(p, debounceTicks, level)) < ScanRank(p)
  {
  }

  lemma DaemonKeepsRank(p: Pin, fire: bool, initial: Phase)
    requires Inv(p, initial)
    ensures ScanRank(DaemonStep(p, fire)) == ScanRank(p)
  {
  }

  /** The thread does not scan in any state of the run. */
  ghost predicate AwayFromScan(p: Pin, debounceTicks: nat, acts: seq<Action>)
    decreases |acts|
  {
    p.thread != Scan && (acts != [] ==> AwayFromScan(Step(p, debounceTicks, acts[0]), debounceTicks, acts[1..]))
  }

  /** The thread's steps of a run, without its waits. */
  function Moves(p: Pin, debounceTicks: nat, acts: seq<Action>): nat
    decreases |acts|
  {
    if acts == [] then 0
    else
      (if acts[0].Thread? && !Waits(p) then 1 else 0) + Moves(Step(p, debounceTicks, acts[0]), debounceTicks, acts[1..])
  }

  lemma StepKeepsInv(p: Pin, debounceTicks: nat, a: Action, initial: Phase)
    requires Inv(p, initial)
    ensures Inv(Step(p, debounceTicks, a), initial)
  {
    match a
    case Thread(level) => ThreadKeepsInv(p, debounceTicks, level, initial);
    case Daemon(fire) => DaemonKeepsInv(p, fire, initial);
  }

  /**
   From every reachable state, over every interleaving, each of the thread's steps but a wait brings it closer
   to its scan: it makes fewer than `ScanRank` of them without scanning.
   */
  lemma {:induction false} FewStepsToScan(p: Pin, debounceTicks: nat, acts: seq<Action>, initial: Phase)
    requires Inv(p, initial) && AwayFromScan(p, debounceTicks, acts)
    ensures Moves(p, debounceTicks, acts) + ScanRank(Run(p, debounceTicks, acts)) <= ScanRank(p)
    ensures Moves(p, debounceTicks, acts) < ScanRank(p)
    decreases |acts|
  {
    if acts != [] {
      var next := Step(p, debounceTicks, acts[0]);
      match acts[0] {
        case Thread(level) => OwnStepComesCloser(p, debounceTicks, level);
        case Daemon(fire) => DaemonKeepsRank(p, fire, initial);
      }
      StepKeepsInv(p, debounceTicks, acts[0], initial);
      FewStepsToScan(next, debounceTicks, acts[1..], initial);
    }
  }

  // ----- The wait for the timer to stop

  /** How many statements the daemon is from looking at its commands. */
  function DrainRank(pc: DaemonPc): nat {
    match pc
    case Drain => 0
    case PublishRepeat => 1
    case Uncount => 2
    case Test => 3
    case Count => 4
    case Expire => 5
  }

  /** How many daemon steps away the last pending command is. */
  function StopRank(p: Pin): nat {
    if p.queue == [] then 0 else DrainRank(p.daemon) + |p.queue|
  }

  function DaemonSteps(acts: seq<Action>): nat {
    if acts == [] then 0 else (if acts[0].Daemon? then 1 else 0) + DaemonSteps(acts[1..])
  }

  ghost predicate StaysWaiting(p: Pin, debounceTicks: nat, acts: seq<Action>)
    decreases |acts|
  {
    p.thread == AwaitStop && (acts != [] ==> StaysWaiting(Step(p, debounceTicks, acts[0]), debounceTicks, acts[1..]))
  }

  /** A thread that waits on a running timer has its Stop pending, last in the queue. */
  lemma WaitsForStop(p: Pin, initial: Phase)
    requires Inv(p, initial) && Waits(p)
    ensures p.queue != [] && p.queue[|p.queue| - 1] == Stop
  {
    assert !Final(p);
  }

  /** The wait ends: once the daemon has taken as many steps as `StopRank` says, the timer is stopped for good. */
  lemma {:induction false} StopIsTaken(p: Pin, debounceTicks: nat, acts: seq<Action>, initial: Phase)
    requires Inv(p, initial) && StaysWaiting(p, debounceTicks, acts)
    ensures
      var p' := Run(p, debounceTicks, acts);
      && (DaemonSteps(acts) + StopRank(p') <= StopRank(p) || StopRank(p') == 0)
      && (DaemonSteps(acts) >= StopRank(p) ==> p'.queue == [] && !p'.active)
    decreases |acts|
  {
    if acts != [] {
      StepKeepsInv(p, debounceTicks, acts[0], initial);
      StopIsTaken(Step(p, debounceTicks, acts[0]), debounceTicks, acts[1..], initial);
      if p.queue == [] {
        StaysTaken(p, debounceTicks, acts);
      }
      RunKeepsInv(p, debounceTicks, acts, initial);
    }
    assert StopRank(Run(p, debounceTicks, acts)) == 0 ==> !Final(Run(p, debounceTicks, acts)) by {
      RunKeepsInv(p, debounceTicks, acts, initial);
      StillWaiting(p, debounceTicks, acts);
    }
  }

  lemma {:induction false} StillWaiting(p: Pin, debounceTicks: nat, acts: seq<Action>)
    requires StaysWaiting(p, debounceTicks, acts)
    ensures Run(p, debounceTicks, acts).thread == AwaitStop
    decreases |acts|
  {
    if acts != [] {
      StillWaiting(Step(p, debounceTicks, acts[0]), debounceTicks, acts[1..]);
    }
  }

  lemma {:induction false} StaysTaken(p: Pin, debounceTicks: nat, acts: seq<Action>)
    requires StaysWaiting(p, debounceTicks, acts) && p.queue == []
    ensures Run(p, debounceTicks, acts).queue == []
    decreases |acts|
  {
    if acts != [] {
      StaysTaken(Step(p, debounceTicks, acts[0]), debounceTicks, acts[1..]);
    }
  }

  // ----- Commands to the timer

  function TakenBy(p: Pin, a: Action): seq<Command> {
    if a.Daemon? && p.daemon == Drain && p.queue != [] then [p.queue[0]] else []
  }

  function PostedBy(p: Pin, a: Action): seq<Command> {
    if a.Daemon? then [] else if p.thread == StartTimer then [Start] else if p.thread == StopTimer then [Stop] else []
  }

  /** The commands that the daemon looked at in a run. */
  function Taken(p: Pin, debounceTicks: nat, acts: seq<Action>): seq<Command>
    decreases |acts|
  {
    if acts == [] then [] else TakenBy(p, acts[0]) + Taken(Step(p, debounceTicks, acts[0]), debounceTicks, acts[1..])
  }

  /** The commands that the thread gave. */
  function Posted(p: Pin, debounceTicks: nat, acts: seq<Action>): seq<Command>
    decreases |acts|
  {
    if acts == [] then [] else PostedBy(p, acts[0]) + Posted(Step(p, debounceTicks, acts[0]), debounceTicks, acts[1..])
  }

  lemma CommandStep(p: Pin, debounceTicks: nat, a: Action)
    ensures TakenBy(p, a) + Step(p, debounceTicks, a).queue == p.queue + PostedBy(p, a)
    ensures Step(p, debounceTicks, a).active == if TakenBy(p, a) == [] then p.active else TakenBy(p, a)[0] == Start
  {
  }

  /**
   In every run each command given is taken once, in order, or still pending, and the timer runs exactly when
   the last one taken was a start.
   */
  lemma {:induction false} CommandsInOrder(p: Pin, debounceTicks: nat, acts: seq<Action>)
    ensures
      var p', taken := Run(p, debounceTicks, acts), Taken(p, debounceTicks, acts);
      && taken + p'.queue == p.queue + Posted(p, debounceTicks, acts)
      && p'.active == if taken == [] then p.active else taken[|taken| - 1] == Start
    decreases |acts|
  {
    if acts != [] {
      var next := Step(p, debounceTicks, acts[0]);
      CommandStep(p, debounceTicks, acts[0]);
      CommandsInOrder(next, debounceTicks, acts[1..]);
      Regroup(TakenBy(p, acts[0]), Taken(next, debounceTicks, acts[1..]), Run(p, debounceTicks, acts).queue, next.queue,
        p.queue, PostedBy(p, acts[0]), Posted(next, debounceTicks, acts[1..]));
    }
  }

  lemma Regroup(taken: seq<Command>, more: seq<Command>, end: seq<Command>, next: seq<Command>,
      start: seq<Command>, posted: seq<Command>, later: seq<Command>)
    requires taken + next == start + posted && more + end == next + later
    ensures taken + more + end == start + (posted + later)
  {
    assert taken + more + end == taken + (more + end) == taken + next + later == start + posted + later;
  }

  // ----- The exact way from there

  /** The thread will not wait any more before its next scan. */
  predicate Settled(p: Pin) {
    p.thread != StopTimer && (p.thread == AwaitStop ==> p.queue == [])
  }

  /** How many own steps exactly a settled thread takes until it scans; a short press costs one more. */
  function ReturnRank(p: Pin): nat {
    if p.thread == AwaitStop then (if p.counter < LONG_PRESS_COUNTS then 4 else 3) else ScanRank(p)
  }

  function ThreadSteps(acts: seq<Action>): nat {
    if acts == [] then 0 else (if acts[0].Thread? then 1 else 0) + ThreadSteps(acts[1..])
  }

  lemma SettledThreadStep(p: Pin, debounceTicks: nat, level: bool, initial: Phase)
    requires Inv(p, initial) && Settled(p) && p.thread != Scan
    ensures Settled(ThreadStep(p, debounceTicks, level))
    ensures ReturnRank(ThreadStep(p, debounceTicks, level)) + 1 == ReturnRank(p)
  {
  }

  lemma SettledDaemonStep(p: Pin, fire: bool, initial: Phase)
    requires Inv(p, initial) && Settled(p)
    ensures Settled(DaemonStep(p, fire)) && ReturnRank(DaemonStep(p, fire)) == ReturnRank(p)
  {
  }

  lemma {:induction false} BackAtScan(p: Pin, debounceTicks: nat, acts: seq<Action>, initial: Phase)
    requires Inv(p, initial) && Settled(p) && ThreadSteps(acts) <= ReturnRank(p)
    ensures ThreadSteps(acts) + ReturnRank(Run(p, debounceTicks, acts)) == ReturnRank(p)
    decreases |acts|
  {
    if acts != [] {
      match acts[0] {
        case Thread(level) => SettledThreadStep(p, debounceTicks, level, initial);
        case Daemon(fire) => SettledDaemonStep(p, fire, initial);
      }
      StepKeepsInv(p, debounceTicks, acts[0], initial);
      BackAtScan(Step(p, debounceTicks, acts[0]), debounceTicks, acts[1..], initial);
    }
  }

  /**
   Once the daemon has taken the stop, the thread is back at its scan after exactly `ReturnRank` own steps,
   whatever the daemon does meanwhile and whether the press was short or long: the counter is then reset, and
   the next reading that differs is published.
   */
  lemma PressEnds(p: Pin, debounceTicks: nat, acts: seq<Action>, initial: Phase)
    requires Inv(p, initial) && Settled(p) && !Debouncing(p, debounceTicks)
    requires ThreadSteps(acts) == ReturnRank(p)
    ensures
      var p' := Run(p, debounceTicks, acts);
      && p'.thread == Scan && (!p'.state ==> p'.counter == 0)
      && ThreadStep(p', debounceTicks, true).log == p'.log + (if p'.state then [] else [Press])
      && ThreadStep(p', debounceTicks, false).log == p'.log + (if p'.state then [Release] else [])
  {
    var p' := Run(p, debounceTicks, acts);
    BackAtScan(p, debounceTicks, acts, initial);
    RunKeepsInv(p, debounceTicks, acts, initial);
    DebounceSettles(p, debounceTicks, acts);
    assert ReturnRank(p') == 0 && PhaseInv(p', Heard(initial, p'.log));
    assert p'.log + [] == p'.log;
  }

  // ----- The timer of a held key fires

  lemma {:induction false} CallbacksConcat(p: Pin, debounceTicks: nat, acts: seq<Action>, more: seq<Action>)
    ensures CallbacksIn(p, debounceTicks, acts + more) ==
            CallbacksIn(p, debounceTicks, acts) + CallbacksIn(Run(p, debounceTicks, acts), debounceTicks, more)
    decreases |acts|
  {
    if acts == [] {
      assert acts + more == more;
    } else {
      assert (acts + more)[0] == acts[0] && (acts + more)[1..] == acts[1..] + more;
      CallbacksConcat(Step(p, debounceTicks, acts[0]), debounceTicks, acts[1..], more);
    }
  }

  /** Running, with no command pending and no callback under way. */
  predicate Ticking(p: Pin) {
    p.active && p.queue == [] && p.daemon == Drain
  }

  /** `n` daemon steps, the timer having expired whenever the daemon looks. */
  function Ticks(n: nat): seq<Action> {
    if n == 0 then [] else [Daemon(true)] + Ticks(n - 1)
  }

  ghost predicate DaemonOnly(acts: seq<Action>) {
    forall a | a in acts :: a.Daemon?
  }

  lemma {:induction false} TicksAreDaemons(n: nat)
    ensures DaemonOnly(Ticks(n))
  {
    if n > 0 {
      TicksAreDaemons(n - 1);
    }
  }

  lemma Tick(p: Pin, debounceTicks: nat, n: nat)
    requires n > 0
    ensures Run(p, debounceTicks, Ticks(n)) == Run(DaemonStep(p, true), debounceTicks, Ticks(n - 1))
    ensures CallbacksIn(p, debounceTicks, Ticks(n)) ==
            Entered(p, Daemon(true)) + CallbacksIn(DaemonStep(p, true), debounceTicks, Ticks(n - 1))
  {
    assert Ticks(n)[0] == Daemon(true) && Ticks(n)[1..] == Ticks(n - 1);
  }

  /** The timer expires once: the callback runs to its end, and takes two steps more for a Repeat. */
  lemma Expiry(p: Pin, debounceTicks: nat) returns (acts: seq<Action>)
    requires Ticking(p)
    ensures DaemonOnly(acts) && Ticking(Run(p, debounceTicks, acts)) && CallbacksIn(p, debounceTicks, acts) == 1
  {
    var n: nat := if p.counter < LONG_PRESS_COUNTS then 4 else 6;
    acts := Ticks(n);
    TicksAreDaemons(n);
    Tick(p, debounceTicks, n);
    var p1 := DaemonStep(p, true);
    Tick(p1, debounceTicks, n - 1);
    var p2 := DaemonStep(p1, true);
    Tick(p2, debounceTicks, n - 2);
    var p3 := DaemonStep(p2, true);
    Tick(p3, debounceTicks, n - 3);
    if n == 6 {
      var p4 := DaemonStep(p3, true);
      Tick(p4, debounceTicks, 2);
      Tick(DaemonStep(p4, true), debounceTicks, 1);
    }
  }

  lemma {:induction false} TimerTicks(p: Pin, debounceTicks: nat, k: nat) returns (acts: seq<Action>)
    requires Ticking(p)
    ensures DaemonOnly(acts) && Ticking(Run(p, debounceTicks, acts)) && CallbacksIn(p, debounceTicks, acts) == k
    decreases k
  {
    if k == 0 {
      acts := [];
    } else {
      var first := Expiry(p, debounceTicks);
      var more := TimerTicks(Run(p, debounceTicks, first), debounceTicks, k - 1);
      acts := first + more;
      RunConcat(p, debounceTicks, first, more);
      CallbacksConcat(p, debounceTicks, first, more);
    }
  }

  lemma {:induction false} DaemonStaysInPress(p: Pin, debounceTicks: nat, acts: seq<Action>)
    requires DaemonOnly(acts)
    ensures SamePress(p, debounceTicks, acts)
    ensures Run(p, debounceTicks, acts).thread == p.thread && Run(p, debounceTicks, acts).state == p.state
    decreases |acts|
  {
    if acts != [] {
      assert acts[0].Daemon?;
      DaemonStaysInPress(Step(p, debounceTicks, acts[0]), debounceTicks, acts[1..]);
    }
  }

  /**
   While a key is held the timer can expire any number of times, and then it has been heard: nothing for fewer
   than four expiries, a Long and a Repeat for each one after the fourth for more.
   */
  lemma HeldKeyIsJudged(p: Pin, debounceTicks: nat, k: nat) returns (acts: seq<Action>)
    requires Held(p) && Ticking(p) && p.counter == 0
    ensures DaemonOnly(acts) && CallbacksIn(p, debounceTicks, acts) == k
    ensures var p' := Run(p, debounceTicks, acts);
      Held(p') && Ticking(p') && Verdicts(p'.log) == Verdicts(p.log) + TimerEvents(k)
  {
    acts := TimerTicks(p, debounceTicks, k);
    var p', before := Run(p, debounceTicks, acts), Verdicts(p.log);
    assert before == before + TimerEvents(0);
    DaemonStaysInPress(p, debounceTicks, acts);
    RunKeepsCounted(p, debounceTicks, acts, before, 0, p', k);
  }
}
