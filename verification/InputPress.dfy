/**
 One key of the input service (applications/input/input.c): the pin scan of `input_task` and the
 press timer callback, interleaved.

 The timer belongs to the FreeRTOS timer daemon. Starting and stopping it only posts a command; the
 daemon takes commands in order, empties its command queue before it looks for expired timers, and
 fires at most one callback before it looks at the queue again. It runs at a lower priority than the
 input thread (configTIMER_TASK_PRIORITY is 2), so commands can stay pending for any length of time.
 The other keys share the thread and the daemon; for one key they only add delays.
 */
module InputPress {

  const LONG_PRESS_COUNTS := 4

  datatype Event = Press | Release | Short | Long | Repeat

  datatype Command = Start | Stop

  /** The next statement of `input_task` for this key. */
  datatype ThreadPc = Scan | StartTimer | StopTimer | AwaitStop | TestCounter | PublishShort | ResetCounter

  /** What the daemon does next; the last four are the statements of `input_press_timer_callback`. */
  datatype DaemonPc = Drain | Expire | Count | Test | Uncount | PublishRepeat

  datatype Pin = Pin(
    state: bool,
    debounce: nat,
    counter: nat,
    thread: ThreadPc,
    daemon: DaemonPc,
    active: bool,
    queue: seq<Command>,
    log: seq<Event>)

  datatype Action =
    | Thread(level: bool)     // the thread's next statement; `level` is what a scan reads from the pin
    | Daemon(fire: bool)    // the daemon's next statement; `fire` says whether the timer has expired

  function PowerOn(level: bool, debounceTicks: nat): Pin {
    Pin(level, debounceTicks / 2, 0, Scan, Drain, false, [], [])
  }

  function Publish(p: Pin, e: Event): Pin {
    p.(log := p.log + [e])
  }

  predicate Debouncing(p: Pin, debounceTicks: nat) {
    0 < p.debounce < debounceTicks
  }

  function ThreadStep(p: Pin, debounceTicks: nat, level: bool): Pin {
    match p.thread
    case Scan =>
      if Debouncing(p, debounceTicks) then p.(debounce := if level then p.debounce + 1 else p.debounce - 1)
      else if p.state != level then
        Publish(p, if level then Press else Release).(state := level, thread := if level then StartTimer else StopTimer)
      else p
    case StartTimer => p.(queue := p.queue + [Start], thread := Scan)
    case StopTimer => p.(queue := p.queue + [Stop], thread := AwaitStop)
    case AwaitStop => if p.active then p else p.(thread := TestCounter)
    case TestCounter => p.(thread := if p.counter < LONG_PRESS_COUNTS then PublishShort else ResetCounter)
    case PublishShort => Publish(p, Short).(thread := ResetCounter)
    case ResetCounter => p.(counter := 0, thread := Scan)
  }

  function DaemonStep(p: Pin, fire: bool): Pin {
    match p.daemon
    case Drain =>
      if p.queue == [] then p.(daemon := Expire) else p.(active := p.queue[0] == Start, queue := p.queue[1..])
    case Expire => p.(daemon := if p.active && fire then Count else Drain)
    case Count => p.(counter := p.counter + 1, daemon := Test)
    case Test =>
      if p.counter == LONG_PRESS_COUNTS then Publish(p, Long).(daemon := Drain)
      else p.(daemon := if p.counter > LONG_PRESS_COUNTS then Uncount else Drain)
    case Uncount => p.(counter := if p.counter > 0 then p.counter - 1 else 0, daemon := PublishRepeat)
    case PublishRepeat => Publish(p, Repeat).(daemon := Drain)
  }

  function Step(p: Pin, debounceTicks: nat, a: Action): Pin {
    match a
    case Thread(level) => ThreadStep(p, debounceTicks, level)
    case Daemon(fire) => DaemonStep(p, fire)
  }

  function Run(p: Pin, debounceTicks: nat, acts: seq<Action>): Pin
    decreases |acts|
  {
    if acts == [] then p else Run(Step(p, debounceTicks, acts[0]), debounceTicks, acts[1..])
  }

  // ----- What a listener may hear

  /**
   The life of a key as its events tell it. `longed` says whether this press had its Long.
   A released key whose press was long is done; otherwise its Short (or a late Long) is still to come.
   */
  datatype Phase = Up | Down(longed: bool) | Released(longed: bool) | Bad

  function Hear(ph: Phase, e: Event): Phase {
    match e
    case Press => if ph.Up? || ph == Released(true) then Down(false) else Bad
    case Release => if ph.Down? then Released(ph.longed) else Bad
    case Short => if ph == Released(false) then Up else Bad
    case Long => if ph == Down(false) then Down(true) else if ph == Released(false) then Released(true) else Bad
    case Repeat => if ph == Down(true) || ph == Released(true) then ph else Bad
  }

  function Heard(initial: Phase, log: seq<Event>): Phase {
    if log == [] then initial else Hear(Heard(initial, log[..|log| - 1]), log[|log| - 1])
  }

  function FirstPhase(level: bool): Phase {
    if level then Down(false) else Up
  }

  lemma HeardNext(initial: Phase, log: seq<Event>, e: Event)
    ensures Heard(initial, log + [e]) == Hear(Heard(initial, log), e)
  {
    assert (log + [e])[..|log|] == log;
  }

  // ----- The invariant

  /** Whether the timer runs once the daemon has taken the first `i` pending commands. */
  predicate RunsAfter(active: bool, queue: seq<Command>, i: nat)
    requires i <= |queue|
  {
    if i == 0 then active else queue[i - 1] == Start
  }

  predicate Final(p: Pin) {
    RunsAfter(p.active, p.queue, |p.queue|)
  }

  /** A pending Start always finds the timer stopped. */
  ghost predicate Alternating(active: bool, queue: seq<Command>) {
    forall i | 0 <= i < |queue| && queue[i] == Start :: !RunsAfter(active, queue, i)
  }

  lemma PostKeepsAlternating(active: bool, queue: seq<Command>, c: Command)
    requires Alternating(active, queue)
    requires c == Start ==> !RunsAfter(active, queue, |queue|)
    ensures Alternating(active, queue + [c])
  {
    forall i | 0 <= i < |queue + [c]| && (queue + [c])[i] == Start ensures !RunsAfter(active, queue + [c], i) {
      assert RunsAfter(active, queue + [c], i) == RunsAfter(active, queue, i);
    }
  }

  lemma TakeKeepsAlternating(active: bool, queue: seq<Command>)
    requires Alternating(active, queue) && queue != []
    ensures Alternating(queue[0] == Start, queue[1..])
  {
    forall i | 0 <= i < |queue[1..]| && queue[1..][i] == Start ensures !RunsAfter(queue[0] == Start, queue[1..], i) {
      assert RunsAfter(queue[0] == Start, queue[1..], i) == RunsAfter(active, queue, i + 1);
    }
  }

  predicate Held(p: Pin) {
    p.state && p.thread == Scan
  }

  predicate InCallback(p: Pin) {
    p.daemon == Count || p.daemon == Test || p.daemon == Uncount || p.daemon == PublishRepeat
  }

  ghost predicate TimerInv(p: Pin) {
    && Alternating(p.active, p.queue)
    && (Final(p) <==> (Held(p) || p.thread == StopTimer) && Press in p.log)
    && (p.thread == StartTimer ==> Press in p.log)
    && (InCallback(p) ==> p.active)
    && (p.daemon != Drain && p.active ==>
          ((Held(p) || p.thread == StopTimer) && p.queue == []) || (p.thread == AwaitStop && p.queue == [Stop]))
  }

  /** How far the counter is, given what the callback has done of its work. */
  predicate CounterInv(p: Pin, longed: bool) {
    match p.daemon
    case Test => 1 <= p.counter <= 5 && (longed <==> p.counter == 5)
    case Uncount => p.counter == 5 && longed
    case PublishRepeat => p.counter == 4 && longed
    case _ => p.counter <= 4 && (longed <==> p.counter == 4)
  }

  predicate PhaseInv(p: Pin, ph: Phase) {
    match p.thread
    case Scan =>
      if p.state then ph.Down? && CounterInv(p, ph.longed)
      else (ph.Up? || ph == Released(true)) && p.counter == 0
    case StartTimer => p.state && ph == Down(false) && p.counter == 0
    case StopTimer => !p.state && ph.Released? && CounterInv(p, ph.longed)
    case AwaitStop => !p.state && ph.Released? && CounterInv(p, ph.longed)
    case TestCounter => !p.state && ph.Released? && CounterInv(p, ph.longed)
    case PublishShort => !p.state && ph == Released(false) && p.counter < 4
    case ResetCounter => !p.state && (ph.Up? || ph == Released(true)) && p.counter <= 4
  }

  ghost predicate Inv(p: Pin, initial: Phase) {
    TimerInv(p) && PhaseInv(p, Heard(initial, p.log))
  }

  lemma ThreadKeepsTimer(p: Pin, debounceTicks: nat, level: bool, ph: Phase)
    requires TimerInv(p) && PhaseInv(p, ph)
    ensures TimerInv(ThreadStep(p, debounceTicks, level))
  {
    if p.thread == StartTimer {
      PostKeepsAlternating(p.active, p.queue, Start);
    } else if p.thread == StopTimer {
      PostKeepsAlternating(p.active, p.queue, Stop);
    }
  }

  lemma DaemonKeepsTimer(p: Pin, fire: bool)
    requires TimerInv(p)
    ensures TimerInv(DaemonStep(p, fire))
  {
    if p.daemon == Drain && p.queue != [] {
      TakeKeepsAlternating(p.active, p.queue);
    }
  }

  /** The phase after the events that `p'` published and `p` had not. */
  function PhaseAfter(ph: Phase, p: Pin, p': Pin): Phase {
    if |p'.log| == |p.log| + 1 then Hear(ph, p'.log[|p.log|]) else ph
  }

  lemma ThreadKeepsPhase(p: Pin, debounceTicks: nat, level: bool, ph: Phase)
    requires TimerInv(p) && PhaseInv(p, ph)
    ensures var p' := ThreadStep(p, debounceTicks, level); PhaseInv(p', PhaseAfter(ph, p, p'))
  {
  }

  lemma DaemonKeepsPhase(p: Pin, fire: bool, ph: Phase)
    requires TimerInv(p) && PhaseInv(p, ph)
    ensures var p' := DaemonStep(p, fire); PhaseInv(p', PhaseAfter(ph, p, p'))
  {
  }

  /** At most one event was published. */
  ghost predicate LogExtends(p: Pin, p': Pin) {
    p'.log == p.log || exists e :: p'.log == p.log + [e]
  }

  lemma LogGrows(p: Pin, p': Pin, initial: Phase)
    requires LogExtends(p, p')
    ensures Heard(initial, p'.log) == PhaseAfter(Heard(initial, p.log), p, p')
  {
    if p'.log != p.log {
      HeardNext(initial, p.log, p'.log[|p.log|]);
    }
  }

  lemma ThreadKeepsInv(p: Pin, debounceTicks: nat, level: bool, initial: Phase)
    requires Inv(p, initial)
    ensures Inv(ThreadStep(p, debounceTicks, level), initial)
  {
    var ph, p' := Heard(initial, p.log), ThreadStep(p, debounceTicks, level);
    ThreadKeepsTimer(p, debounceTicks, level, ph);
    ThreadKeepsPhase(p, debounceTicks, level, ph);
    assert LogExtends(p, p');
    LogGrows(p, p', initial);
  }

  lemma DaemonKeepsInv(p: Pin, fire: bool, initial: Phase)
    requires Inv(p, initial)
    ensures Inv(DaemonStep(p, fire), initial)
  {
    var ph, p' := Heard(initial, p.log), DaemonStep(p, fire);
    DaemonKeepsTimer(p, fire);
    DaemonKeepsPhase(p, fire, ph);
    assert LogExtends(p, p');
    LogGrows(p, p', initial);
  }

  lemma {:induction false} RunKeepsInv(p: Pin, debounceTicks: nat, acts: seq<Action>, initial: Phase)
    requires Inv(p, initial)
    ensures Inv(Run(p, debounceTicks, acts), initial)
    decreases |acts|
  {
    if acts != [] {
      match acts[0] {
        case Thread(level) => ThreadKeepsInv(p, debounceTicks, level, initial);
        case Daemon(fire) => DaemonKeepsInv(p, fire, initial);
      }
      RunKeepsInv(Step(p, debounceTicks, acts[0]), debounceTicks, acts[1..], initial);
    }
  }

  // ----- Theorems over every run

  /** From power-on, whatever the pin does and however thread and daemon interleave. */
  lemma ReachableInv(level: bool, debounceTicks: nat, acts: seq<Action>)
    ensures Inv(Run(PowerOn(level, debounceTicks), debounceTicks, acts), FirstPhase(level))
  {
    RunKeepsInv(PowerOn(level, debounceTicks), debounceTicks, acts, FirstPhase(level));
  }

  /** The counter never exceeds 5, and is above 4 only inside the callback. */
  lemma CounterBounded(level: bool, debounceTicks: nat, acts: seq<Action>)
    ensures
      var p := Run(PowerOn(level, debounceTicks), debounceTicks, acts);
      p.counter <= 5 && (p.counter == 5 ==> InCallback(p))
  {
    ReachableInv(level, debounceTicks, acts);
    var p := Run(PowerOn(level, debounceTicks), debounceTicks, acts);
    assert PhaseInv(p, Heard(FirstPhase(level), p.log));
  }

  /** The callback is never between reading and writing the counter while the thread resets it. */
  lemma CounterHasOneWriter(level: bool, debounceTicks: nat, acts: seq<Action>)
    ensures
      var p := Run(PowerOn(level, debounceTicks), debounceTicks, acts);
      p.thread == ResetCounter || p.thread == TestCounter ==> !InCallback(p)
  {
    ReachableInv(level, debounceTicks, acts);
  }

  /** While a key is held, from its Press on, the timer runs or is about to be started. */
  lemma TimerRunsWhileHeld(level: bool, debounceTicks: nat, acts: seq<Action>)
    ensures
      var p := Run(PowerOn(level, debounceTicks), debounceTicks, acts);
      Held(p) && Press in p.log ==> Final(p)
  {
    ReachableInv(level, debounceTicks, acts);
  }

  // ----- How many callbacks make which verdict

  /** Short, Long and Repeat without the edges. */
  function Verdicts(log: seq<Event>): seq<Event> {
    if log == [] then []
    else
      var before, last := Verdicts(log[..|log| - 1]), log[|log| - 1];
      if last == Press || last == Release then before else before + [last]
  }

  lemma VerdictsNext(log: seq<Event>, e: Event)
    ensures Verdicts(log + [e]) == if e == Press || e == Release then Verdicts(log) else Verdicts(log) + [e]
  {
    assert (log + [e])[..|log|] == log;
  }

  /** What `n` finished callbacks of one press have published. */
  function TimerEvents(n: nat): seq<Event> {
    if n < LONG_PRESS_COUNTS then []
    else if n == LONG_PRESS_COUNTS then [Long]
    else TimerEvents(n - 1) + [Repeat]
  }

  function Entered(p: Pin, a: Action): nat {
    if a.Daemon? && p.daemon == Count then 1 else 0
  }

  /** How often the timer callback was entered in a run. */
  function CallbacksIn(p: Pin, debounceTicks: nat, acts: seq<Action>): nat
    decreases |acts|
  {
    if acts == [] then 0
    else Entered(p, acts[0]) + CallbacksIn(Step(p, debounceTicks, acts[0]), debounceTicks, acts[1..])
  }

  predicate Judged(pc: ThreadPc) {
    pc == TestCounter || pc == PublishShort || pc == ResetCounter
  }

  /** The thread does not get past its test of the counter, so the run stays within one press. */
  ghost predicate SamePress(p: Pin, debounceTicks: nat, acts: seq<Action>)
    decreases |acts|
  {
    acts == [] ||
    (&& !(acts[0].Thread? && Judged(p.thread))
     && SamePress(Step(p, debounceTicks, acts[0]), debounceTicks, acts[1..]))
  }

  function Min(a: nat, b: nat): nat {
    if a < b then a else b
  }

  /** After `k` callbacks were entered: the counter, and what they have published since `before`. */
  predicate Counted(p: Pin, before: seq<Event>, k: nat) {
    var finished := if p.daemon == Test || p.daemon == Uncount || p.daemon == PublishRepeat then k - 1 else k;
    && 0 <= finished
    && Verdicts(p.log) == before + TimerEvents(finished)
    && match p.daemon
       case Test => p.counter == Min(finished, LONG_PRESS_COUNTS) + 1
       case Uncount => p.counter == LONG_PRESS_COUNTS + 1 && finished >= LONG_PRESS_COUNTS
       case PublishRepeat => p.counter == LONG_PRESS_COUNTS && finished >= LONG_PRESS_COUNTS
       case _ => p.counter == Min(finished, LONG_PRESS_COUNTS)
  }

  /** Short of its test of the counter the thread publishes edges only. */
  lemma VerdictsAfterThread(p: Pin, debounceTicks: nat, level: bool)
    requires !Judged(p.thread)
    ensures Verdicts(ThreadStep(p, debounceTicks, level).log) == Verdicts(p.log)
  {
    if p.thread == Scan && !Debouncing(p, debounceTicks) && p.state != level {
      VerdictsNext(p.log, if level then Press else Release);
    }
  }

  lemma ThreadKeepsCounted(p: Pin, debounceTicks: nat, level: bool, before: seq<Event>, k: nat)
    requires Counted(p, before, k) && !Judged(p.thread)
    ensures Counted(ThreadStep(p, debounceTicks, level), before, k)
  {
    var p' := ThreadStep(p, debounceTicks, level);
    assert p'.daemon == p.daemon && p'.counter == p.counter;
    VerdictsAfterThread(p, debounceTicks, level);
  }

  lemma TimerEventsNext(before: seq<Event>, n: nat)
    ensures n == LONG_PRESS_COUNTS - 1 ==> before + TimerEvents(n) + [Long] == before + TimerEvents(n + 1)
    ensures n >= LONG_PRESS_COUNTS ==> before + TimerEvents(n) + [Repeat] == before + TimerEvents(n + 1)
    ensures n < LONG_PRESS_COUNTS - 1 ==> TimerEvents(n) == TimerEvents(n + 1)
  {
    assert before + TimerEvents(n) + [Repeat] == before + (TimerEvents(n) + [Repeat]);
  }

  lemma TestKeepsCounted(p: Pin, before: seq<Event>, k: nat)
    requires Counted(p, before, k) && p.daemon == Test
    ensures Counted(DaemonStep(p, true), before, k) && DaemonStep(p, false) == DaemonStep(p, true)
  {
    VerdictsNext(p.log, Long);
    TimerEventsNext(before, k - 1);
  }

  lemma RepeatVerdict(log: seq<Event>, before: seq<Event>, k: nat)
    requires k > LONG_PRESS_COUNTS && Verdicts(log) == before + TimerEvents(k - 1)
    ensures Verdicts(log + [Repeat]) == before + TimerEvents(k)
  {
    VerdictsNext(log, Repeat);
    TimerEventsNext(before, k - 1);
  }

  lemma RepeatKeepsCounted(p: Pin, before: seq<Event>, k: nat)
    requires Counted(p, before, k) && p.daemon == PublishRepeat
    ensures Counted(DaemonStep(p, true), before, k) && DaemonStep(p, false) == DaemonStep(p, true)
  {
    RepeatVerdict(p.log, before, k);
  }

  lemma DaemonKeepsCounted(p: Pin, fire: bool, before: seq<Event>, k: nat)
    requires Counted(p, before, k)
    ensures Counted(DaemonStep(p, fire), before, if p.daemon == Count then k + 1 else k)
  {
    if p.daemon == Test {
      TestKeepsCounted(p, before, k);
    } else if p.daemon == PublishRepeat {
      RepeatKeepsCounted(p, before, k);
    }
  }

  lemma StepKeepsCounted(p: Pin, debounceTicks: nat, a: Action, before: seq<Event>, k: nat)
    requires Counted(p, before, k) && !(a.Thread? && Judged(p.thread))
    ensures Counted(Step(p, debounceTicks, a), before, k + Entered(p, a))
  {
    match a
    case Thread(level) => ThreadKeepsCounted(p, debounceTicks, level, before, k);
    case Daemon(fire) => DaemonKeepsCounted(p, fire, before, k);
  }

  lemma {:induction false} RunKeepsCounted(p: Pin, debounceTicks: nat, acts: seq<Action>, before: seq<Event>, k: nat,
      end: Pin, total: nat)
    requires Counted(p, before, k) && SamePress(p, debounceTicks, acts)
    requires end == Run(p, debounceTicks, acts) && total == k + CallbacksIn(p, debounceTicks, acts)
    ensures Counted(end, before, total)
    decreases |acts|
  {
    if acts != [] {
      StepKeepsCounted(p, debounceTicks, acts[0], before, k);
      var next := Step(p, debounceTicks, acts[0]);
      RunKeepsCounted(next, debounceTicks, acts[1..], before, k + Entered(p, acts[0]), end, total);
    }
  }

  /**
   A press from its Press on, over every interleaving up to the test of the counter: if the timer callback
   ran k times, the press was published as Long and k - 4 Repeats when k >= 4, and as nothing yet otherwise;
   and it is then that the test goes on to publish Short.
   */
  lemma VerdictByCallbacks(p: Pin, debounceTicks: nat, acts: seq<Action>, initial: Phase, level: bool)
    requires Inv(p, initial) && p.thread == StartTimer && SamePress(p, debounceTicks, acts)
    requires Run(p, debounceTicks, acts).thread == TestCounter
    ensures
      var k := CallbacksIn(p, debounceTicks, acts);
      var p' := Run(p, debounceTicks, acts);
      && Verdicts(p'.log) == Verdicts(p.log) + TimerEvents(k)
      && (ThreadStep(p', debounceTicks, level).thread == PublishShort <==> k < LONG_PRESS_COUNTS)
  {
    assert PhaseInv(p, Heard(initial, p.log)) && !InCallback(p);
    assert Verdicts(p.log) == Verdicts(p.log) + TimerEvents(0);
    var p' := Run(p, debounceTicks, acts);
    RunKeepsCounted(p, debounceTicks, acts, Verdicts(p.log), 0, p', CallbacksIn(p, debounceTicks, acts));
    RunKeepsInv(p, debounceTicks, acts, initial);
    assert !InCallback(p');
  }

  function Occurrences(log: seq<Event>, e: Event): nat {
    if log == [] then 0
    else Occurrences(log[..|log| - 1], e) + (if log[|log| - 1] == e then 1 else 0)
  }

  lemma OccurrencesNext(log: seq<Event>, last: Event, e: Event)
    ensures Occurrences(log + [last], e) == Occurrences(log, e) + if last == e then 1 else 0
  {
    assert (log + [last])[..|log|] == log;
  }

  lemma OccurrencesOfOne(e: Event)
    ensures Occurrences([Long], e) == if e == Long then 1 else 0
  {
    assert [Long] == [] + [Long];
    OccurrencesNext([], Long, e);
  }

  /** One Long and a Repeat for each callback after the fourth. */
  lemma {:induction false} TimerEventsCount(n: nat)
    ensures Occurrences(TimerEvents(n), Long) == if n >= LONG_PRESS_COUNTS then 1 else 0
    ensures Occurrences(TimerEvents(n), Repeat) == if n >= LONG_PRESS_COUNTS then n - LONG_PRESS_COUNTS else 0
  {
    if n > LONG_PRESS_COUNTS {
      TimerEventsCount(n - 1);
      OccurrencesNext(TimerEvents(n - 1), Repeat, Long);
      OccurrencesNext(TimerEvents(n - 1), Repeat, Repeat);
    } else if n == LONG_PRESS_COUNTS {
      OccurrencesOfOne(Long);
      OccurrencesOfOne(Repeat);
    }
  }

  function ReleasesOwed(ph: Phase): int {
    match ph
    case Down(true) => -1
    case Released(false) => 1
    case _ => 0
  }

  /** Conservation in anything a listener may hear: one Short or Long for each Release. */
  lemma {:induction false} OneVerdictPerRelease(initial: Phase, log: seq<Event>)
    requires initial == Up || initial == Down(false)
    requires !Heard(initial, log).Bad?
    ensures Occurrences(log, Release) ==
            Occurrences(log, Short) + Occurrences(log, Long) + ReleasesOwed(Heard(initial, log))
  {
    if log != [] {
      OneVerdictPerRelease(initial, log[..|log| - 1]);
    }
  }

  /** Press and Release without the other events. */
  function Edges(log: seq<Event>): seq<Event> {
    if log == [] then []
    else
      var before, last := Edges(log[..|log| - 1]), log[|log| - 1];
      if last == Press || last == Release then before + [last] else before
  }

  /** The level that the last edge left, starting from `level`. */
  function LevelAfter(edges: seq<Event>, level: bool): bool {
    if edges == [] then level else edges[|edges| - 1] == Press
  }

  ghost predicate StrictlyAlternate(edges: seq<Event>, level: bool) {
    forall i | 0 <= i < |edges| :: edges[i] == if LevelAfter(edges[..i], level) then Release else Press
  }

  lemma AlternateNext(edges: seq<Event>, level: bool)
    requires StrictlyAlternate(edges, level)
    ensures StrictlyAlternate(edges + [if LevelAfter(edges, level) then Release else Press], level)
  {
    var after := edges + [if LevelAfter(edges, level) then Release else Press];
    forall i | 0 <= i < |after| ensures after[i] == if LevelAfter(after[..i], level) then Release else Press {
      if i < |edges| {
        assert after[..i] == edges[..i];
      } else {
        assert after[..i] == edges;
      }
    }
  }

  lemma EdgeNext(edges: seq<Event>, ph: Phase, e: Event, level: bool)
    requires StrictlyAlternate(edges, level) && LevelAfter(edges, level) == ph.Down? && !Hear(ph, e).Bad?
    ensures
      var after := if e == Press || e == Release then edges + [e] else edges;
      StrictlyAlternate(after, level) && LevelAfter(after, level) == Hear(ph, e).Down?
  {
    if e == Press || e == Release {
      AlternateNext(edges, level);
      assert e == if LevelAfter(edges, level) then Release else Press;
    }
  }

  lemma {:induction false} EdgesAlternate(level: bool, log: seq<Event>)
    requires !Heard(FirstPhase(level), log).Bad?
    ensures StrictlyAlternate(Edges(log), level)
    ensures LevelAfter(Edges(log), level) == Heard(FirstPhase(level), log).Down?
  {
    if log != [] {
      var past, e := log[..|log| - 1], log[|log| - 1];
      EdgesAlternate(level, past);
      EdgeNext(Edges(past), Heard(FirstPhase(level), past), e, level);
    }
  }

  /** The Long of the same press: nothing was pressed since. */
  ghost predicate LongSincePress(log: seq<Event>, i: nat)
    requires i <= |log|
  {
    exists j | 0 <= j < i :: log[j] == Long && Press !in log[j..i]
  }

  lemma {:induction false} LongedMeansLong(initial: Phase, log: seq<Event>)
    requires initial == Up || initial == Down(false)
    requires Heard(initial, log) == Down(true) || Heard(initial, log) == Released(true)
    ensures LongSincePress(log, |log|)
  {
    var n := |log| - 1;
    if log[n] == Long {
      assert Press !in log[n..|log|];
    } else {
      LongedMeansLong(initial, log[..n]);
      var j :| 0 <= j < n && log[..n][j] == Long && Press !in log[..n][j..n];
      assert log[..n][j..n] == log[j..n];
      assert log[j..|log|] == log[j..n] + [log[n]];
    }
  }

  lemma {:induction false} PrefixNotBad(initial: Phase, log: seq<Event>, i: nat)
    requires i <= |log| && !Heard(initial, log).Bad?
    ensures !Heard(initial, log[..i]).Bad?
  {
    if i < |log| {
      PrefixNotBad(initial, log[..|log| - 1], i);
      assert log[..|log| - 1][..i] == log[..i];
    } else {
      assert log[..i] == log;
    }
  }

  lemma RepeatFollowsLong(initial: Phase, log: seq<Event>, i: nat)
    requires initial == Up || initial == Down(false)
    requires !Heard(initial, log).Bad? && i < |log| && log[i] == Repeat
    ensures LongSincePress(log, i)
  {
    PrefixNotBad(initial, log, i + 1);
    assert log[..i + 1][..i] == log[..i];
    LongedMeansLong(initial, log[..i]);
    var j :| 0 <= j < i && log[..i][j] == Long && Press !in log[..i][j..i];
    assert log[..i][j..i] == log[j..i];
  }

  /**
   For every interleaving, with `log` what was published so far:
   - the log follows the life of a key, press by press;
   - whenever the thread is scanning a released key, Releases and verdicts (Short or Long) are as many;
   - in between they differ by at most the one verdict of the current press;
   - Press and Release strictly alternate from the power-on level;
   - every Repeat comes after the Long of the same press.
   */
  lemma PressesAreJudgedOnce(level: bool, debounceTicks: nat, acts: seq<Action>)
    ensures
      var p := Run(PowerOn(level, debounceTicks), debounceTicks, acts);
      var owed := Occurrences(p.log, Release) - Occurrences(p.log, Short) - Occurrences(p.log, Long);
      && !Heard(FirstPhase(level), p.log).Bad?
      && -1 <= owed <= 1
      && (p.thread == Scan && !p.state ==> owed == 0)
      && (p.state ==> owed <= 0)
      && StrictlyAlternate(Edges(p.log), level)
      && forall i: nat | i < |p.log| && p.log[i] == Repeat :: LongSincePress(p.log, i)
  {
    var p := Run(PowerOn(level, debounceTicks), debounceTicks, acts);
    var initial := FirstPhase(level);
    ReachableInv(level, debounceTicks, acts);
    assert PhaseInv(p, Heard(initial, p.log));
    OneVerdictPerRelease(initial, p.log);
    EdgesAlternate(level, p.log);
    forall i: nat | i < |p.log| && p.log[i] == Repeat ensures LongSincePress(p.log, i) {
      RepeatFollowsLong(initial, p.log, i);
    }
  }
}
