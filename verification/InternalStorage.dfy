/**
 The request/reply protocol of the internal storage service
 (applications/internal-storage/internal-storage.c).

 A client puts a command that points into its own stack frame on a queue and sleeps on its thread
 flag; the service takes commands one by one, runs them and raises the flag of the thread that asked.
 Any number of clients run at once, so the protocol is a machine over its atomic steps. A call is
 identified with its stack frame. What littlefs answers is chosen freely at each run of a command.
 */
module InternalStorage {

  type Thread = int
  type FrameId = int

  const QUEUE_SIZE := 8

  datatype Command = Command(thread: Thread, frame: FrameId)

  datatype ClientPc = Idle | Putting(frame: FrameId) | Waiting(frame: FrameId)

  datatype ServicePc = Getting | Running(command: Command) | Signalling(command: Command)

  /** A call that has returned: what it returned, and whether its command had run by then. */
  datatype Reply = Reply(thread: Thread, frame: FrameId, ret: int, hadRun: bool)

  /**
   `frames` maps every frame to its `ret` field. The rest is history: the calls made, the frames whose
   command was put, the frames whose command was run with what littlefs answered, the replies, and
   whether the service ever wrote to a frame whose caller had returned.
   */
  datatype State = State(
    clients: map<Thread, ClientPc>,
    flags: set<Thread>,
    queue: seq<Command>,
    service: ServicePc,
    frames: map<FrameId, int>,
    calls: nat,
    puts: seq<FrameId>,
    runs: seq<FrameId>,
    answers: map<FrameId, int>,
    replies: seq<Reply>,
    wroteDead: bool)

  datatype Outcome = Blocked | Moved(state: State)

  datatype Action =
    | Call(thread: Thread)
    | Put(thread: Thread)
    | Wake(thread: Thread)
    | Get
    | Execute(answer: int)
    | Signal
    | Stray(thread: Thread)    // somebody else raises the same flag bit

  function Init(threads: set<Thread>): State {
    State(map t | t in threads :: Idle, {}, [], Getting, map[], 0, [], [], map[], [], false)
  }

  predicate Live(s: State, f: FrameId) {
    exists t :: t in s.clients && (s.clients[t] == Putting(f) || s.clients[t] == Waiting(f))
  }

  function Next(s: State, a: Action): Outcome {
    match a
    case Call(t) =>
      if t in s.clients && s.clients[t].Idle?
      then Moved(s.(clients := s.clients[t := Putting(s.calls)],
                    frames := s.frames[s.calls := 0], calls := s.calls + 1))
      else Blocked
    case Put(t) =>
      if t in s.clients && s.clients[t].Putting? && |s.queue| < QUEUE_SIZE
      then Moved(s.(clients := s.clients[t := Waiting(s.clients[t].frame)],
                    queue := s.queue + [Command(t, s.clients[t].frame)],
                    puts := s.puts + [s.clients[t].frame]))
      else Blocked
    case Wake(t) =>
      if t in s.clients && s.clients[t].Waiting? && t in s.flags
      then
        var f := s.clients[t].frame;
        var ret := if f in s.frames then s.frames[f] else 0;
        Moved(s.(clients := s.clients[t := Idle], flags := s.flags - {t},
                 replies := s.replies + [Reply(t, f, ret, f in s.runs)]))
      else Blocked
    case Get =>
      if s.service.Getting? && s.queue != []
      then Moved(s.(service := Running(s.queue[0]), queue := s.queue[1..]))
      else Blocked
    case Execute(answer) =>
      if s.service.Running?
      then
        var c := s.service.command;
        Moved(s.(service := Signalling(c), frames := s.frames[c.frame := answer],
                 runs := s.runs + [c.frame], answers := s.answers[c.frame := answer],
                 wroteDead := s.wroteDead || !Live(s, c.frame)))
      else Blocked
    case Signal =>
      if s.service.Signalling?
      then Moved(s.(service := Getting, flags := s.flags + {s.service.command.thread}))
      else Blocked
    case Stray(t) => Moved(s.(flags := s.flags + {t}))
  }

  function Exec(s: State, acts: seq<Action>): Outcome
    decreases |acts|
  {
    if acts == [] then Moved(s) else
    var next := Next(s, acts[0]);
    if next.Blocked? then Blocked else Exec(next.state, acts[1..])
  }

  ghost predicate StrayFree(acts: seq<Action>) {
    forall a | a in acts :: !a.Stray?
  }

  // ----- Commands are served once each, in the order they were put

  function FramesOf(queue: seq<Command>): (r: seq<FrameId>)
    ensures |r| == |queue| && forall i | 0 <= i < |queue| :: r[i] == queue[i].frame
  {
    seq(|queue|, i requires 0 <= i < |queue| => queue[i].frame)
  }

  function InHand(s: State): seq<FrameId> {
    if s.service.Running? then [s.service.command.frame] else []
  }

  /** Holds in every run, stray flags or not. */
  predicate InOrder(s: State) {
    s.puts == s.runs + InHand(s) + FramesOf(s.queue)
  }

  lemma FramesOfNext(queue: seq<Command>, c: Command)
    ensures FramesOf(queue + [c]) == FramesOf(queue) + [c.frame]
    ensures FramesOf([c] + queue) == [c.frame] + FramesOf(queue)
  {
  }

  lemma PutKeepsOrder(runs: seq<FrameId>, hand: seq<FrameId>, queue: seq<Command>, c: Command)
    ensures runs + hand + FramesOf(queue) + [c.frame] == runs + hand + FramesOf(queue + [c])
  {
    FramesOfNext(queue, c);
  }

  lemma GetKeepsOrder(runs: seq<FrameId>, queue: seq<Command>)
    requires queue != []
    ensures runs + [] + FramesOf(queue) == runs + [queue[0].frame] + FramesOf(queue[1..])
  {
    FramesOfNext(queue[1..], queue[0]);
    assert queue == [queue[0]] + queue[1..];
  }

  lemma StepKeepsInOrder(s: State, a: Action, s': State)
    requires InOrder(s) && Next(s, a) == Moved(s')
    ensures InOrder(s')
  {
    if a.Put? {
      PutKeepsOrder(s.runs, InHand(s), s.queue, Command(a.thread, s.clients[a.thread].frame));
    } else if a.Get? {
      GetKeepsOrder(s.runs, s.queue);
    }
  }

  /** Commands are served in the order they were put, stray flags or not. */
  lemma {:induction false} KeepsOrder(s: State, acts: seq<Action>, s': State)
    requires InOrder(s) && Exec(s, acts) == Moved(s')
    ensures InOrder(s')
    decreases |acts|
  {
    if acts != [] {
      var next := Next(s, acts[0]).state;
      StepKeepsInOrder(s, acts[0], next);
      KeepsOrder(next, acts[1..], s');
    }
  }

  /** In every run from the start, stray flags or not, commands run once each, in the order they were put. */
  lemma ServedInOrder(threads: set<Thread>, acts: seq<Action>, s: State)
    requires Exec(Init(threads), acts) == Moved(s)
    ensures s.puts == s.runs + InHand(s) + FramesOf(s.queue)
  {
    KeepsOrder(Init(threads), acts, s);
  }

  // ----- The invariant of runs in which only the service raises flags

  /** The command is in the queue or in the service's hands, not yet signalled. */
  ghost predicate Outstanding(s: State, c: Command) {
    c in s.queue || (!s.service.Getting? && s.service.command == c)
  }

  /** A command that is still to be signalled belongs to the thread that waits for it. */
  ghost predicate CommandsAreOwned(s: State) {
    forall c | Outstanding(s, c) :: c.thread in s.clients && s.clients[c.thread] == Waiting(c.frame)
  }

  /** No two outstanding commands come from the same thread. */
  ghost predicate CommandsAreApart(s: State) {
    && (forall i, j | 0 <= i < j < |s.queue| :: s.queue[i].thread != s.queue[j].thread)
    && (forall i | 0 <= i < |s.queue| && !s.service.Getting? :: s.queue[i].thread != s.service.command.thread)
  }

  /** A raised flag means: the thread waits, and its command has run and is out of the service's hands. */
  ghost predicate FlagsAreReplies(s: State) {
    forall t | t in s.flags ::
      && t in s.clients && s.clients[t].Waiting?
      && s.clients[t].frame in s.runs
      && !Outstanding(s, Command(t, s.clients[t].frame))
  }

  /** No two calls have the same frame, and no call has the frame of one that returned. */
  ghost predicate FramesAreFresh(s: State) {
    && (forall t | t in s.clients && !s.clients[t].Idle? :: 0 <= s.clients[t].frame < s.calls)
    && (forall t, u | t in s.clients && u in s.clients && t != u && !s.clients[t].Idle? && !s.clients[u].Idle? ::
          s.clients[t].frame != s.clients[u].frame)
    && (forall r | r in s.replies :: 0 <= r.frame < s.calls)
    && (forall r, t | r in s.replies && t in s.clients && !s.clients[t].Idle? :: s.clients[t].frame != r.frame)
  }

  /** A frame whose command has run holds what littlefs answered. */
  ghost predicate FramesHoldAnswers(s: State) {
    forall f | f in s.runs :: 0 <= f < s.calls && f in s.answers && f in s.frames && s.frames[f] == s.answers[f]
  }

  /** A command that is put, queued or being run has not been run before. */
  ghost predicate RunsAreNew(s: State) {
    && (forall t | t in s.clients && s.clients[t].Putting? :: s.clients[t].frame !in s.runs)
    && (forall c | c in s.queue :: c.frame !in s.runs)
    && (s.service.Running? ==> s.service.command.frame !in s.runs)
  }

  ghost predicate Signalled(s: State) {
    s.service.Signalling? ==> s.service.command.frame in s.runs
  }

  /** What the protocol promises about what has happened so far. */
  ghost predicate Safe(s: State) {
    && !s.wroteDead
    && (forall r | r in s.replies :: r.hadRun && r.frame in s.answers && r.ret == s.answers[r.frame])
  }

  ghost predicate Served(s: State, t: Thread)
    requires t in s.clients
  {
    s.clients[t].Waiting? ==> t in s.flags || Outstanding(s, Command(t, s.clients[t].frame))
  }

  /** A waiting client's command is outstanding until its flag is raised. */
  ghost predicate WaitersAreServed(s: State) {
    && |s.queue| <= QUEUE_SIZE
    && forall t | t in s.clients :: Served(s, t)
  }

  ghost predicate Inv(s: State) {
    && WaitersAreServed(s)
    && CommandsAreOwned(s) && CommandsAreApart(s) && FlagsAreReplies(s)
    && FramesAreFresh(s) && FramesHoldAnswers(s) && RunsAreNew(s) && Signalled(s) && Safe(s)
  }

  lemma OutstandingFrom(s: State, a: Action, s': State, c: Command)
    requires Next(s, a) == Moved(s') && Outstanding(s', c)
    ensures Outstanding(s, c) || (a.Put? && c == Command(a.thread, s.clients[a.thread].frame))
  {
  }

  lemma KeepsOwned(s: State, a: Action, s': State)
    requires CommandsAreOwned(s) && FlagsAreReplies(s) && !a.Stray? && Next(s, a) == Moved(s')
    ensures CommandsAreOwned(s')
  {
    forall c | Outstanding(s', c) ensures c.thread in s'.clients && s'.clients[c.thread] == Waiting(c.frame) {
      OutstandingFrom(s, a, s', c);
    }
  }

  lemma KeepsApart(s: State, a: Action, s': State)
    requires CommandsAreOwned(s) && CommandsAreApart(s) && !a.Stray? && Next(s, a) == Moved(s')
    ensures CommandsAreApart(s')
  {
    if a.Put? {
      forall i | 0 <= i < |s.queue| ensures s.queue[i].thread != a.thread {
        assert Outstanding(s, s.queue[i]);
      }
      assert !s.service.Getting? ==> Outstanding(s, s.service.command);
    }
  }

  lemma KeepsServed(s: State, a: Action, s': State)
    requires WaitersAreServed(s) && !a.Stray? && Next(s, a) == Moved(s')
    ensures WaitersAreServed(s')
  {
    forall t | t in s'.clients ensures Served(s', t) {
      assert Served(s, t);
    }
  }

  lemma KeepsFlags(s: State, a: Action, s': State)
    requires FlagsAreReplies(s) && Signalled(s) && CommandsAreOwned(s) && CommandsAreApart(s)
    requires !a.Stray? && Next(s, a) == Moved(s')
    ensures FlagsAreReplies(s') && Signalled(s')
  {
  }

  lemma KeepsFrames(s: State, a: Action, s': State)
    requires FramesAreFresh(s) && !a.Stray? && Next(s, a) == Moved(s')
    ensures FramesAreFresh(s')
  {
  }

  lemma KeepsAnswers(s: State, a: Action, s': State)
    requires FramesAreFresh(s) && FramesHoldAnswers(s) && CommandsAreOwned(s)
    requires !a.Stray? && Next(s, a) == Moved(s')
    ensures FramesHoldAnswers(s')
  {
    if a.Execute? {
      assert Outstanding(s, s.service.command);
    }
  }

  lemma KeepsRunsNew(s: State, a: Action, s': State)
    requires RunsAreNew(s) && CommandsAreOwned(s) && CommandsAreApart(s) && FramesAreFresh(s) && FramesHoldAnswers(s)
    requires !a.Stray? && Next(s, a) == Moved(s')
    ensures RunsAreNew(s')
  {
    if a.Execute? {
      var c := s.service.command;
      assert Outstanding(s, c);
      forall d | d in s.queue ensures d.frame !in s'.runs {
        assert Outstanding(s, d) && d.thread != c.thread;
      }
    }
  }

  lemma KeepsSafe(s: State, a: Action, s': State)
    requires Safe(s) && CommandsAreOwned(s) && FlagsAreReplies(s) && FramesAreFresh(s) && FramesHoldAnswers(s)
    requires !a.Stray? && Next(s, a) == Moved(s')
    ensures Safe(s')
  {
  }

  lemma StepKeepsInv(s: State, a: Action, s': State)
    requires Inv(s) && !a.Stray? && Next(s, a) == Moved(s')
    ensures Inv(s')
  {
    KeepsServed(s, a, s');
    KeepsOwned(s, a, s');
    KeepsApart(s, a, s');
    KeepsFlags(s, a, s');
    KeepsFrames(s, a, s');
    KeepsAnswers(s, a, s');
    KeepsRunsNew(s, a, s');
    KeepsSafe(s, a, s');
  }

  // ----- Theorems over every run

  lemma {:induction false} RunKeepsInv(s: State, acts: seq<Action>, s': State)
    requires Inv(s) && StrayFree(acts) && Exec(s, acts) == Moved(s')
    ensures Inv(s')
    decreases |acts|
  {
    if acts != [] {
      var next := Next(s, acts[0]).state;
      StepKeepsInv(s, acts[0], next);
      RunKeepsInv(next, acts[1..], s');
    }
  }

  /**
   Call safety, for any number of clients: every call that has returned did so after its own command
   ran, with what littlefs answered to it; the service never wrote to the frame of a caller that had
   returned; and every command still to be signalled is the one its thread is waiting for.
   */
  lemma CallsAreSafe(threads: set<Thread>, acts: seq<Action>, s: State)
    requires StrayFree(acts) && Exec(Init(threads), acts) == Moved(s)
    ensures Safe(s) && CommandsAreOwned(s)
  {
    RunKeepsInv(Init(threads), acts, s);
  }

  /** No deadlock: while a client is inside a call, it or the service can take its next step. */
  lemma NeverStalls(s: State, t: Thread)
    requires Inv(s) && t in s.clients && !s.clients[t].Idle?
    ensures Next(s, Put(t)).Moved? || Next(s, Wake(t)).Moved? ||
            Next(s, Get).Moved? || Next(s, Execute(0)).Moved? || Next(s, Signal).Moved?
  {
    assert Served(s, t);
  }

  // ----- How long a caller waits

  /** The steps that the service takes. */
  function ServiceSteps(acts: seq<Action>): nat {
    if acts == [] then 0
    else (if acts[0].Get? || acts[0].Execute? || acts[0].Signal? then 1 else 0) + ServiceSteps(acts[1..])
  }

  function PositionOf(queue: seq<Command>, c: Command): nat {
    if queue == [] || queue[0] == c then 0 else 1 + PositionOf(queue[1..], c)
  }

  /** What the service still has to do for the command in its hands. */
  function StepsInHand(service: ServicePc): nat {
    match service
    case Getting => 0
    case Running(_) => 2
    case Signalling(_) => 1
  }

  /** How many steps of the service a waiting thread is away from its flag: three for each command up to its own. */
  function StepsAway(s: State, c: Command): nat {
    if !s.service.Getting? && s.service.command == c then StepsInHand(s.service)
    else StepsInHand(s.service) + 3 * (PositionOf(s.queue, c) + 1)
  }

  lemma {:induction false} PositionIsIndex(queue: seq<Command>, i: nat)
    requires i < |queue| && forall j | 0 <= j < i :: queue[j] != queue[i]
    ensures PositionOf(queue, queue[i]) == i
    decreases i
  {
    if i > 0 {
      assert queue[0] != queue[i];
      PositionIsIndex(queue[1..], i - 1);
    }
  }

  lemma {:induction false} PositionKept(queue: seq<Command>, c: Command, d: Command)
    requires c in queue
    ensures PositionOf(queue + [d], c) == PositionOf(queue, c)
    decreases |queue|
  {
    if queue[0] != c {
      assert (queue + [d])[0] == queue[0] && (queue + [d])[1..] == queue[1..] + [d];
      PositionKept(queue[1..], c, d);
    }
  }

  /** The thread waits for its command and its flag is not raised yet. */
  ghost predicate Unanswered(s: State, c: Command) {
    c.thread in s.clients && s.clients[c.thread] == Waiting(c.frame) && c.thread !in s.flags
  }

  /** The flag is raised, or the call has returned. */
  ghost predicate Answered(s: State, c: Command) {
    || (c.thread in s.clients && s.clients[c.thread] == Waiting(c.frame) && c.thread in s.flags)
    || exists r :: r in s.replies && r.thread == c.thread && r.frame == c.frame
  }

  lemma StepTowardsAnswer(s: State, a: Action, s': State, c: Command)
    requires Inv(s) && !a.Stray? && Next(s, a) == Moved(s') && Unanswered(s, c)
    ensures Answered(s', c) || (Unanswered(s', c) && ServiceSteps([a]) + StepsAway(s', c) == StepsAway(s, c))
  {
    assert Served(s, c.thread) && Outstanding(s, c);
    assert [a][1..] == [];
    assert ServiceSteps([a]) == if a.Get? || a.Execute? || a.Signal? then 1 else 0;
    if a.Put? && c in s.queue {
      PositionKept(s.queue, c, Command(a.thread, s.clients[a.thread].frame));
    }
  }

  lemma AnsweredStays(s: State, a: Action, s': State, c: Command)
    requires Next(s, a) == Moved(s') && Answered(s, c)
    ensures Answered(s', c)
  {
    if a == Wake(c.thread) && s.clients[c.thread] == Waiting(c.frame) {
      assert s'.replies[|s.replies|] in s'.replies;
    } else if r :| r in s.replies && r.thread == c.thread && r.frame == c.frame {
      assert r in s'.replies;
    }
  }

  lemma {:induction false} AnsweredForGood(s: State, acts: seq<Action>, s': State, c: Command)
    requires Exec(s, acts) == Moved(s') && Answered(s, c)
    ensures Answered(s', c)
    decreases |acts|
  {
    if acts != [] {
      AnsweredStays(s, acts[0], Next(s, acts[0]).state, c);
      AnsweredForGood(Next(s, acts[0]).state, acts[1..], s', c);
    }
  }

  lemma {:induction false} TowardsAnswer(s: State, acts: seq<Action>, s': State, c: Command, steps: nat, away: nat)
    requires Inv(s) && StrayFree(acts) && Exec(s, acts) == Moved(s') && Unanswered(s, c)
    requires steps == ServiceSteps(acts) && away == StepsAway(s, c)
    ensures Answered(s', c) || (Unanswered(s', c) && steps + StepsAway(s', c) == away)
    decreases |acts|
  {
    if acts != [] {
      var next := Next(s, acts[0]).state;
      StepTowardsAnswer(s, acts[0], next, c);
      if Answered(next, c) {
        AnsweredForGood(next, acts[1..], s', c);
      } else {
        StepKeepsInv(s, acts[0], next);
        assert [acts[0]][1..] == [];
        TowardsAnswer(next, acts[1..], s', c, ServiceSteps(acts[1..]), StepsAway(next, c));
      }
    }
  }

  /**
   Over every run in which only the service raises flags, whatever the clients do: each step of the service
   brings a waiting thread one step closer, and once it has taken `StepsAway` of them the thread's flag is
   raised or its call has returned. Until then the service can take a step.
   */
  lemma AnsweredInTime(s: State, acts: seq<Action>, s': State, c: Command)
    requires Inv(s) && StrayFree(acts) && Exec(s, acts) == Moved(s') && Unanswered(s, c)
    ensures Answered(s', c) || (Unanswered(s', c) && ServiceSteps(acts) + StepsAway(s', c) == StepsAway(s, c))
    ensures ServiceSteps(acts) >= StepsAway(s, c) ==> Answered(s', c)
    ensures Answered(s', c) || Next(s', Get).Moved? || Next(s', Execute(0)).Moved? || Next(s', Signal).Moved?
  {
    TowardsAnswer(s, acts, s', c, ServiceSteps(acts), StepsAway(s, c));
    RunKeepsInv(s, acts, s');
    if !Answered(s', c) {
      assert Served(s', c.thread) && Outstanding(s', c);
    }
  }

  /** The distance of a command at index `i` of the queue. */
  lemma StepsAwayInQueue(s: State, i: nat)
    requires Inv(s) && i < |s.queue|
    ensures StepsAway(s, s.queue[i]) == 3 * (i + 1) + StepsInHand(s.service)
    ensures StepsAway(s, s.queue[i]) <= 26
  {
    PositionIsIndex(s.queue, i);
  }

  // ----- What somebody else's flag does

  /** Safe whatever happens next, as long as nobody but the service raises a flag. */
  ghost predicate AlwaysSafe(s: State) {
    forall acts, s' | StrayFree(acts) && Exec(s, acts) == Moved(s') :: Safe(s')
  }

  lemma {:induction false} ExecConcat(s: State, acts: seq<Action>, s': State, more: seq<Action>)
    requires Exec(s, acts) == Moved(s')
    ensures Exec(s, acts + more) == Exec(s', more)
    decreases |acts|
  {
    if acts == [] {
      assert acts + more == more;
    } else {
      ExecConcat(Next(s, acts[0]).state, acts[1..], s', more);
      assert (acts + more)[1..] == acts[1..] + more;
    }
  }

  lemma SafeAfter(s: State, a: Action, s': State)
    requires AlwaysSafe(s) && !a.Stray? && Next(s, a) == Moved(s')
    ensures AlwaysSafe(s') && Safe(s')
  {
    assert Exec(s, [a]) == Moved(s');
    forall acts, s'' | StrayFree(acts) && Exec(s', acts) == Moved(s'') ensures Safe(s'') {
      ExecConcat(s, [a], s', acts);
      assert StrayFree([a] + acts);
    }
  }

  /** The service can be stepped until the queue has room, without running the command that `t` is putting. */
  lemma MakeRoom(s: State, t: Thread) returns (s': State)
    requires t in s.clients && s.clients[t].Putting? && t in s.flags && |s.queue| <= QUEUE_SIZE
    requires CommandsAreOwned(s) && FramesAreFresh(s) && s.clients[t].frame !in s.runs && AlwaysSafe(s)
    ensures AlwaysSafe(s') && s'.clients == s.clients && t in s'.flags
    ensures |s'.queue| < QUEUE_SIZE && s'.clients[t].frame !in s'.runs
  {
    s' := s;
    if |s.queue| == QUEUE_SIZE {
      if s'.service.Running? {
        assert Outstanding(s, s.service.command);
        s' := SafeStep(s', Execute(0));
      }
      if s'.service.Signalling? {
        s' := SafeStep(s', Signal);
      }
      s' := SafeStep(s', Get);
    }
  }

  lemma SafeStep(s: State, a: Action) returns (s': State)
    requires AlwaysSafe(s) && !a.Stray? && Next(s, a).Moved?
    ensures AlwaysSafe(s') && Safe(s') && Next(s, a) == Moved(s')
  {
    s' := Next(s, a).state;
    SafeAfter(s, a, s');
  }

  /** A waiting thread whose command has not run returns too early. */
  lemma EarlyWake(s: State, t: Thread)
    requires t in s.clients && s.clients[t].Waiting? && s.clients[t].frame !in s.runs && t in s.flags
    ensures !AlwaysSafe(s)
  {
    var s' := Next(s, Wake(t)).state;
    var r := s'.replies[|s.replies|];
    assert r in s'.replies && !r.hadRun;
    assert Exec(s, [Wake(t)]) == Moved(s');
  }

  lemma RaisedOutstanding(s: State, t: Thread)
    requires CommandsAreOwned(s)
    ensures CommandsAreOwned(s.(flags := s.flags + {t}))
  {
    forall c | Outstanding(s.(flags := s.flags + {t}), c) ensures Outstanding(s, c) {
    }
  }

  lemma RaiseWhilePutting(s: State, t: Thread)
    requires Inv(s) && t in s.clients && s.clients[t].Putting?
    ensures !AlwaysSafe(s.(flags := s.flags + {t}))
  {
    var raised := s.(flags := s.flags + {t});
    if AlwaysSafe(raised) {
      RaisedOutstanding(s, t);
      var s1 := MakeRoom(raised, t);
      var s2 := SafeStep(s1, Put(t));
      EarlyWake(s2, t);
    }
  }

  /** A flag left over from elsewhere makes the next call return before its command has run. */
  lemma StaleFlagBreaksCall(s: State, t: Thread)
    requires Inv(s) && t in s.clients && s.clients[t].Idle?
    ensures !AlwaysSafe(s.(flags := s.flags + {t}))
  {
    var raised := s.(flags := s.flags + {t});
    var called := Next(s, Call(t)).state;
    StepKeepsInv(s, Call(t), called);
    RaiseWhilePutting(called, t);
    if AlwaysSafe(raised) {
      SafeAfter(raised, Call(t), called.(flags := called.flags + {t}));
    }
  }

  /** Between the run of the command and the service's own signal: the call returns, the signal stays behind. */
  lemma RaiseBeforeSignal(s: State, t: Thread)
    requires Inv(s) && t in s.clients && s.clients[t].Waiting? && t !in s.flags
    requires s.service == Signalling(Command(t, s.clients[t].frame))
    ensures !AlwaysSafe(s.(flags := s.flags + {t}))
  {
    var raised := s.(flags := s.flags + {t});
    var signalled := Next(s, Signal).state;
    StepKeepsInv(s, Signal, signalled);
    var done := Next(signalled, Wake(t)).state;
    StepKeepsInv(signalled, Wake(t), done);
    StaleFlagBreaksCall(done, t);
    var woken := Next(raised, Wake(t)).state;
    var left := Next(woken, Signal).state;
    assert left == done.(flags := done.flags + {t});
    if AlwaysSafe(raised) {
      SafeAfter(raised, Wake(t), woken);
      SafeAfter(woken, Signal, left);
    }
  }

  lemma RaiseWhileWaiting(s: State, t: Thread)
    requires Inv(s) && t in s.clients && s.clients[t].Waiting? && t !in s.flags
    ensures !AlwaysSafe(s.(flags := s.flags + {t}))
  {
    var c := Command(t, s.clients[t].frame);
    assert Served(s, t) && Outstanding(s, c);
    if s.service == Signalling(c) {
      RaiseBeforeSignal(s, t);
    } else {
      EarlyWake(s.(flags := s.flags + {t}), t);
    }
  }

  /**
   Somebody else raises a thread's flag: in any state the protocol reaches, inside a call or between calls,
   that is harmless exactly when the flag is raised already.
   */
  lemma ForeignRaiseIsHarmlessOnlyIfRaised(s: State, t: Thread)
    requires Inv(s) && t in s.clients
    ensures Next(s, Stray(t)) == Moved(s.(flags := s.flags + {t}))
    ensures AlwaysSafe(s.(flags := s.flags + {t})) <==> t in s.flags
  {
    if t in s.flags {
      assert s.flags + {t} == s.flags;
      forall acts, s' | StrayFree(acts) && Exec(s, acts) == Moved(s') ensures Safe(s') {
        RunKeepsInv(s, acts, s');
      }
    } else {
      match s.clients[t]
      case Idle => StaleFlagBreaksCall(s, t);
      case Putting(_) => RaiseWhilePutting(s, t);
      case Waiting(_) => RaiseWhileWaiting(s, t);
    }
  }

  /**
   A thread about to call is safe exactly when its flag is clear, provided that nobody but the service
   raises flags from then on.
   */
  lemma CleanFlagIsExactlyEnough(s: State, t: Thread, stale: bool)
    requires Inv(s) && t in s.clients && s.clients[t].Idle?
    ensures AlwaysSafe(if stale then s.(flags := s.flags + {t}) else s) <==> !stale
  {
    if stale {
      StaleFlagBreaksCall(s, t);
    } else {
      forall acts, s' | StrayFree(acts) && Exec(s, acts) == Moved(s') ensures Safe(s') {
        RunKeepsInv(s, acts, s');
      }
    }
  }

  lemma ReachableInv(threads: set<Thread>, acts: seq<Action>, s: State)
    requires StrayFree(acts) && Exec(Init(threads), acts) == Moved(s)
    ensures Inv(s)
  {
    RunKeepsInv(Init(threads), acts, s);
  }

  // ----- Where the replies come from

  /** The state in which action `i` of the run is taken. */
  ghost function StateAt(s: State, acts: seq<Action>, i: nat): State
    requires Exec(s, acts).Moved? && i <= |acts|
    decreases i
  {
    if i == 0 then s else StateAt(Next(s, acts[0]).state, acts[1..], i - 1)
  }

  /** Action `i` is the service running the command of frame `f`, to which littlefs answered `answer`. */
  ghost predicate RanAt(s: State, acts: seq<Action>, i: nat, f: FrameId, answer: int)
    requires Exec(s, acts).Moved? && i < |acts|
  {
    && acts[i] == Execute(answer)
    && StateAt(s, acts, i).service.Running? && StateAt(s, acts, i).service.command.frame == f
  }

  lemma {:induction false} AnswersWereGiven(s: State, acts: seq<Action>, s': State, f: FrameId)
    requires Exec(s, acts) == Moved(s') && f in s'.answers
    ensures (f in s.answers && s'.answers[f] == s.answers[f]) ||
            exists i :: 0 <= i < |acts| && RanAt(s, acts, i, f, s'.answers[f])
    decreases |acts|
  {
    if acts != [] {
      var next, rest := Next(s, acts[0]).state, acts[1..];
      AnswersWereGiven(next, rest, s', f);
      if f in next.answers && s'.answers[f] == next.answers[f] {
        if acts[0].Execute? && s.service.command.frame == f {
          assert StateAt(s, acts, 0) == s && RanAt(s, acts, 0, f, s'.answers[f]);
        }
      } else {
        var i :| 0 <= i < |rest| && RanAt(next, rest, i, f, s'.answers[f]);
        assert StateAt(s, acts, i + 1) == StateAt(next, rest, i) && acts[i + 1] == rest[i];
        assert RanAt(s, acts, i + 1, f, s'.answers[f]);
      }
    }
  }

  /** Every reply is what littlefs answered when the service ran the command of that very call. */
  lemma RepliesAreAnswers(threads: set<Thread>, acts: seq<Action>, s: State, r: Reply)
    requires StrayFree(acts) && Exec(Init(threads), acts) == Moved(s) && r in s.replies
    ensures exists i :: 0 <= i < |acts| && RanAt(Init(threads), acts, i, r.frame, r.ret)
  {
    CallsAreSafe(threads, acts, s);
    AnswersWereGiven(Init(threads), acts, s, r.frame);
  }

  /** Action `i` is the service writing to the frame of a caller that is not inside that call any more. */
  ghost predicate WritesDeadAt(s: State, acts: seq<Action>, i: nat)
    requires Exec(s, acts).Moved? && i < |acts|
  {
    var at := StateAt(s, acts, i);
    acts[i].Execute? && at.service.Running? && !Live(at, at.service.command.frame)
  }

  /** The mark for such a write is there exactly when one was made, in every run, stray flags or not. */
  lemma {:induction false} DeadWritesAreMarked(s: State, acts: seq<Action>, s': State)
    requires Exec(s, acts) == Moved(s')
    ensures s'.wroteDead <==> s.wroteDead || exists i :: 0 <= i < |acts| && WritesDeadAt(s, acts, i)
    decreases |acts|
  {
    if acts != [] {
      var next, rest := Next(s, acts[0]).state, acts[1..];
      DeadWritesAreMarked(next, rest, s');
      assert StateAt(s, acts, 0) == s;
      assert next.wroteDead <==> s.wroteDead || WritesDeadAt(s, acts, 0);
      forall i | 0 <= i < |rest| ensures WritesDeadAt(next, rest, i) <==> WritesDeadAt(s, acts, i + 1) {
        assert StateAt(s, acts, i + 1) == StateAt(next, rest, i) && acts[i + 1] == rest[i];
      }
      if i :| 0 <= i < |acts| && WritesDeadAt(s, acts, i) {
        assert i > 0 ==> WritesDeadAt(next, rest, i - 1);
      }
      if i :| 0 <= i < |rest| && WritesDeadAt(next, rest, i) {
        assert WritesDeadAt(s, acts, i + 1);
      }
    }
  }
}
