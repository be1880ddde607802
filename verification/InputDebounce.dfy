/**
 What a key of the input service filters (applications/input/input.c): which readings of the pin become edges,
 over every interleaving of the machine of `InputPress`.
 */
module InputDebounce {
  import opened InputPress

  /** Debouncing happens once: at either end the debounce counter stays where it is, in every run. */
  lemma {:induction false} DebounceSettles(p: Pin, debounceTicks: nat, acts: seq<Action>)
    requires p.debounce == 0 || p.debounce >= debounceTicks
    ensures Run(p, debounceTicks, acts).debounce == p.debounce
    decreases |acts|
  {
    if acts != [] {
      DebounceSettles(Step(p, debounceTicks, acts[0]), debounceTicks, acts[1..]);
    }
  }

  /** High readings less low readings among the scans of a run. */
  function Balance(acts: seq<Action>): int {
    if acts == [] then 0
    else (match acts[0] case Thread(true) => 1 case Thread(false) => -1 case Daemon(_) => 0) + Balance(acts[1..])
  }

  /** While a run is still debouncing, it has published nothing and only added up what it read. */
  lemma {:induction false} DebounceAddsUp(p: Pin, debounceTicks: nat, acts: seq<Action>)
    requires p.thread == Scan && !p.active && p.queue == [] && (p.daemon == Drain || p.daemon == Expire)
    requires Debouncing(Run(p, debounceTicks, acts), debounceTicks)
    ensures Run(p, debounceTicks, acts).log == p.log
    ensures Run(p, debounceTicks, acts).debounce == p.debounce + Balance(acts)
    decreases |acts|
  {
    if acts != [] {
      if !Debouncing(p, debounceTicks) {
        DebounceSettles(p, debounceTicks, acts);
        assert false;
      }
      DebounceAddsUp(Step(p, debounceTicks, acts[0]), debounceTicks, acts[1..]);
    }
  }

  /** From power-on: no event until the readings have outweighed each other by half the debounce ticks. */
  lemma NothingPublishedWhileDebouncing(level: bool, debounceTicks: nat, acts: seq<Action>)
    requires Debouncing(Run(PowerOn(level, debounceTicks), debounceTicks, acts), debounceTicks)
    ensures
      var p := Run(PowerOn(level, debounceTicks), debounceTicks, acts);
      p.log == [] && p.state == level && p.debounce == debounceTicks / 2 + Balance(acts)
  {
    var p := Run(PowerOn(level, debounceTicks), debounceTicks, acts);
    DebounceAddsUp(PowerOn(level, debounceTicks), debounceTicks, acts);
    ReachableInv(level, debounceTicks, acts);
    assert PhaseInv(p, Heard(FirstPhase(level), p.log));
  }

  // ----- When a reading is filtered

  /** The levels that the scans of a run read from the pin. */
  function Readings(p: Pin, debounceTicks: nat, acts: seq<Action>): seq<bool>
    decreases |acts|
  {
    if acts == [] then []
    else
      (if acts[0].Thread? && p.thread == Scan then [acts[0].level] else []) +
      Readings(Step(p, debounceTicks, acts[0]), debounceTicks, acts[1..])
  }

  function UnfilteredBy(p: Pin, debounceTicks: nat, a: Action): seq<bool> {
    if a.Thread? && p.thread == Scan && !Debouncing(p, debounceTicks) then [a.level] else []
  }

  /** Those of them that were read while the key was not being debounced. */
  function Unfiltered(p: Pin, debounceTicks: nat, acts: seq<Action>): seq<bool>
    decreases |acts|
  {
    if acts == [] then []
    else UnfilteredBy(p, debounceTicks, acts[0]) + Unfiltered(Step(p, debounceTicks, acts[0]), debounceTicks, acts[1..])
  }

  /** An edge for each reading that differs from the one before it, and the first from `level`. */
  function Changes(level: bool, readings: seq<bool>): seq<Event>
    decreases |readings|
  {
    if readings == [] then []
    else
      (if readings[0] == level then [] else [if readings[0] then Press else Release]) +
      Changes(readings[0], readings[1..])
  }

  lemma EdgesNext(log: seq<Event>, e: Event)
    ensures Edges(log + [e]) == if e == Press || e == Release then Edges(log) + [e] else Edges(log)
  {
    assert (log + [e])[..|log|] == log;
  }

  lemma ChangesOfOne(level: bool, reading: bool)
    ensures Changes(level, [reading]) == if reading == level then [] else [if reading then Press else Release]
  {
    assert Changes(reading, [reading][1..]) == [];
  }

  lemma ScanEdges(p: Pin, debounceTicks: nat, level: bool)
    requires p.thread == Scan && !Debouncing(p, debounceTicks) && p.state != level
    ensures
      Edges(ThreadStep(p, debounceTicks, level).log) ==
      Edges(p.log) + Changes(p.state, UnfilteredBy(p, debounceTicks, Thread(level)))
  {
    ChangesOfOne(p.state, level);
    EdgesNext(p.log, if level then Press else Release);
  }

  lemma ThreadEdges(p: Pin, debounceTicks: nat, level: bool)
    ensures
      Edges(ThreadStep(p, debounceTicks, level).log) ==
      Edges(p.log) + Changes(p.state, UnfilteredBy(p, debounceTicks, Thread(level)))
  {
    if p.thread == PublishShort {
      EdgesNext(p.log, Short);
    } else if p.thread == Scan && !Debouncing(p, debounceTicks) {
      if p.state != level {
        ScanEdges(p, debounceTicks, level);
      } else {
        ChangesOfOne(p.state, level);
      }
    }
  }

  lemma DaemonEdges(p: Pin, fire: bool)
    ensures Edges(DaemonStep(p, fire).log) == Edges(p.log)
  {
    if p.daemon == Test {
      EdgesNext(p.log, Long);
    } else if p.daemon == PublishRepeat {
      EdgesNext(p.log, Repeat);
    }
  }

  lemma StepEdges(p: Pin, debounceTicks: nat, a: Action)
    ensures
      Edges(Step(p, debounceTicks, a).log) ==
      Edges(p.log) + Changes(p.state, UnfilteredBy(p, debounceTicks, a))
  {
    match a
    case Thread(level) => ThreadEdges(p, debounceTicks, level);
    case Daemon(fire) => DaemonEdges(p, fire);
  }

  lemma StepState(p: Pin, debounceTicks: nat, a: Action)
    ensures
      var read := UnfilteredBy(p, debounceTicks, a);
      Step(p, debounceTicks, a).state == if read == [] then p.state else read[0]
  {
  }

  lemma ChangesJoin(edges: seq<Event>, level: bool, first: seq<bool>, more: seq<bool>)
    requires |first| <= 1
    ensures edges + Changes(level, first) + Changes(if first == [] then level else first[0], more) ==
            edges + Changes(level, first + more)
  {
    if first == [] {
      assert first + more == more && Changes(level, first) == [];
    } else {
      assert (first + more)[0] == first[0] && (first + more)[1..] == more && first == [first[0]];
      ChangesOfOne(level, first[0]);
      assert Changes(level, first + more) == Changes(level, first) + Changes(first[0], more);
    }
  }

  /** Over every interleaving, the edges published are the level changes among the unfiltered readings. */
  lemma {:induction false} EdgesAreChanges(p: Pin, debounceTicks: nat, acts: seq<Action>)
    ensures
      Edges(Run(p, debounceTicks, acts).log) ==
      Edges(p.log) + Changes(p.state, Unfiltered(p, debounceTicks, acts))
    decreases |acts|
  {
    if acts != [] {
      FirstEdges(p, debounceTicks, acts[0], Unfiltered(Step(p, debounceTicks, acts[0]), debounceTicks, acts[1..]));
      EdgesAreChanges(Step(p, debounceTicks, acts[0]), debounceTicks, acts[1..]);
    } else {
      assert Edges(p.log) + [] == Edges(p.log);
    }
  }

  lemma FirstEdges(p: Pin, debounceTicks: nat, a: Action, more: seq<bool>)
    ensures
      var p' := Step(p, debounceTicks, a);
      Edges(p'.log) + Changes(p'.state, more) ==
      Edges(p.log) + Changes(p.state, UnfilteredBy(p, debounceTicks, a) + more)
  {
    StepEdges(p, debounceTicks, a);
    StepState(p, debounceTicks, a);
    ChangesJoin(Edges(p.log), p.state, UnfilteredBy(p, debounceTicks, a), more);
  }

  lemma {:induction false} NothingFiltered(p: Pin, debounceTicks: nat, acts: seq<Action>)
    requires !Debouncing(p, debounceTicks)
    ensures Unfiltered(p, debounceTicks, acts) == Readings(p, debounceTicks, acts)
    decreases |acts|
  {
    if acts != [] {
      DebounceSettles(p, debounceTicks, [acts[0]]);
      NothingFiltered(Step(p, debounceTicks, acts[0]), debounceTicks, acts[1..]);
    }
  }

  ghost predicate EveryChangeIsPublished(p: Pin, debounceTicks: nat) {
    forall acts ::
      Edges(Run(p, debounceTicks, acts).log) == Edges(p.log) + Changes(p.state, Readings(p, debounceTicks, acts))
  }

  /**
   A scanning key is unfiltered, every single change of level that a scan reads becoming an event, exactly
   when its debounce counter is at either end.
   */
  lemma FiltersOnlyWhileDebouncing(p: Pin, debounceTicks: nat)
    requires p.thread == Scan
    ensures EveryChangeIsPublished(p, debounceTicks) <==> !Debouncing(p, debounceTicks)
  {
    if Debouncing(p, debounceTicks) {
      var acts := [Thread(!p.state)];
      assert Run(p, debounceTicks, acts).log == p.log;
      assert Readings(p, debounceTicks, acts) == [!p.state];
      assert |Changes(p.state, [!p.state])| == 1;
    } else {
      forall acts ensures
        Edges(Run(p, debounceTicks, acts).log) == Edges(p.log) + Changes(p.state, Readings(p, debounceTicks, acts))
      {
        EdgesAreChanges(p, debounceTicks, acts);
        NothingFiltered(p, debounceTicks, acts);
      }
    }
  }

  /** One high reading and the posted start, one low reading and the posted stop. */
  const GLITCH := [Thread(true), Thread(true), Thread(false), Thread(false)]

  /** Then the daemon takes both commands and the thread sees the timer stopped. */
  const VERDICT := [Daemon(false), Daemon(false), Thread(false), Thread(false), Thread(false), Thread(false)]

  lemma {:induction false} RunConcat(p: Pin, debounceTicks: nat, acts: seq<Action>, more: seq<Action>)
    ensures Run(p, debounceTicks, acts + more) == Run(Run(p, debounceTicks, acts), debounceTicks, more)
    decreases |acts|
  {
    if acts == [] {
      assert acts + more == more;
    } else {
      assert (acts + more)[0] == acts[0] && (acts + more)[1..] == acts[1..] + more;
      RunConcat(Step(p, debounceTicks, acts[0]), debounceTicks, acts[1..], more);
    }
  }

  lemma GlitchPosts(p: Pin, debounceTicks: nat)
    requires p.thread == Scan && !p.state && !Debouncing(p, debounceTicks) && p.queue == []
    ensures Run(p, debounceTicks, GLITCH) ==
            p.(thread := AwaitStop, queue := [Start, Stop], log := p.log + [Press, Release])
    ensures Readings(p, debounceTicks, GLITCH) == [true, false]
  {
    assert GLITCH[1..][1..] == [Thread(false), Thread(false)];
    assert p.log + [Press] + [Release] == p.log + [Press, Release];
  }

  lemma VerdictFollows(p: Pin, debounceTicks: nat)
    requires p.thread == AwaitStop && p.queue == [Start, Stop] && p.daemon == Drain && p.counter == 0
    ensures Run(p, debounceTicks, VERDICT).log == p.log + [Short]
    ensures Run(p, debounceTicks, VERDICT).thread == Scan
  {
    assert VERDICT[1..][1..] == [Thread(false), Thread(false), Thread(false), Thread(false)];
    assert VERDICT[1..][1..][1..][1..] == [Thread(false), Thread(false)];
  }

  /**
   The input on which "emitted after debounce" fails: a settled, idle, released key that reads high in a
   single scan publishes a whole press.
   */
  lemma GlitchIsPublished(p: Pin, debounceTicks: nat)
    requires p.thread == Scan && !p.state && p.counter == 0 && !Debouncing(p, debounceTicks)
    requires p.daemon == Drain && !p.active && p.queue == []
    ensures Run(p, debounceTicks, GLITCH + VERDICT).log == p.log + [Press, Release, Short]
    ensures Run(p, debounceTicks, GLITCH + VERDICT).thread == Scan
    ensures Readings(p, debounceTicks, GLITCH) == [true, false]
  {
    RunConcat(p, debounceTicks, GLITCH, VERDICT);
    GlitchPosts(p, debounceTicks);
    VerdictFollows(Run(p, debounceTicks, GLITCH), debounceTicks);
  }
}
