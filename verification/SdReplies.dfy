/**
 Who gets which answer to a file-select request (`sd_api_file_select` in
 applications/sd-filesystem/sd-filesystem.c). Every caller waits on the one queue for results, of one entry,
 and an entry does not say whose it is. The service's own behaviour is that of `SdApp.Handle`; what else it
 is sent, and when, is chosen freely.
 */
module SdReplies {
  import opened SdApp
  import opened Sets

  type Thread = int

  datatype Owner = NoOne | Caller(thread: Thread)

  datatype Slot = Empty | Answer(to: Owner, result: bool)

  /** `taker` returned from its call with the answer to the call of `to`. */
  datatype Got = Got(taker: Thread, to: Owner, result: bool)

  /**
   `asked` are the requests that the service has not taken yet, `shown` is whose request is on the screen.
   `got` is history.
   */
  datatype State = State(view: View, asked: seq<Thread>, shown: Owner, slot: Slot, waiting: set<Thread>, got: seq<Got>)

  datatype Outcome = Blocked | Moved(state: State)

  datatype Action =
    | Ask(thread: Thread)
    | Take(pathMade: bool, listed: bool)    // the service takes the oldest request
    | Other(event: Event)                   // the service takes an event of another kind
    | Receive(thread: Thread)

  const START := State(STARTED, [], NoOne, Empty, {}, [])

  /**
   The service handles an event on behalf of `owner`. A reply needs the slot: the service waits for it. A
   service that faults takes no more events.
   */
  function Serve(s: State, event: Event, owner: Owner): Outcome {
    var outcome := Handle(s.view, event);
    if outcome.Fault? then Blocked else
    var view := outcome.view;
    var shown := if view.state != FileSelect then NoOne else if s.view.state == FileSelect then s.shown else owner;
    if |view.replies| == |s.view.replies| then Moved(s.(view := view, shown := shown))
    else if s.slot.Empty? then
      Moved(s.(view := view, shown := shown, slot := Answer(owner, view.replies[|view.replies| - 1])))
    else Blocked
  }

  function Next(s: State, a: Action): Outcome {
    match a
    case Ask(t) => if t in s.waiting then Blocked else Moved(s.(waiting := s.waiting + {t}, asked := s.asked + [t]))
    case Take(pathMade, listed) =>
      if s.asked == [] then Blocked else
      var served := Serve(s, FileSelectAsked(pathMade, listed), Caller(s.asked[0]));
      if served.Blocked? then Blocked
      else Moved(served.state.(asked := s.asked[1..]))
    case Other(event) => if event.FileSelectAsked? then Blocked else Serve(s, event, s.shown)
    case Receive(t) =>
      if t in s.waiting && s.slot.Answer?
      then Moved(s.(waiting := s.waiting - {t}, slot := Empty, got := s.got + [Got(t, s.slot.to, s.slot.result)]))
      else Blocked
  }

  function Exec(s: State, acts: seq<Action>): Outcome
    decreases |acts|
  {
    if acts == [] then Moved(s) else
    var next := Next(s, acts[0]);
    if next.Blocked? then Blocked else Exec(next.state, acts[1..])
  }

  /** Every call that has returned did so with its own answer. */
  ghost predicate Matched(s: State) {
    forall g | g in s.got :: g.to == Caller(g.taker)
  }

  /** A request is made only while no other call is outstanding. */
  ghost predicate OneAtATime(s: State, acts: seq<Action>)
    decreases |acts|
  {
    acts == [] ||
    (&& (acts[0].Ask? ==> s.waiting == {})
     && (Next(s, acts[0]).Moved? ==> OneAtATime(Next(s, acts[0]).state, acts[1..])))
  }

  /** The one call outstanding is in exactly one place: asked, on the screen, or answered. */
  predicate Tracked(s: State, t: Thread) {
    || (s.asked == [t] && s.shown == NoOne && s.slot == Empty)
    || (s.asked == [] && s.shown == Caller(t) && s.slot == Empty)
    || (s.asked == [] && s.shown == NoOne && s.slot.Answer? && s.slot.to == Caller(t))
  }

  ghost predicate Inv(s: State) {
    && SdApp.Inv(s.view) && (s.view.state == FileSelect <==> s.shown != NoOne)
    && (s.waiting == {} ==> s.asked == [] && s.shown == NoOne && s.slot == Empty)
    && (forall t | t in s.waiting :: s.waiting == {t} && Tracked(s, t))
    && Matched(s)
  }

  lemma StepKeepsInv(s: State, a: Action, s': State)
    requires Inv(s) && Next(s, a) == Moved(s') && (a.Ask? ==> s.waiting == {})
    ensures Inv(s')
  {
    if s.waiting != {} {
      NonEmpty(s.waiting);
      var t :| t in s.waiting;
      assert Tracked(s, t);
    }
    match a
    case Ask(t) =>
    case Take(pathMade, listed) => HandleKeepsInv(s.view, FileSelectAsked(pathMade, listed));
    case Other(event) => HandleKeepsInv(s.view, event);
    case Receive(t) => assert s.waiting - {t} == {};
  }

  lemma {:induction false} RunKeepsInv(s: State, acts: seq<Action>, s': State)
    requires Inv(s) && OneAtATime(s, acts) && Exec(s, acts) == Moved(s')
    ensures Inv(s')
    decreases |acts|
  {
    if acts != [] {
      var next := Next(s, acts[0]).state;
      StepKeepsInv(s, acts[0], next);
      RunKeepsInv(next, acts[1..], s');
    }
  }

  /** From the start, as long as calls do not overlap, every call returns with its own answer. */
  lemma CallsGetTheirOwnAnswers(acts: seq<Action>, s: State)
    requires OneAtATime(START, acts) && Exec(START, acts) == Moved(s)
    ensures Inv(s) && Matched(s)
  {
    RunKeepsInv(START, acts, s);
  }

  ghost predicate AlwaysMatched(s: State) {
    forall acts, s' | OneAtATime(s, acts) && Exec(s, acts) == Moved(s') :: Matched(s')
  }

  /** A thread that waits can take the answer in the slot, whosever it is. */
  lemma TakesAnothersAnswer(s: State, t: Thread)
    requires t in s.waiting && s.slot.Answer? && s.slot.to != Caller(t)
    ensures !AlwaysMatched(s)
  {
    var s' := Next(s, Receive(t)).state;
    assert s'.got[|s.got|] in s'.got;
    assert Exec(s, [Receive(t)]) == Moved(s') && OneAtATime(s, [Receive(t)]);
  }

  lemma MismatchAfter(s: State, a: Action, s': State)
    requires !a.Ask? && Next(s, a) == Moved(s') && !AlwaysMatched(s')
    ensures !AlwaysMatched(s)
  {
    var acts, s'' :| OneAtATime(s', acts) && Exec(s', acts) == Moved(s'') && !Matched(s'');
    assert ([a] + acts)[1..] == acts;
    assert Exec(s, [a] + acts) == Moved(s'') && OneAtATime(s, [a] + acts);
  }

  /** Two calls overlap: wherever the first one is, one of the two can get the other's answer. */
  lemma OverlapMixesAnswers(s: State, t: Thread, u: Thread, s1: State)
    requires Inv(s) && u in s.waiting && Next(s, Ask(t)) == Moved(s1)
    ensures !AlwaysMatched(s1)
  {
    assert Tracked(s, u);
    if s.slot.Answer? {
      TakesAnothersAnswer(s1, t);
    } else {
      var s2 := Next(s1, Take(false, false)).state;
      TakesAnothersAnswer(s2, if s.asked == [u] then t else u);
      MismatchAfter(s1, Take(false, false), s2);
    }
  }

  /**
   In every state that non-overlapping calls reach, a further request is harmless, whatever happens next
   without a second overlap, exactly when no call is outstanding.
   */
  lemma AskingIsSafeExactlyAlone(s: State, t: Thread, s1: State)
    requires Inv(s) && Next(s, Ask(t)) == Moved(s1)
    ensures AlwaysMatched(s1) <==> s.waiting == {}
  {
    if s.waiting == {} {
      StepKeepsInv(s, Ask(t), s1);
      forall acts, s' | OneAtATime(s1, acts) && Exec(s1, acts) == Moved(s') ensures Matched(s') {
        RunKeepsInv(s1, acts, s');
      }
    } else {
      NonEmpty(s.waiting);
      var u :| u in s.waiting;
      OverlapMixesAnswers(s, t, u, s1);
    }
  }

  /** Two callers: the first one's request is refused, and the second one returns with that refusal. */
  lemma TwoCallersMixAnswers(u: Thread, t: Thread)
    requires u != t
    ensures
      var end := Exec(START, [Ask(u), Ask(t), Take(false, false), Receive(t)]);
      end.Moved? && end.state.got == [Got(t, Caller(u), false)] && u in end.state.waiting
  {
    var s1 := Next(START, Ask(u)).state;
    var s2 := Next(s1, Ask(t)).state;
    var s3 := Next(s2, Take(false, false)).state;
    var s4 := Next(s3, Receive(t)).state;
    assert Exec(s3, [Receive(t)]) == Moved(s4);
    assert Exec(s2, [Take(false, false), Receive(t)]) == Exec(s3, [Receive(t)]);
    assert Exec(s1, [Ask(t), Take(false, false), Receive(t)]) == Exec(s2, [Take(false, false), Receive(t)]);
  }

  /** The same from the start: after every run of calls that do not overlap. */
  lemma AfterSeparateCalls(acts: seq<Action>, s: State, t: Thread, s1: State)
    requires OneAtATime(START, acts) && Exec(START, acts) == Moved(s) && Next(s, Ask(t)) == Moved(s1)
    ensures AlwaysMatched(s1) <==> s.waiting == {}
  {
    RunKeepsInv(START, acts, s);
    AskingIsSafeExactlyAlone(s, t, s1);
  }

  // ----- The results themselves

  function Results(got: seq<Got>): seq<bool> {
    seq(|got|, i requires 0 <= i < |got| => got[i].result)
  }

  /** What the service has replied is what the calls returned with, in order, and what is left in the slot. */
  predicate Delivered(s: State) {
    s.view.replies == Results(s.got) + if s.slot.Answer? then [s.slot.result] else []
  }

  lemma HandleReplies(v: View, e: Event)
    requires Handle(v, e).Next?
    ensures
      var replies := Handle(v, e).view.replies;
      replies == v.replies || replies == v.replies + [replies[|replies| - 1]]
  {
  }

  lemma StepDelivers(s: State, a: Action, s': State)
    requires Delivered(s) && Next(s, a) == Moved(s')
    ensures Delivered(s')
  {
    match a
    case Ask(_) =>
    case Take(pathMade, listed) => HandleReplies(s.view, FileSelectAsked(pathMade, listed));
    case Other(event) => HandleReplies(s.view, event);
    case Receive(t) => assert Results(s'.got) == Results(s.got) + [s.slot.result];
  }

  /** In every run, whoever asks when, no reply is lost, repeated or changed on its way. */
  lemma {:induction false} RepliesAreDelivered(s: State, acts: seq<Action>, s': State)
    requires Delivered(s) && Exec(s, acts) == Moved(s')
    ensures s'.view.replies == Results(s'.got) + if s'.slot.Answer? then [s'.slot.result] else []
    decreases |acts|
  {
    if acts != [] {
      StepDelivers(s, acts[0], Next(s, acts[0]).state);
      RepliesAreDelivered(Next(s, acts[0]).state, acts[1..], s');
    }
  }
}
