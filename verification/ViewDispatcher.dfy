/**
 The view dispatcher (applications/gui/view_dispatcher.c): a dictionary of views, the current one, and
 the enter and exit callbacks it makes. Callbacks do not call back into the dispatcher.
 */
module ViewDispatcher {

  const VIEW_NONE := 0xFFFF_FFFF
  const VIEW_IGNORE := 0xFFFF_FFFE
  const VIEW_DESTROY := 0xFFFF_FFFA

  /** A view is told apart by its address. */
  datatype View = View(address: int, vertical: bool)

  datatype Current = NoView | Showing(view: View)

  datatype Callback = Enter(view: View) | Exit(view: View)

  datatype Operation = AddView(id: nat, view: View) | RemoveView(id: nat) | SwitchTo(id: nat)

  /** `trace` holds the callbacks made so far, `stops` the stop messages posted to the queue. */
  datatype State = State(
    views: map<nat, View>, current: Current, enabled: bool, vertical: bool, queued: bool,
    trace: seq<Callback>, stops: nat)

  /** Halted: a check failed or null was dereferenced. Destroyed: the dispatcher freed itself. */
  datatype Outcome = Halted | Destroyed(trace: seq<Callback>) | Running(state: State)

  function Allocated(queued: bool): State {
    State(map[], NoView, false, false, queued, [], 0)
  }

  /** The callbacks of leaving one view for another. */
  function Handover(from: Current, to: Current): seq<Callback> {
    (if from.Showing? then [Exit(from.view)] else []) + (if to.Showing? then [Enter(to.view)] else [])
  }

  function SetCurrent(s: State, to: Current): State {
    s.(current := to,
       trace := s.trace + Handover(s.current, to),
       enabled := to.Showing?,
       vertical := if to.Showing? then to.view.vertical else s.vertical,
       stops := if to.NoView? && s.queued then s.stops + 1 else s.stops)
  }

  function Apply(s: State, op: Operation): Outcome {
    match op
    case AddView(id, view) => if id in s.views then Halted else Running(s.(views := s.views[id := view]))
    case RemoveView(id) =>
      if id !in s.views then Halted else
      var left := if s.current == Showing(s.views[id]) then SetCurrent(s, NoView) else s;
      Running(left.(views := s.views - {id}))
    case SwitchTo(id) =>
      if id == VIEW_NONE then Running(SetCurrent(s, NoView))
      else if id == VIEW_IGNORE then Running(s)
      else if id == VIEW_DESTROY then Destroyed(s.trace)
      else if id !in s.views then Halted
      else Running(SetCurrent(s, Showing(s.views[id])))
  }

  function ApplyAll(s: State, ops: seq<Operation>): Outcome
    decreases |ops|
  {
    if ops == [] then Running(s) else
    match Apply(s, ops[0])
    case Halted => Halted
    case Destroyed(trace) => if |ops| == 1 then Destroyed(trace) else Halted
    case Running(next) => ApplyAll(next, ops[1..])
  }

  // ----- The dispatcher as it runs

  class Dispatcher {
    var views: map<nat, View>
    var current: Current
    var enabled: bool
    var vertical: bool
    const queued: bool
    var trace: seq<Callback>
    var stops: nat

    function Content(): State
      reads this
    {
      State(views, current, enabled, vertical, queued, trace, stops)
    }

    constructor (queued: bool)
      ensures Content() == Allocated(queued)
    {
      this.queued := queued;
      views, current, enabled, vertical, trace, stops := map[], NoView, false, false, [], 0;
    }

    method SetCurrentView(view: Current)
      modifies this
      ensures Content() == SetCurrent(old(Content()), view)
    {
      if current.Showing? {
        trace := trace + [Exit(current.view)];
      }
      current := view;
      if current.Showing? {
        vertical := view.view.vertical;
        trace := trace + [Enter(current.view)];
        enabled := true;
      } else {
        enabled := false;
        if queued {
          stops := stops + 1;
        }
      }
    }

    method Dispatch(op: Operation) returns (outcome: Outcome)
      modifies this
      ensures outcome == Apply(old(Content()), op)
      ensures outcome.Running? ==> outcome.state == Content()
    {
      match op {
        case AddView(id, view) =>
          if id in views {
            return Halted;
          }
          views := views[id := view];
        case RemoveView(id) =>
          if id !in views {
            return Halted;
          }
          if current == Showing(views[id]) {
            SetCurrentView(NoView);
          }
          views := views - {id};
        case SwitchTo(id) =>
          if id == VIEW_NONE {
            SetCurrentView(NoView);
          } else if id == VIEW_IGNORE {
          } else if id == VIEW_DESTROY {
            return Destroyed(trace);
          } else if id !in views {
            return Halted;
          } else {
            SetCurrentView(Showing(views[id]));
          }
      }
      outcome := Running(Content());
    }
  }

  // ----- Over every run

  /** Strictly alternating enter v, exit v pairs. */
  ghost predicate Paired(trace: seq<Callback>) {
    forall i: nat | i < |trace| :: PairedAt(trace, i)
  }

  predicate PairedAt(trace: seq<Callback>, i: nat)
    requires i < |trace|
  {
    if i % 2 == 0 then trace[i].Enter? else trace[i] == Exit(trace[i - 1].view)
  }

  /** The view that was entered and not yet left. */
  function Inside(trace: seq<Callback>): Current {
    if |trace| % 2 == 0 then NoView else Showing(trace[|trace| - 1].view)
  }

  ghost predicate Inv(s: State) {
    && (s.current.Showing? ==> exists id | id in s.views :: s.views[id] == s.current.view)
    && (s.enabled <==> s.current.Showing?)
    && (s.current.Showing? ==> s.vertical == s.current.view.vertical)
    && (s.queued && s.trace != [] && s.current.NoView? ==> s.stops > 0)
    && Paired(s.trace)
    && Inside(s.trace) == s.current
  }

  lemma HandoverKeepsPaired(trace: seq<Callback>, to: Current)
    requires Paired(trace)
    ensures
      var after := trace + Handover(Inside(trace), to);
      Paired(after) && Inside(after) == to
  {
    var after := trace + Handover(Inside(trace), to);
    forall i: nat | i < |after| ensures PairedAt(after, i) {
      if i < |trace| {
        assert PairedAt(trace, i);
      } else {
        assert after[i] == Handover(Inside(trace), to)[i - |trace|];
        assert |trace| % 2 == 1 ==> after[|trace| - 1] == trace[|trace| - 1];
      }
    }
  }

  lemma ApplyKeepsInv(s: State, op: Operation)
    requires Inv(s) && Apply(s, op).Running?
    ensures Inv(Apply(s, op).state)
  {
    HandoverKeepsPaired(s.trace, NoView);
    match op
    case AddView(id, view) =>
      var s' := Apply(s, op).state;
      if s.current.Showing? {
        var j :| j in s.views && s.views[j] == s.current.view;
        assert j in s'.views && s'.views[j] == s.current.view;
      }
    case RemoveView(id) =>
      var s' := Apply(s, op).state;
      if s.current.Showing? && s.current.view != s.views[id] {
        var j :| j in s.views && s.views[j] == s.current.view;
        assert j in s'.views && s'.views[j] == s.current.view;
      }
    case SwitchTo(id) =>
      if id in s.views {
        HandoverKeepsPaired(s.trace, Showing(s.views[id]));
      }
  }

  lemma {:induction false} RunKeepsInv(s: State, ops: seq<Operation>)
    requires Inv(s)
    ensures ApplyAll(s, ops).Running? ==> Inv(ApplyAll(s, ops).state)
    ensures ApplyAll(s, ops).Destroyed? ==> Paired(ApplyAll(s, ops).trace)
    decreases |ops|
  {
    if ops != [] && Apply(s, ops[0]).Running? {
      ApplyKeepsInv(s, ops[0]);
      RunKeepsInv(Apply(s, ops[0]).state, ops[1..]);
    }
  }

  /**
   Over every run of add, remove and switch from the allocation on: the current view is none or registered,
   the view port is enabled exactly when there is one and turned its way, a queue whose last view was left
   holds a stop message, and the callbacks are strictly alternating enter v, exit v pairs
   with the current view the one still entered. Destroying the dispatcher makes no further callback.
   */
  lemma CallbacksAlternate(queued: bool, ops: seq<Operation>)
    ensures ApplyAll(Allocated(queued), ops).Running? ==> Inv(ApplyAll(Allocated(queued), ops).state)
    ensures ApplyAll(Allocated(queued), ops).Destroyed? ==> Paired(ApplyAll(Allocated(queued), ops).trace)
  {
    RunKeepsInv(Allocated(queued), ops);
  }

  // ----- Which view is current, and which are registered

  /** The state in which operation `i` of the run is applied. */
  function StateAt(s: State, ops: seq<Operation>, i: nat): State
    requires ApplyAll(s, ops).Running? && i <= |ops|
    decreases i
  {
    if i == 0 then s else StateAt(Apply(s, ops[0]).state, ops[1..], i - 1)
  }

  /** The operation decides which view is current: a switch, or the removal of the current view. */
  predicate Decides(s: State, op: Operation) {
    || (op.SwitchTo? && op.id != VIEW_IGNORE)
    || (op.RemoveView? && op.id in s.views && s.current == Showing(s.views[op.id]))
  }

  /** From operation `i` on nothing decides. */
  ghost predicate Undecided(s: State, ops: seq<Operation>, i: nat)
    requires ApplyAll(s, ops).Running? && i <= |ops|
  {
    forall j | i <= j < |ops| :: !Decides(StateAt(s, ops, j), ops[j])
  }

  /** Operation `i` is the last that decides. */
  ghost predicate DecidesLast(s: State, ops: seq<Operation>, i: nat)
    requires ApplyAll(s, ops).Running? && i < |ops|
  {
    Decides(StateAt(s, ops, i), ops[i]) && Undecided(s, ops, i + 1)
  }

  lemma UndecidedLater(s: State, ops: seq<Operation>, i: nat)
    requires ApplyAll(s, ops).Running? && i < |ops|
    ensures Undecided(s, ops, i + 1) <==> Undecided(Apply(s, ops[0]).state, ops[1..], i)
  {
    var next, rest := Apply(s, ops[0]).state, ops[1..];
    if Undecided(next, rest, i) {
      forall j | i + 1 <= j < |ops| ensures !Decides(StateAt(s, ops, j), ops[j]) {
        assert !Decides(StateAt(next, rest, j - 1), rest[j - 1]);
      }
    }
    if Undecided(s, ops, i + 1) {
      forall j | i <= j < |rest| ensures !Decides(StateAt(next, rest, j), rest[j]) {
        assert !Decides(StateAt(s, ops, j + 1), ops[j + 1]);
      }
    }
  }

  lemma {:induction false} UndecidedKeepsCurrent(s: State, ops: seq<Operation>)
    requires ApplyAll(s, ops).Running? && Undecided(s, ops, 0)
    ensures ApplyAll(s, ops).state.current == s.current
    decreases |ops|
  {
    if ops != [] {
      assert StateAt(s, ops, 0) == s && !Decides(s, ops[0]);
      UndecidedLater(s, ops, 0);
      UndecidedKeepsCurrent(Apply(s, ops[0]).state, ops[1..]);
    }
  }

  /** The view an operation makes current. */
  ghost predicate MakesCurrent(s: State, op: Operation, current: Current) {
    if op.SwitchTo? && op.id != VIEW_NONE then op.id in s.views && current == Showing(s.views[op.id])
    else current == NoView
  }

  lemma {:induction false} LastDecisionHolds(s: State, ops: seq<Operation>, i: nat)
    requires ApplyAll(s, ops).Running? && i < |ops| && DecidesLast(s, ops, i)
    ensures MakesCurrent(StateAt(s, ops, i), ops[i], ApplyAll(s, ops).state.current)
    decreases |ops|
  {
    var next := Apply(s, ops[0]).state;
    UndecidedLater(s, ops, i);
    if i == 0 {
      UndecidedKeepsCurrent(next, ops[1..]);
    } else {
      LastDecisionHolds(next, ops[1..], i - 1);
    }
  }

  /**
   Over every run from the allocation on, the current view is the one registered under the id last switched to,
   unless that view was removed, or none switched to, since; before the first switch there is none.
   */
  lemma CurrentIsLastSwitchedTo(queued: bool, ops: seq<Operation>)
    requires ApplyAll(Allocated(queued), ops).Running?
    ensures
      var s := Allocated(queued);
      var current := ApplyAll(s, ops).state.current;
      && (Undecided(s, ops, 0) ==> current == NoView)
      && (forall i | 0 <= i < |ops| && DecidesLast(s, ops, i) :: MakesCurrent(StateAt(s, ops, i), ops[i], current))
  {
    var s := Allocated(queued);
    if Undecided(s, ops, 0) {
      UndecidedKeepsCurrent(s, ops);
    }
    forall i | 0 <= i < |ops| && DecidesLast(s, ops, i)
      ensures MakesCurrent(StateAt(s, ops, i), ops[i], ApplyAll(s, ops).state.current)
    {
      LastDecisionHolds(s, ops, i);
    }
  }

  /** Operation `i` registers `view` under `id`, and it is not removed later in the run. */
  predicate Registers(ops: seq<Operation>, i: nat, id: nat, view: View)
    requires i < |ops|
  {
    ops[i] == AddView(id, view) && RemoveView(id) !in ops[i + 1..]
  }

  /** A view is registered under an id exactly when it was at the start, or was added since, and not removed. */
  lemma {:induction false} RegisteredSinceAdded(s: State, ops: seq<Operation>, id: nat, view: View)
    requires ApplyAll(s, ops).Running?
    ensures
      var views := ApplyAll(s, ops).state.views;
      id in views && views[id] == view <==>
        || (id in s.views && s.views[id] == view && RemoveView(id) !in ops)
        || (exists i :: 0 <= i < |ops| && Registers(ops, i, id, view))
    decreases |ops|
  {
    if ops != [] {
      var next, rest := Apply(s, ops[0]).state, ops[1..];
      RegisteredSinceAdded(next, rest, id, view);
      assert ops == [ops[0]] + rest;
      assert RemoveView(id) in ops <==> ops[0] == RemoveView(id) || RemoveView(id) in rest;
      if i :| 0 <= i < |ops| && Registers(ops, i, id, view) {
        if i > 0 {
          assert rest[i - 1] == ops[i] && rest[i..] == ops[i + 1..] && Registers(rest, i - 1, id, view);
        }
      }
      if i :| 0 <= i < |rest| && Registers(rest, i, id, view) {
        assert rest[i + 1..] == ops[i + 2..] && Registers(ops, i + 1, id, view);
      }
      if ops[0] == AddView(id, view) && RemoveView(id) !in rest {
        assert Registers(ops, 0, id, view);
      }
    }
  }

  /** How often a run left the dispatcher without a view: by switching to none or by removing the current view. */
  function Leavings(s: State, ops: seq<Operation>): nat
    requires ApplyAll(s, ops).Running?
    decreases |ops|
  {
    if ops == [] then 0
    else
      (if Decides(s, ops[0]) && (ops[0].RemoveView? || ops[0].id == VIEW_NONE) then 1 else 0) +
      Leavings(Apply(s, ops[0]).state, ops[1..])
  }

  /** A dispatcher with a queue is told to stop once for each time, one without never. */
  lemma {:induction false} StopsAreLeavings(s: State, ops: seq<Operation>)
    requires ApplyAll(s, ops).Running?
    ensures ApplyAll(s, ops).state.stops == s.stops + if s.queued then Leavings(s, ops) else 0
    ensures ApplyAll(s, ops).state.queued == s.queued
    decreases |ops|
  {
    if ops != [] {
      StopsAreLeavings(Apply(s, ops[0]).state, ops[1..]);
    }
  }
}
