/**
 The wake-up flag of a thread (core/furi/record.c): creates raise it, and so may anyone else who uses the
 same bit; a thread takes it on waking inside `open`, and outside the registry whenever it likes.
 */
module RecordFlags {
  import opened RecordRegistry

  /** The flag of `t` is raised: by a create that reaches `t` in its holder loop, or by another user of the bit. */
  predicate Raises(a: Action, t: Thread) {
    a == Raise(t) || (a.Notify? && a.target == t)
  }

  /** `t` wakes inside `open`. */
  predicate Wakes(s: State, a: Action, t: Thread) {
    a == Run(t) && t in s.pcs && s.pcs[t].OpenWait?
  }

  predicate Takes(s: State, a: Action, t: Thread) {
    Wakes(s, a, t) || a == Drain(t)
  }

  /** The state in which action `i` of the run is taken. */
  ghost function StateAt(s: State, acts: seq<Action>, i: nat): State
    requires Exec(s, acts).Moved? && i <= |acts|
    decreases i
  {
    if i == 0 then s else StateAt(Next(s, acts[0]).state, acts[1..], i - 1)
  }

  /** From action `i` on, nobody takes the flag of `t`. */
  ghost predicate Untaken(s: State, acts: seq<Action>, i: nat, t: Thread)
    requires Exec(s, acts).Moved? && i <= |acts|
  {
    forall j | i <= j < |acts| :: !Takes(StateAt(s, acts, j), acts[j], t)
  }

  /** From action `i` on, `t` does not wake. */
  ghost predicate Unwoken(s: State, acts: seq<Action>, i: nat, t: Thread)
    requires Exec(s, acts).Moved? && i <= |acts|
  {
    forall j | i <= j < |acts| :: !Wakes(StateAt(s, acts, j), acts[j], t)
  }

  lemma FlagStep(s: State, a: Action, s': State, t: Thread)
    requires Next(s, a) == Moved(s')
    ensures t in s'.flags <==> Raises(a, t) || (t in s.flags && !Takes(s, a, t))
  {
  }

  lemma UntakenLater(s: State, acts: seq<Action>, i: nat, t: Thread)
    requires Exec(s, acts).Moved? && i < |acts|
    ensures Untaken(s, acts, i + 1, t) <==> Untaken(Next(s, acts[0]).state, acts[1..], i, t)
  {
    var next := Next(s, acts[0]).state;
    forall j | i <= j < |acts[1..]|
      ensures StateAt(s, acts, j + 1) == StateAt(next, acts[1..], j) && acts[j + 1] == acts[1..][j]
    {
    }
    if Untaken(next, acts[1..], i, t) {
      forall j | i + 1 <= j < |acts| ensures !Takes(StateAt(s, acts, j), acts[j], t) {
        assert !Takes(StateAt(next, acts[1..], j - 1), acts[1..][j - 1], t);
      }
    }
  }

  /**
   In every run of any threads, a flag is raised at the end exactly when it was raised at some time, or was
   at the start, and has not been taken since.
   */
  lemma {:induction false} FlagIsLastRaise(s: State, acts: seq<Action>, s': State, t: Thread)
    requires Exec(s, acts) == Moved(s')
    ensures t in s'.flags <==>
              || (t in s.flags && Untaken(s, acts, 0, t))
              || (exists i :: 0 <= i < |acts| && Raises(acts[i], t) && Untaken(s, acts, i + 1, t))
    decreases |acts|
  {
    if acts != [] {
      var next := Next(s, acts[0]).state;
      FlagStep(s, acts[0], next, t);
      FlagIsLastRaise(next, acts[1..], s', t);
      UntakenLater(s, acts, 0, t);
      assert Untaken(s, acts, 0, t) <==> !Takes(s, acts[0], t) && Untaken(s, acts, 1, t) by {
        assert StateAt(s, acts, 0) == s;
      }
      forall i | 0 <= i < |acts[1..]|
        ensures Raises(acts[1..][i], t) && Untaken(next, acts[1..], i + 1, t) <==>
                Raises(acts[i + 1], t) && Untaken(s, acts, i + 2, t)
      {
        UntakenLater(s, acts, i + 1, t);
      }
      if i :| 0 <= i < |acts| && Raises(acts[i], t) && Untaken(s, acts, i + 1, t) {
        if i != 0 {
          assert Raises(acts[1..][i - 1], t) && Untaken(next, acts[1..], i, t);
        }
      }
      if i :| 0 <= i < |acts[1..]| && Raises(acts[1..][i], t) && Untaken(next, acts[1..], i + 1, t) {
        assert Raises(acts[i + 1], t) && Untaken(s, acts, i + 2, t);
      }
    }
  }

  /** The run goes no further than the open of `t`: it begins no other call and does not drain its flag outside. */
  ghost predicate OneOpen(acts: seq<Action>, t: Thread) {
    forall a | a in acts :: a != Drain(t) && !(a.Begin? && a.thread == t)
  }

  /**
   An open that was begun with a clear flag leaves it clear exactly when no raise of it came after its last
   wake; a raise in an open that never slept is such a raise.
   */
  lemma OpenLeavesFlagClear(s: State, acts: seq<Action>, s': State, t: Thread, n: Name)
    requires Exec(s, acts) == Moved(s') && OneOpen(acts, t)
    requires t in s.pcs && s.pcs[t] == OpenLock(n, false) && t !in s.flags
    requires t in s'.pcs && s'.pcs[t] == Idle
    ensures t !in s'.flags <==>
            (forall i | 0 <= i < |acts| && Unwoken(s, acts, i + 1, t) :: !Raises(acts[i], t))
  {
    FlagIsLastRaise(s, acts, s', t);
    forall i | 0 <= i <= |acts| ensures Untaken(s, acts, i, t) <==> Unwoken(s, acts, i, t) {
      assert forall j | i <= j < |acts| :: acts[j] in acts;
      assert forall j | i <= j < |acts| ::
        Takes(StateAt(s, acts, j), acts[j], t) <==> Wakes(StateAt(s, acts, j), acts[j], t);
    }
  }

  // ----- A raise that brings no owner

  predicate Waiting(s: State, t: Thread, n: Name) {
    t in s.pcs && Inside(s.pcs[t], n) && !s.pcs[t].OpenRead?
  }

  /** How many own steps it takes from a statement of the loop to the sleep. */
  function LoopRank(pc: Pc): nat {
    match pc
    case OpenWait(_) => 0
    case OpenTest(_) => 1
    case OpenUnlock(_) => 2
    case OpenJoin(_, _) => 3
    case _ => 4
  }

  /** How many own steps a waiting opener takes until it sleeps; a raised flag costs it one more turn. */
  function SleepRank(s: State, t: Thread): nat
    requires t in s.pcs
  {
    LoopRank(s.pcs[t]) + if t in s.flags then 5 else 0
  }

  /** The next statement of a waiting opener: on towards the sleep, or a wake. */
  lemma WaitingStatement(s: State, t: Thread, n: Name)
    requires Waiting(s, t, n) && Holds(s, t, n) && !Owned(s, n) && Statement(s, t).Go?
    ensures Inside(Statement(s, t).next, n) && !Statement(s, t).next.OpenRead?
    ensures s.pcs[t].OpenWait? ==> t in s.flags && LoopRank(Statement(s, t).next) == 4
    ensures !s.pcs[t].OpenWait? ==> LoopRank(Statement(s, t).next) + 1 == LoopRank(s.pcs[t])
  {
  }

  lemma WaitingStep(s: State, a: Action, s': State, t: Thread, n: Name)
    requires InsideHolds(s) && Next(s, a) == Moved(s') && Waiting(s, t, n) && !Owned(s, n)
    requires !Raises(a, t)
    ensures Waiting(s', t, n) && SleepRank(s', t) + OwnSteps([a], t) == SleepRank(s, t)
  {
    assert OwnSteps([a], t) == if (a.Run? || a.Notify?) && a.thread == t then 1 else 0;
    assert Holds(s, t, n);
    FlagStep(s, a, s', t);
    if a == Run(t) {
      WaitingStatement(s, t, n);
      assert s'.pcs[t] == Statement(s, t).next;
    } else if a.thread != t {
      OthersKeepPc(s, a, s', t);
    }
  }

  /** The record has no owner in any state of the run. */
  ghost predicate NeverOwned(s: State, acts: seq<Action>, n: Name)
    requires Exec(s, acts).Moved?
  {
    forall i | 0 <= i <= |acts| :: !Owned(StateAt(s, acts, i), n)
  }

  lemma NeverOwnedLater(s: State, acts: seq<Action>, n: Name)
    requires Exec(s, acts).Moved? && acts != [] && NeverOwned(s, acts, n)
    ensures !Owned(s, n) && NeverOwned(Next(s, acts[0]).state, acts[1..], n)
  {
    assert StateAt(s, acts, 0) == s;
    forall i | 0 <= i <= |acts[1..]| ensures !Owned(StateAt(Next(s, acts[0]).state, acts[1..], i), n) {
      assert !Owned(StateAt(s, acts, i + 1), n);
    }
  }

  /**
   While the record has no owner and nobody raises its flag, every own step of an opener brings it one step
   closer to sleep, whatever the others do. A sleeper that was woken for nothing sleeps again, blocked and
   with a clear flag, after five own steps: it does not spin.
   */
  lemma {:induction false} WokenForNothingSleepsAgain(
      s: State, acts: seq<Action>, s': State, t: Thread, n: Name)
    requires Inv(s) && Exec(s, acts) == Moved(s') && Waiting(s, t, n) && NeverOwned(s, acts, n)
    requires forall a | a in acts :: !Raises(a, t)
    ensures Waiting(s', t, n) && OwnSteps(acts, t) + SleepRank(s', t) == SleepRank(s, t)
    ensures SleepRank(s', t) == 0 <==> s'.pcs[t] == OpenWait(n) && Next(s', Run(t)).Blocked?
    ensures s.pcs[t] == OpenWait(n) && t in s.flags ==>
              (OwnSteps(acts, t) == 5 <==> s'.pcs[t] == OpenWait(n) && t !in s'.flags)
    decreases |acts|
  {
    if acts != [] {
      var next := Next(s, acts[0]).state;
      NeverOwnedLater(s, acts, n);
      WaitingStep(s, acts[0], next, t, n);
      StepKeepsInv(s, acts[0], next);
      WokenForNothingSleepsAgain(next, acts[1..], s', t, n);
    }
  }
}
