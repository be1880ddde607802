/**
 The software timers of the NFC library (lib/ST25RFAL002/timer.c), over a tick counter of 32 bits that
 wraps. `Wrap` is what the counter shows at a true time that never wraps.
 */
module TickTimer {

  const TWO_31 := 0x8000_0000
  const TWO_32 := 0x1_0000_0000

  type Word = x: nat | x < 0x1_0000_0000
  type HalfWord = x: nat | x < 0x1_0000

  function Wrap(time: int): Word {
    time % TWO_32
  }

  /** The conversion of an unsigned word to a signed one. */
  function Signed(x: Word): int {
    if x < TWO_31 then x else x - TWO_32
  }

  function CalculateTimer(now: Word, time: HalfWord): Word {
    Wrap(now + time)
  }

  predicate IsExpired(timer: Word, now: Word) {
    Signed(Wrap(timer - now)) < 0
  }

  lemma WrapMinus(a: int, b: int)
    ensures Wrap(Wrap(a) - Wrap(b)) == Wrap(a - b)
  {
    var i, j := a / TWO_32, b / TWO_32;
    assert a - b == (Wrap(a) - Wrap(b)) + TWO_32 * (i - j);
  }

  lemma WrapPlus(a: int, b: int)
    ensures Wrap(Wrap(a) + b) == Wrap(a + b)
  {
    assert a + b == Wrap(a) + b + TWO_32 * (a / TWO_32);
  }

  /** What the test computes, for any two true times: late, by at most 2^31, counted modulo 2^32. */
  lemma ExpiryIsCyclic(deadline: int, now: int)
    ensures IsExpired(Wrap(deadline), Wrap(now)) <==> 1 <= Wrap(now - deadline) <= TWO_31
  {
    WrapMinus(deadline, now);
    var late := Wrap(now - deadline);
    assert Wrap(deadline - now) == if late == 0 then 0 else TWO_32 - late by {
      assert deadline - now == -late - TWO_32 * ((now - deadline) / TWO_32);
    }
  }

  /**
   The wrapping timer refines the unbounded clock: for every start and 16-bit duration, and for every
   time up to 2^31 ticks past the deadline, expired means that true time is past the deadline.
   */
  lemma TimerRefinesClock(start: int, duration: HalfWord, now: int)
    requires start <= now <= start + duration + TWO_31
    ensures IsExpired(CalculateTimer(Wrap(start), duration), Wrap(now)) <==> now > start + duration
  {
    var deadline := start + duration;
    WrapPlus(start, duration);
    ExpiryIsCyclic(deadline, now);
    if now <= deadline {
      assert now - deadline == -(deadline - now) && 0 <= deadline - now < TWO_31;
    }
  }

  /** Beyond that range the answer is right exactly while the lateness modulo 2^32 is 1 to 2^31. */
  lemma LateAnswerIsCyclic(start: int, duration: HalfWord, now: int)
    requires now > start + duration
    ensures IsExpired(CalculateTimer(Wrap(start), duration), Wrap(now)) <==>
            1 <= Wrap(now - (start + duration)) <= TWO_31
  {
    WrapPlus(start, duration);
    ExpiryIsCyclic(start + duration, now);
  }

  /** The first time the timer looks unexpired again. */
  lemma FirstWrongAnswer(start: int, duration: HalfWord)
    ensures !IsExpired(CalculateTimer(Wrap(start), duration), Wrap(start + duration + TWO_31 + 1))
  {
    LateAnswerIsCyclic(start, duration, start + duration + TWO_31 + 1);
  }

  // ----- Delay

  /**
   A ticking clock: what the true time is at each poll. It never runs back, advances at least once in
   every `stall` polls and by no more than 2^31 ticks between two polls.
   */
  ghost predicate Ticking(clock: nat -> nat, stall: nat) {
    && (forall i: nat :: clock(i) <= clock(i + 1) <= clock(i) + TWO_31)
    && (forall i: nat :: clock(i) < clock(i + stall))
  }

  lemma {:induction false} NeverRunsBack(clock: nat -> nat, stall: nat, i: nat, j: nat)
    requires Ticking(clock, stall) && i <= j
    ensures clock(i) <= clock(j)
    decreases j - i
  {
    if i < j {
      NeverRunsBack(clock, stall, i + 1, j);
    }
  }

  lemma {:induction false} AdvancesEventually(clock: nat -> nat, stall: nat, k: nat)
    requires Ticking(clock, stall)
    ensures clock(0) + k <= clock(stall * k)
  {
    if k > 0 {
      AdvancesEventually(clock, stall, k - 1);
      assert stall * k == stall * (k - 1) + stall;
      assert clock(stall * (k - 1)) < clock(stall * (k - 1) + stall);
    }
  }

  lemma PastTheDeadline(clock: nat -> nat, stall: nat, duration: nat, poll: nat)
    requires Ticking(clock, stall) && poll >= stall * (duration + 1)
    ensures clock(poll) > clock(0) + duration
  {
    AdvancesEventually(clock, stall, duration + 1);
    NeverRunsBack(clock, stall, stall * (duration + 1), poll);
  }

  lemma NextPoll(clock: nat -> nat, stall: nat, poll: nat)
    requires Ticking(clock, stall)
    ensures clock(poll) <= clock(poll + 1) <= clock(poll) + TWO_31
  {
  }

  /** Busy-waits on the clock; poll 0 sets the timer. Ends at the first poll past the deadline. */
  method Delay(clock: nat -> nat, ghost stall: nat, timeOut: HalfWord) returns (poll: nat)
    requires Ticking(clock, stall)
    ensures poll > 0 && clock(poll) > clock(0) + timeOut
    ensures forall j: nat | j < poll :: clock(j) <= clock(0) + timeOut
  {
    var t := CalculateTimer(Wrap(clock(0)), timeOut);
    ghost var enough := stall * (timeOut + 1);
    poll := 1;
    NextPoll(clock, stall, 0);
    while !IsExpired(t, Wrap(clock(poll)))
      invariant 1 <= poll <= enough + 1
      invariant forall j: nat | j < poll :: clock(j) <= clock(0) + timeOut
      invariant clock(0) <= clock(poll) <= clock(0) + timeOut + TWO_31
      decreases enough + 1 - poll
    {
      TimerRefinesClock(clock(0), timeOut, clock(poll));
      assert poll < enough by {
        if poll >= enough {
          PastTheDeadline(clock, stall, timeOut, poll);
        }
      }
      NextPoll(clock, stall, poll);
      poll := poll + 1;
    }
    TimerRefinesClock(clock(0), timeOut, clock(poll));
  }

  // ----- Stopwatch

  /** The stopwatch is exact exactly below 2^32 ticks. */
  lemma StopwatchIsExact(start: int, now: int)
    requires start <= now
    ensures Wrap(Wrap(now) - Wrap(start)) == now - start <==> now - start < TWO_32
  {
    WrapMinus(now, start);
  }

  class Stopwatch {
    var tick: Word
    ghost var started: int    // the true time of the start

    ghost predicate Valid()
      reads this
    {
      tick == Wrap(started)
    }

    method Start(now: Word, ghost trueNow: int)
      requires now == Wrap(trueNow)
      modifies this
      ensures Valid() && started == trueNow
    {
      tick, started := now, trueNow;
    }

    /** The true time since the start as long as that fits a word, and what is left of it modulo 2^32 otherwise. */
    method Measure(now: Word, ghost trueNow: int) returns (elapsed: Word)
      requires Valid() && now == Wrap(trueNow) && started <= trueNow
      ensures elapsed == trueNow - started <==> trueNow - started < TWO_32
      ensures exists wraps: nat :: trueNow - started == elapsed + wraps * TWO_32
    {
      elapsed := (now - tick) % TWO_32;
      StopwatchIsExact(started, trueNow);
      WrapMinus(trueNow, started);
      assert trueNow - started == elapsed + ((trueNow - started) / TWO_32) * TWO_32;
    }
  }
}
