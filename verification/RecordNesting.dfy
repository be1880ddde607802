/**
 Opening a record that one already has open. The registry remembers who holds a record, not how often, so
 one close forgets all opens of the closing thread: what is harmless in every run of threads that open a
 record once at a time (`DisciplinedRunsAreSafe`) is a hazard from the first nested open on.
 */
module RecordNesting {
  import opened RecordApi
  import opened RecordRegistry
  import opened Sets

  // ----- What the statements of one thread leave alone

  /** Nobody has faulted, and every thread inside close holds the record. */
  ghost predicate Tame(s: State) {
    forall u | u in s.pcs :: !s.pcs[u].Fault? && (InClose(s.pcs[u]) ==> Holds(s, u, s.pcs[u].name))
  }

  lemma StepKeepsTame(s: State, a: Action, s': State)
    requires InsideHolds(s) && CreatorsReady(s) && Tame(s) && Next(s, a) == Moved(s') && (a.Run? || a.Notify?)
    ensures Tame(s')
  {
    forall u | u in s'.pcs ensures !s'.pcs[u].Fault? && (InClose(s'.pcs[u]) ==> Holds(s', u, s'.pcs[u].name)) {
      if a == Run(u) {
        assert Inside(s.pcs[u], s.pcs[u].name) ==> Holds(s, u, s.pcs[u].name);
        assert CreatorReady(s, u);
      }
      if InClose(s'.pcs[u]) {
        if a.thread != u {
          OthersKeepPc(s, a, s', u);
        }
        HoldsKept(s, a, s', u, s'.pcs[u].name);
      }
    }
  }

  /** What a thread other than `t` sees of itself is the same in both states. */
  ghost predicate OthersAsBefore(s: State, s': State, t: Thread) {
    && s'.pcs.Keys == s.pcs.Keys
    && (forall u | u in s.pcs && u != t :: s'.pcs[u] == s.pcs[u])
    && (forall u, n | u != t :: Holds(s', u, n) <==> Holds(s, u, n))
    && (forall u, n | u != t && Holds(s, u, n) && Owned(s, n) :: Owned(s', n))
    && (forall u, n | u != t :: s'.held[(u, n)] == s.held[(u, n)])
  }

  lemma StepOthersAsBefore(s: State, a: Action, s': State)
    requires Next(s, a) == Moved(s')
    ensures OthersAsBefore(s, s', a.thread)
  {
    forall u, n | u != a.thread ensures Holds(s', u, n) <==> Holds(s, u, n) {
      if Holds(s, u, n) {
        HoldsKept(s, a, s', u, n);
      } else if Holds(s', u, n) {
        HoldsBorn(s, a, s', u, n);
      }
    }
    forall u, n | u != a.thread && Holds(s, u, n) && Owned(s, n) ensures Owned(s', n) {
      OwnedKept(s, a, s', u, n);
    }
    forall u, n | u != a.thread ensures s'.held[(u, n)] == s.held[(u, n)] {
      OthersKeepHeld(s, a, s', u);
    }
  }

  lemma {:induction false} StepsKeep(s: State, acts: seq<Action>, s': State, t: Thread)
    requires Inv(s) && Tame(s) && StepsOf(acts, t) && Exec(s, acts) == Moved(s')
    ensures Inv(s') && Tame(s') && OthersAsBefore(s, s', t)
    decreases |acts|
  {
    if acts != [] {
      var next := Next(s, acts[0]).state;
      StepKeepsInv(s, acts[0], next);
      StepKeepsTame(s, acts[0], next);
      StepOthersAsBefore(s, acts[0], next);
      StepsKeep(next, acts[1..], s', t);
    }
  }

  // ----- Building a continuation

  ghost predicate Good(s0: State, s: State) {
    Leads(s0, s) && Inv(s) && Tame(s)
  }

  lemma GoodAlone(s0: State, s: State, t: Thread, s': State)
    requires Good(s0, s) && Alone(s, t, s')
    ensures Good(s0, s') && OthersAsBefore(s, s', t)
  {
    LeadsAlone(s0, s, t, s');
    var acts :| StepsOf(acts, t) && Exec(s, acts) == Moved(s');
    StepsKeep(s, acts, s', t);
  }

  lemma GoodBegin(s0: State, s: State, t: Thread, call: Call) returns (s': State)
    requires Good(s0, s) && t in s.pcs && s.pcs[t] == Idle
    requires call.Open? ==> (t, call.name) !in s.held
    requires call.Close? ==> (t, call.name) in s.held && Holds(s, t, call.name)
    ensures Good(s0, s') && s' == s.(pcs := s.pcs[t := Entry(call)])
  {
    s' := LeadsBegin(s0, s, t, call);
    StepKeepsInv(s, Begin(t, call), s');
  }

  lemma GoodCreate(s0: State, s: State, t: Thread, n: Name) returns (s': State)
    requires Good(s0, s) && s.mutex == None && t in s.pcs && s.pcs[t] == Idle
    ensures Good(s0, s') && s'.mutex == None && s'.pcs == s.pcs && s'.held == s.held
    ensures
      var holders := GetOrCreate(s.records, n).holders;
      && n in s'.records && s'.records == s.records[n := s'.records[n]]
      && s'.records[n].owner == Some(t) && s'.records[n].holders == holders && holders <= s'.flags
  {
    var s1 := GoodBegin(s0, s, t, Call.Create(n, 0));
    s' := CreateRuns(s1, t, n, 0);
    GoodAlone(s0, s1, t, s');
    assert s'.pcs == s.pcs;
  }

  lemma GoodClose(s0: State, s: State, t: Thread, n: Name) returns (s': State)
    requires Good(s0, s) && s.mutex == None && t in s.pcs && s.pcs[t] == Idle
    requires (t, n) in s.held && Holds(s, t, n)
    ensures Good(s0, s') && s'.mutex == None && s'.pcs == s.pcs && s'.held == s.held - multiset{(t, n)}
    ensures s'.records == s.records[n := s.records[n].(holders := s.records[n].holders - {t})]
  {
    var s1 := GoodBegin(s0, s, t, Close(n));
    s' := CloseRuns(s1, t, n);
    GoodAlone(s0, s1, t, s');
    assert s'.pcs == s.pcs;
  }

  /** An open of a record that has an owner, from its lock to its return. */
  lemma OpenRuns(s: State, t: Thread, n: Name) returns (s': State)
    requires s.mutex == None && t in s.pcs && s.pcs[t].OpenLock? && s.pcs[t].name == n && Owned(s, n)
    ensures Alone(s, t, s') && s'.mutex == None && s'.pcs == s.pcs[t := Idle]
    ensures s'.held == s.held + multiset{(t, n)}
    ensures Owned(s', n) && s'.records[n].owner == s.records[n].owner
    ensures s'.records[n].holders == s.records[n].holders + {t}
  {
    var s1 := OpenJoins(s, t, n);
    s' := OpenReads(s, t, s1, n);
  }

  /** The holder of the mutex runs up to its unlock. */
  lemma {:induction false} FreeMutex(s0: State, s: State, c: Thread) returns (s': State)
    requires Good(s0, s) && s.mutex == Some(c)
    ensures Good(s0, s') && s'.mutex == None && OthersAsBefore(s, s', c)
    decreases if c in s.pcs then UnlockRank(s.records, s.pcs[c]) else 0
  {
    HolderCanStep(s, c);
    var a: Action :| (a.Run? || a.Notify?) && a.thread == c && Next(s, a).Moved?;
    var next := Next(s, a).state;
    AloneStart(s, c);
    AloneStep(s, c, s, a, next);
    GoodAlone(s0, s, c, next);
    if next.mutex == None {
      s' := next;
    } else {
      assert next.mutex == Some(c);
      HolderStep(s, a, next, c);
      s' := FreeMutex(s0, next, c);
    }
  }

  // ----- Draining the other holders

  /** What is kept while the others are drained: `t` is idle, has `n` open and is not among its holders. */
  ghost predicate Draining(s0: State, s: State, t: Thread, n: Name) {
    && Good(s0, s) && s.mutex == None && t in s.pcs && s.pcs[t] == Idle
    && (t, n) in s.held && !Holds(s, t, n)
  }

  function HoldersOf(s: State, n: Name): set<Thread> {
    GetOrCreate(s.records, n).holders
  }

  /** The call that `u` is in can go on to its return: inside open, because the record has an owner. */
  predicate CanReturn(s: State, u: Thread)
    requires u in s.pcs
  {
    InOpen(s.pcs[u]) ==> Owned(s, s.pcs[u].name) && (s.pcs[u].OpenWait? ==> u in s.flags)
  }

  lemma SleeperReturns(s: State, u: Thread, n: Name) returns (s': State)
    requires s.mutex == None && u in s.pcs && s.pcs[u] == OpenWait(n) && u in s.flags && Owned(s, n)
    ensures Alone(s, u, s') && s'.mutex == None && s'.pcs == s.pcs[u := Idle]
  {
    AloneStart(s, u);
    var s1 := RunStep(s, u, s, OpenLock(n, true), TakeFlag);
    s' := OpenRuns(s1, u, n);
    AloneTrans(s, u, s1, s');
  }

  lemma CallReturns(s: State, u: Thread) returns (s': State)
    requires MutualExclusion(s) && Tame(s) && s.mutex == None && u in s.pcs && CanReturn(s, u)
    ensures Alone(s, u, s') && s'.mutex == None && s'.pcs == s.pcs[u := Idle]
  {
    AloneStart(s, u);
    assert !Critical(s.pcs[u]);
    match s.pcs[u]
    case CreateLock(n, d) => s' := CreateRuns(s, u, n, d);
    case DestroyLock(n) => s' := DestroyRuns(s, u, n);
    case OpenLock(_, _) => s' := OpenRuns(s, u, s.pcs[u].name);
    case OpenTest(n) => s' := OpenReads(s, u, s, n);
    case OpenRead(n) => s' := RunStep(s, u, s, Idle, Return(n));
    case OpenWait(n) => s' := SleeperReturns(s, u, n);
    case CloseLock(n) => s' := CloseRuns(s, u, n);
    case _ => s' := s;
  }

  /** Another holder's call returns, after `t` has created the record that it may be waiting for. */
  lemma Settle(s0: State, s: State, t: Thread, n: Name, u: Thread) returns (s': State)
    requires Draining(s0, s, t, n) && Holds(s, u, n)
    ensures Draining(s0, s', t, n) && HoldersOf(s', n) <= HoldersOf(s, n)
    ensures u in s'.pcs && s'.pcs[u] == Idle
  {
    assert HoldersOpen(s) && u in s.pcs;
    var s1 := s;
    if InOpen(s.pcs[u]) {
      s1 := GoodCreate(s0, s, t, s.pcs[u].name);
      assert s.pcs[u].OpenWait? ==> Holds(s, u, s.pcs[u].name);
    }
    s' := CallReturns(s1, u);
    GoodAlone(s0, s1, u, s');
    forall v | v in HoldersOf(s', n) ensures v in HoldersOf(s, n) {
      assert Holds(s', v, n) && (v != u ==> Holds(s1, v, n));
    }
  }

  /** Holder after holder returns from its call and closes; then the record can be destroyed. */
  lemma {:induction false} Drain(s0: State, s: State, t: Thread, n: Name) returns (s': State)
    requires Draining(s0, s, t, n)
    ensures Leads(s0, s') && s'.mutex == None && t in s'.pcs && s'.pcs[t] == Idle
    ensures (t, n) in s'.held && n !in s'.records
    decreases |HoldersOf(s, n)|
  {
    if HoldersOf(s, n) == {} {
      var s1 := GoodCreate(s0, s, t, n);
      var s2 := GoodBegin(s0, s1, t, Call.Destroy(n));
      s' := DestroyRuns(s2, t, n);
      GoodAlone(s0, s2, t, s');
    } else {
      NonEmpty(HoldersOf(s, n));
      var u :| u in HoldersOf(s, n);
      assert Holds(s, u, n);
      var s1 := Settle(s0, s, t, n, u);
      var s2 := s1;
      if Holds(s1, u, n) {
        assert HoldersOpen(s1);
        s2 := GoodClose(s0, s1, u, n);
      }
      assert u !in HoldersOf(s2, n);
      Shrinks(HoldersOf(s2, n), HoldersOf(s, n), u);
      s' := Drain(s0, s2, t, n);
    }
  }

  // ----- The second open

  /** `t` has `n` open and is about to open it again. */
  ghost predicate Reopening(s: State, t: Thread, n: Name) {
    && Inv(s) && Tame(s) && t in s.pcs && s.pcs[t] == OpenLock(n, false)
    && (t, n) in s.held && Holds(s, t, n) && Owned(s, n)
  }

  lemma ReopenStarts(s: State, t: Thread, n: Name, s1: State)
    requires Inv(s) && HeldInv(s) && (t, n) in s.held && Next(s, Begin(t, Open(n))) == Moved(s1)
    ensures Reopening(s1, t, n)
  {
    StepKeepsInv(s, Begin(t, Open(n)), s1);
    forall u | u in s1.pcs ensures !s1.pcs[u].Fault? && (InClose(s1.pcs[u]) ==> Holds(s1, u, s1.pcs[u].name)) {
      assert Orderly(s, u);
    }
  }

  /** Opened twice, closed once: the count is still positive, but the thread is no longer a holder. */
  lemma ReopenedCloses(s0: State, s1: State, t: Thread, n: Name) returns (s: State)
    requires Good(s0, s1) && Reopening(s1, t, n) && s1.mutex == None
    ensures Draining(s0, s, t, n) && s.held == s1.held && s.pcs == s1.pcs[t := Idle]
    ensures n in s.records && s.records[n].owner == s1.records[n].owner
    ensures s.records[n].holders == s1.records[n].holders - {t}
  {
    var s2 := OpenRuns(s1, t, n);
    GoodAlone(s0, s1, t, s2);
    s := GoodClose(s0, s2, t, n);
    assert s.held == s1.held;
  }

  /** A close that matches the first open then dereferences the null record. */
  lemma SecondCloseFaults(s0: State, s: State, t: Thread, n: Name) returns (s': State)
    requires Leads(s0, s) && s.mutex == None && t in s.pcs && s.pcs[t] == Idle
    requires (t, n) in s.held && n !in s.records
    ensures Leads(s0, s') && t in s'.pcs && s'.pcs[t] == Fault
  {
    var s1 := LeadsBegin(s0, s, t, Close(n));
    s' := CloseFaults(s1, t, n);
    LeadsAlone(s0, s1, t, s');
  }

  ghost predicate AlwaysSafe(s: State) {
    forall acts, s' | Disciplined(s, acts) && Exec(s, acts) == Moved(s') :: Safe(s')
  }

  /** No disciplined continuation dereferences a null record. */
  ghost predicate NeverFaults(s: State) {
    forall acts, s', u | Disciplined(s, acts) && Exec(s, acts) == Moved(s') && u in s'.pcs :: !s'.pcs[u].Fault?
  }

  /**
   Wherever a disciplined run has come, beginning an open is harmless exactly when the thread does not
   have that record open: otherwise some continuation in which every close matches an open, and nobody
   else opens a record twice, takes the record away from the thread and then faults.
   */
  lemma ReopeningIsExactlyTheHazard(s: State, t: Thread, n: Name, s1: State)
    requires Inv(s) && HeldInv(s) && Next(s, Begin(t, Open(n))) == Moved(s1)
    ensures AlwaysSafe(s1) <==> (t, n) !in s.held
    ensures NeverFaults(s1) <==> (t, n) !in s.held
  {
    if (t, n) in s.held {
      ReopenStarts(s, t, n, s1);
      LeadsStart(s1);
      var free := s1;
      if s1.mutex.Some? {
        free := FreeMutex(s1, s1, s1.mutex.value);
      }
      var s2 := ReopenedCloses(s1, free, t, n);
      var s3 := Drain(s1, s2, t, n);
      var s4 := SecondCloseFaults(s1, s3, t, n);
      var acts :| Disciplined(s1, acts) && Exec(s1, acts) == Moved(s4);
      assert !Safe(s4);
    } else {
      StepKeepsInv(s, Begin(t, Open(n)), s1);
      StepKeepsHeldInv(s, Begin(t, Open(n)), s1);
      forall acts, s' | Disciplined(s1, acts) && Exec(s1, acts) == Moved(s') ensures Safe(s') {
        DisciplinedRunsAreSafe(s1, acts, s');
      }
    }
  }

  // ----- One such run

  lemma CloseCall(s0: State, s: State, t: Thread, n: Name) returns (s': State)
    requires Leads(s0, s) && s.mutex == None && t in s.pcs && s.pcs[t] == Idle
    requires (t, n) in s.held && n in s.records
    ensures Leads(s0, s') && s'.mutex == None && s'.pcs == s.pcs && s'.held == s.held - multiset{(t, n)}
    ensures s'.records == s.records[n := s.records[n].(holders := s.records[n].holders - {t})]
  {
    var s1 := LeadsBegin(s0, s, t, Close(n));
    s' := CloseRuns(s1, t, n);
    LeadsAlone(s0, s1, t, s');
    assert s'.pcs == s.pcs;
  }

  /** `c` creates the record and `t` opens it. */
  lemma CreatedAndOpened(t: Thread, c: Thread, n: Name) returns (s: State)
    requires t != c
    ensures Leads(Init({t, c}), s) && s.mutex == None && s.pcs == Init({t, c}).pcs
    ensures s.held == multiset{(t, n)} && n in s.records
    ensures s.records[n].owner == Some(c) && s.records[n].holders == {t}
  {
    var s0 := Init({t, c});
    LeadsStart(s0);
    var s1 := CreatorPasses(s0, s0, c, n, 0);
    var s2 := LeadsBegin(s0, s1, t, Open(n));
    s := OpenRuns(s2, t, n);
    LeadsAlone(s0, s2, t, s);
    assert s.pcs == s1.pcs;
  }

  lemma ReopenedOnce(s0: State, s1: State, t: Thread, n: Name) returns (s2: State)
    requires s0.mutex == None && t in s0.pcs && s0.pcs[t] == Idle && Next(s0, Begin(t, Open(n))) == Moved(s1)
    requires (t, n) in s0.held && Owned(s0, n) && s0.records[n].holders == {t}
    ensures Leads(s1, s2) && s2.held == s0.held && s2.mutex == None && s2.pcs == s0.pcs
    ensures n in s2.records && s2.records[n].owner == s0.records[n].owner && s2.records[n].holders == {}
  {
    assert s1 == s0.(pcs := s0.pcs[t := OpenLock(n, false)]);
    var twice := OpenRuns(s1, t, n);
    assert twice.pcs == s0.pcs;
    LeadsStart(s1);
    LeadsAlone(s1, s1, t, twice);
    s2 := CloseCall(s1, twice, t, n);
    assert s2.held == s0.held;
  }

  lemma OwnerTakes(s1: State, s: State, c: Thread, n: Name) returns (s2: State, s3: State)
    requires Leads(s1, s) && s.mutex == None && c in s.pcs && s.pcs[c] == Idle
    requires n in s.records && s.records[n].owner == Some(c) && s.records[n].holders == {}
    ensures Leads(s1, s2) && s2 == s.(pcs := s.pcs[c := DestroyLock(n)])
    ensures Alone(s2, c, s3) && s3.held == s.held && n !in s3.records
    ensures s3.mutex == None && s3.pcs == s.pcs
  {
    s2 := LeadsBegin(s1, s, c, Call.Destroy(n));
    s3 := DestroyRuns(s2, c, n);
    assert s3.pcs == s.pcs;
  }

  /**
   The owner's destroy takes the record from a thread that opened it twice and closed it once, and the second
   close, which the count of opens allows, faults. Every other call in the run is disciplined.
   */
  lemma ReopenedRecordIsTaken(t: Thread, c: Thread, n: Name)
    returns (s0: State, s1: State, s2: State, s3: State, s4: State)
    requires t != c
    ensures Leads(Init({t, c}), s0) && s0.held == multiset{(t, n)} && Next(s0, Begin(t, Open(n))) == Moved(s1)
    ensures Leads(s1, s2) && s2.pcs == s0.pcs[c := DestroyLock(n)] && n in s2.records
    ensures Alone(s2, c, s3) && s3.held == multiset{(t, n)} && n !in s3.records
    ensures Leads(s3, s4) && t in s4.pcs && s4.pcs[t] == Fault
  {
    s0 := CreatedAndOpened(t, c, n);
    s1 := Next(s0, Begin(t, Open(n))).state;
    var closed := ReopenedOnce(s0, s1, t, n);
    s2, s3 := OwnerTakes(s1, closed, c, n);
    LeadsStart(s3);
    s4 := SecondCloseFaults(s3, s3, t, n);
  }

  /** The same from the empty registry: after every disciplined run. */
  lemma AfterDisciplinedRuns(threads: set<Thread>, acts: seq<Action>, s: State, t: Thread, n: Name, s1: State)
    requires Disciplined(Init(threads), acts) && Exec(Init(threads), acts) == Moved(s)
    requires Next(s, Begin(t, Open(n))) == Moved(s1)
    ensures Safe(s)
    ensures AlwaysSafe(s1) <==> (t, n) !in s.held
    ensures NeverFaults(s1) <==> (t, n) !in s.held
  {
    InitKeepsDiscipline(threads);
    DisciplinedRunsAreSafe(Init(threads), acts, s);
    ReopeningIsExactlyTheHazard(s, t, n, s1);
  }
}
