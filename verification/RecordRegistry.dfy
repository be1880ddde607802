/**
 The FURI record registry (core/furi/record.c): a rendezvous by name between the threads
 that create records and the threads that open them.

 The registry is shared by any number of threads, so it is modelled as a machine whose
 steps are the atomic statements of the four operations. What runs under `records_mutex`
 is still cut into several steps, because `open` reads `owner` and `data` and sleeps on
 its flag without holding the mutex. A record is looked up by name.
 */
module RecordRegistry {

  type Thread = int
  type Name = string
  type Data = int

  datatype Option<+T> = None | Some(value: T)

  datatype Record = Record(data: Option<Data>, owner: Option<Thread>, holders: set<Thread>)

  const PLACEHOLDER := Record(None, None, {})

  datatype Call = Create(name: Name, data: Data) | Destroy(name: Name) | Open(name: Name) | Close(name: Name)

  /** Where a thread stands. The statement named is the next one that the thread runs. */
  datatype Pc =
    | Idle
    // create
    | CreateLock(name: Name, data: Data)
    | CreateStore(name: Name, data: Data)
    | CreateOwn(name: Name)
    | CreateNotify(name: Name, todo: set<Thread>)
    // destroy
    | DestroyLock(name: Name)
    | DestroyErase(name: Name)
    | DestroyUnlock(name: Name)
    // open; `again` is false until the thread has joined the holders
    | OpenLock(name: Name, again: bool)
    | OpenJoin(name: Name, again: bool)
    | OpenUnlock(name: Name)
    | OpenTest(name: Name)
    | OpenWait(name: Name)
    | OpenRead(name: Name)
    // close
    | CloseLock(name: Name)
    | CloseLeave(name: Name)
    | CloseUnlock(name: Name)
    // a null record was dereferenced
    | Fault

  datatype Returned = Returned(thread: Thread, name: Name, data: Option<Data>)

  /**
   `held`, `stored` and `returned` are history: for each thread and name the opens less the closes,
   every datum some create stored under a name, and what the opens have returned.
   */
  datatype State = State(
    records: map<Name, Record>,
    mutex: Option<Thread>,
    flags: set<Thread>,
    pcs: map<Thread, Pc>,
    held: multiset<(Thread, Name)>,
    stored: set<(Name, Data)>,
    returned: seq<Returned>)

  datatype Outcome = Blocked | Moved(state: State)

  /**
   `Raise` and `Drain` are the other users of the same thread-flag bit: anyone may raise a
   thread's flag at any time, and a thread outside the registry may consume its own flag.
   */
  datatype Action =
    | Begin(thread: Thread, call: Call)
    | Run(thread: Thread)
    | Notify(thread: Thread, target: Thread)
    | Raise(thread: Thread)
    | Drain(thread: Thread)

  function Init(threads: set<Thread>): State {
    State(map[], None, {}, map t | t in threads :: Idle, multiset{}, {}, [])
  }

  function GetOrCreate(records: map<Name, Record>, n: Name): Record {
    if n in records then records[n] else PLACEHOLDER
  }

  function Entry(call: Call): Pc {
    match call
    case Create(n, d) => CreateLock(n, d)
    case Destroy(n) => DestroyLock(n)
    case Open(n) => OpenLock(n, false)
    case Close(n) => CloseLock(n)
  }

  predicate Erases(s: State, t: Thread, n: Name) {
    n in s.records && s.records[n].owner == Some(t) && s.records[n].holders == {}
  }

  /** What one statement writes, besides the program counter. */
  datatype Write =
    | Nothing
    | Acquire
    | Release
    | Store(name: Name, data: Data)
    | Own(name: Name)
    | Erase(name: Name)
    | Join(name: Name)
    | Leave(name: Name)
    | TakeFlag
    | Return(name: Name)

  datatype Turn = Wait | Go(next: Pc, write: Write)

  /** The next statement of the call that `t` is in: where it leads and what it writes. */
  function Statement(s: State, t: Thread): Turn
    requires t in s.pcs
  {
    match s.pcs[t]
    case Idle => Wait
    case Fault => Wait
    case CreateLock(n, d) => if s.mutex.None? then Go(CreateStore(n, d), Acquire) else Wait
    case CreateStore(n, d) => Go(CreateOwn(n), Store(n, d))
    case CreateOwn(n) =>
      if n in s.records then Go(CreateNotify(n, s.records[n].holders), Own(n)) else Go(Fault, Nothing)
    case CreateNotify(n, todo) => if todo == {} then Go(Idle, Release) else Wait
    case DestroyLock(n) => if s.mutex.None? then Go(DestroyErase(n), Acquire) else Wait
    case DestroyErase(n) => Go(DestroyUnlock(n), if Erases(s, t, n) then Erase(n) else Nothing)
    case DestroyUnlock(n) => Go(Idle, Release)
    case OpenLock(n, again) => if s.mutex.None? then Go(OpenJoin(n, again), Acquire) else Wait
    case OpenJoin(n, _) => Go(OpenUnlock(n), Join(n))
    case OpenUnlock(n) => Go(OpenTest(n), Release)
    case OpenTest(n) =>
      if n !in s.records then Go(Fault, Nothing)
      else if s.records[n].owner.Some? then Go(OpenRead(n), Nothing)
      else Go(OpenWait(n), Nothing)
    case OpenWait(n) => if t in s.flags then Go(OpenLock(n, true), TakeFlag) else Wait
    case OpenRead(n) => if n in s.records then Go(Idle, Return(n)) else Go(Fault, Nothing)
    case CloseLock(n) => if s.mutex.None? then Go(CloseLeave(n), Acquire) else Wait
    case CloseLeave(n) => if n in s.records then Go(CloseUnlock(n), Leave(n)) else Go(Fault, Nothing)
    case CloseUnlock(n) => Go(Idle, Release)
  }

  function RecordsAfter(records: map<Name, Record>, t: Thread, w: Write): map<Name, Record> {
    match w
    case Store(n, d) => records[n := GetOrCreate(records, n).(data := Some(d))]
    case Own(n) => records[n := GetOrCreate(records, n).(owner := Some(t))]
    case Erase(n) => records - {n}
    case Join(n) => var r := GetOrCreate(records, n); records[n := r.(holders := r.holders + {t})]
    case Leave(n) => var r := GetOrCreate(records, n); records[n := r.(holders := r.holders - {t})]
    case _ => records
  }

  function HeldAfter(held: multiset<(Thread, Name)>, t: Thread, w: Write): multiset<(Thread, Name)> {
    match w
    case Return(n) => held + multiset{(t, n)}
    case Leave(n) => held - multiset{(t, n)}
    case _ => held
  }

  function Commit(s: State, t: Thread, next: Pc, w: Write): State {
    State(
      RecordsAfter(s.records, t, w),
      if w.Acquire? then Some(t) else if w.Release? then None else s.mutex,
      if w.TakeFlag? then s.flags - {t} else s.flags,
      s.pcs[t := next],
      HeldAfter(s.held, t, w),
      if w.Store? then s.stored + {(w.name, w.data)} else s.stored,
      if w.Return? then s.returned + [Returned(t, w.name, GetOrCreate(s.records, w.name).data)] else s.returned)
  }

  /** One step of the whole system; Blocked when the action is not enabled. */
  function Next(s: State, a: Action): Outcome {
    if a.thread !in s.pcs then Blocked else
    var pc := s.pcs[a.thread];
    match a
    case Begin(t, call) => if pc.Idle? then Moved(s.(pcs := s.pcs[t := Entry(call)])) else Blocked
    case Run(t) =>
      var turn := Statement(s, t);
      if turn.Wait? then Blocked else Moved(Commit(s, t, turn.next, turn.write))
    case Notify(t, target) =>
      if pc.CreateNotify? && target in pc.todo
      then Moved(s.(pcs := s.pcs[t := CreateNotify(pc.name, pc.todo - {target})], flags := s.flags + {target}))
      else Blocked
    case Raise(t) => Moved(s.(flags := s.flags + {t}))
    case Drain(t) => if pc.Idle? then Moved(s.(flags := s.flags - {t})) else Blocked
  }

  /** A run: the actions taken one after the other; Blocked when one of them was not enabled. */
  function Exec(s: State, acts: seq<Action>): Outcome
    decreases |acts|
  {
    if acts == [] then Moved(s) else
    var next := Next(s, acts[0]);
    if next.Blocked? then Blocked else Exec(next.state, acts[1..])
  }

  // ----- The inductive invariant

  predicate Critical(pc: Pc) {
    pc.CreateStore? || pc.CreateOwn? || pc.CreateNotify? || pc.DestroyErase? || pc.DestroyUnlock? ||
    pc.OpenJoin? || pc.OpenUnlock? || pc.CloseLeave? || pc.CloseUnlock? || pc.Fault?
  }

  /** The thread is inside `open(n)` and has joined the holders of `n`. */
  predicate Inside(pc: Pc, n: Name) {
    pc == OpenLock(n, true) || pc == OpenJoin(n, true) || pc == OpenUnlock(n) || pc == OpenTest(n) ||
    pc == OpenWait(n) || pc == OpenRead(n)
  }

  predicate OwnedIn(records: map<Name, Record>, n: Name) {
    n in records && records[n].owner.Some?
  }

  predicate HoldsIn(records: map<Name, Record>, t: Thread, n: Name) {
    n in records && t in records[n].holders
  }

  predicate Owned(s: State, n: Name) {
    OwnedIn(s.records, n)
  }

  predicate Holds(s: State, t: Thread, n: Name) {
    HoldsIn(s.records, t, n)
  }

  /** A create of `n` is in its holder loop and has not reached `t` yet. */
  predicate NotificationPending(s: State, t: Thread, n: Name) {
    && s.mutex.Some? && s.mutex.value in s.pcs
    && var pc := s.pcs[s.mutex.value];
       pc.CreateNotify? && pc.name == n && t in pc.todo
  }

  ghost predicate MutualExclusion(s: State) {
    && (forall t | t in s.pcs :: Critical(s.pcs[t]) <==> s.mutex == Some(t))
    && (s.mutex.Some? ==> s.mutex.value in s.pcs)
  }

  ghost predicate InsideHolds(s: State) {
    forall t, n | t in s.pcs && Inside(s.pcs[t], n) :: Holds(s, t, n)
  }

  /** Every holder is inside open or has the record open. */
  ghost predicate HoldersOpen(s: State) {
    forall t, n | Holds(s, t, n) :: t in s.pcs && (Inside(s.pcs[t], n) || (t, n) in s.held)
  }

  ghost predicate ReadsOwned(s: State) {
    forall t | t in s.pcs && s.pcs[t].OpenRead? :: Owned(s, s.pcs[t].name)
  }

  ghost predicate NoLostWakeup(s: State) {
    forall t | t in s.pcs && s.pcs[t].OpenWait? && Owned(s, s.pcs[t].name) ::
      t in s.flags || NotificationPending(s, t, s.pcs[t].name)
  }

  ghost predicate RecordsStored(records: map<Name, Record>, stored: set<(Name, Data)>) {
    forall n | n in records ::
      && (records[n].data.Some? ==> (n, records[n].data.value) in stored)
      && (records[n].owner.Some? ==> records[n].data.Some?)
  }

  ghost predicate DataStored(s: State) {
    RecordsStored(s.records, s.stored)
  }

  predicate CreatorReady(s: State, t: Thread)
    requires t in s.pcs
  {
    && (s.pcs[t].CreateOwn? ==> s.pcs[t].name in s.records && s.records[s.pcs[t].name].data.Some?)
    && (s.pcs[t].CreateNotify? ==> Owned(s, s.pcs[t].name))
  }

  ghost predicate CreatorsReady(s: State) {
    forall t | t in s.pcs :: CreatorReady(s, t)
  }

  ghost predicate ReturnedStored(s: State) {
    forall r | r in s.returned :: r.data.Some? && (r.name, r.data.value) in s.stored
  }

  ghost predicate Inv(s: State) {
    && MutualExclusion(s) && InsideHolds(s) && HoldersOpen(s) && ReadsOwned(s)
    && NoLostWakeup(s) && DataStored(s) && CreatorsReady(s) && ReturnedStored(s)
  }

  // ----- What one step can do

  lemma OthersKeepPc(s: State, a: Action, s': State, u: Thread)
    requires Next(s, a) == Moved(s') && u in s.pcs && a.thread != u
    ensures u in s'.pcs && s'.pcs[u] == s.pcs[u]
  {
  }

  lemma OthersKeepHeld(s: State, a: Action, s': State, t: Thread)
    requires Next(s, a) == Moved(s') && a.thread != t
    ensures forall n :: s'.held[(t, n)] == s.held[(t, n)]
  {
  }

  /** Which statement makes a write, and what it has made sure of. */
  lemma StatementOfWrite(s: State, t: Thread)
    requires t in s.pcs && Statement(s, t).Go?
    ensures
      match Statement(s, t).write
      case Store(n, d) => s.pcs[t] == CreateStore(n, d)
      case Own(n) => s.pcs[t] == CreateOwn(n) && n in s.records
      case Erase(n) => s.pcs[t] == DestroyErase(n) && Erases(s, t, n)
      case Join(n) => s.pcs[t].OpenJoin? && s.pcs[t].name == n
      case Leave(n) => s.pcs[t] == CloseLeave(n) && n in s.records
      case Return(n) => s.pcs[t] == OpenRead(n) && n in s.records
      case _ => true
  {
  }

  lemma WriteKeepsHolds(records: map<Name, Record>, t: Thread, w: Write, u: Thread, n: Name)
    requires HoldsIn(records, u, n) && w != Erase(n)
    ensures HoldsIn(RecordsAfter(records, t, w), u, n) || (w == Leave(n) && t == u)
    ensures OwnedIn(records, n) ==> OwnedIn(RecordsAfter(records, t, w), n)
  {
  }

  lemma WriteMakesHolder(records: map<Name, Record>, t: Thread, w: Write, u: Thread, n: Name)
    requires !HoldsIn(records, u, n) && HoldsIn(RecordsAfter(records, t, w), u, n)
    ensures w == Join(n) && t == u
  {
  }

  lemma WriteMakesOwner(records: map<Name, Record>, t: Thread, w: Write, n: Name)
    requires !OwnedIn(records, n) && OwnedIn(RecordsAfter(records, t, w), n)
    ensures w == Own(n)
  {
  }

  lemma HoldsKept(s: State, a: Action, s': State, u: Thread, n: Name)
    requires Next(s, a) == Moved(s') && Holds(s, u, n)
    requires a == Run(u) ==> s.pcs[u] != CloseLeave(n)
    ensures Holds(s', u, n)
  {
    if a.Run? {
      StatementOfWrite(s, a.thread);
      WriteKeepsHolds(s.records, a.thread, Statement(s, a.thread).write, u, n);
    }
  }

  lemma HoldsBorn(s: State, a: Action, s': State, u: Thread, n: Name)
    requires Next(s, a) == Moved(s') && !Holds(s, u, n) && Holds(s', u, n)
    ensures a == Run(u) && s.pcs[u].OpenJoin? && s.pcs[u].name == n
  {
    if a.Run? {
      StatementOfWrite(s, a.thread);
      WriteMakesHolder(s.records, a.thread, Statement(s, a.thread).write, u, n);
    }
  }

  lemma OwnedKept(s: State, a: Action, s': State, u: Thread, n: Name)
    requires Next(s, a) == Moved(s') && Holds(s, u, n) && Owned(s, n)
    ensures Owned(s', n)
  {
    if a.Run? {
      StatementOfWrite(s, a.thread);
      WriteKeepsHolds(s.records, a.thread, Statement(s, a.thread).write, u, n);
    }
  }

  lemma OwnedBorn(s: State, a: Action, s': State, n: Name)
    requires Next(s, a) == Moved(s') && !Owned(s, n) && Owned(s', n)
    ensures a.Run? && s.pcs[a.thread] == CreateOwn(n)
  {
    if a.Run? {
      StatementOfWrite(s, a.thread);
      WriteMakesOwner(s.records, a.thread, Statement(s, a.thread).write, n);
    }
  }

  /** A thread is inside `open(n)` because it was, or because it has just joined the holders. */
  lemma InsideFrom(s: State, t: Thread, n: Name)
    requires t in s.pcs && Statement(s, t).Go? && Inside(Statement(s, t).next, n)
    ensures Inside(s.pcs[t], n) || s.pcs[t] == OpenJoin(n, false)
  {
  }

  // ----- Every step keeps the invariant

  lemma StepKeepsInv(s: State, a: Action, s': State)
    requires Inv(s) && Next(s, a) == Moved(s')
    ensures Inv(s')
  {
    forall u | u in s'.pcs ensures Critical(s'.pcs[u]) <==> s'.mutex == Some(u) {
      KeepsMutualExclusion(s, a, s', u);
    }
    forall u, n | u in s'.pcs && Inside(s'.pcs[u], n) ensures Holds(s', u, n) {
      KeepsInside(s, a, s', u, n);
    }
    forall u, n | Holds(s', u, n) ensures u in s'.pcs && (Inside(s'.pcs[u], n) || (u, n) in s'.held) {
      KeepsHoldersOpen(s, a, s', u, n);
    }
    forall u | u in s'.pcs && s'.pcs[u].OpenRead? ensures Owned(s', s'.pcs[u].name) {
      KeepsReads(s, a, s', u, s'.pcs[u].name);
    }
    forall u | u in s'.pcs && s'.pcs[u].OpenWait? && Owned(s', s'.pcs[u].name)
      ensures u in s'.flags || NotificationPending(s', u, s'.pcs[u].name)
    {
      KeepsWakeup(s, a, s', u, s'.pcs[u].name);
    }
    forall u | u in s'.pcs ensures CreatorReady(s', u) {
      KeepsCreator(s, a, s', u);
    }
    KeepsData(s, a, s');
    KeepsReturned(s, a, s');
  }

  lemma OwnMutex(s: State, t: Thread)
    requires t in s.pcs && Statement(s, t).Go? && (Critical(s.pcs[t]) <==> s.mutex == Some(t))
    requires Inside(s.pcs[t], s.pcs[t].name) ==> s.pcs[t].name in s.records
    ensures
      var turn := Statement(s, t);
      Critical(turn.next) <==>
        (if turn.write.Acquire? then Some(t) else if turn.write.Release? then None else s.mutex) == Some(t)
  {
  }

  lemma OthersMutex(s: State, a: Action, s': State, u: Thread)
    requires MutualExclusion(s) && Next(s, a) == Moved(s') && a.thread != u
    ensures s'.mutex == Some(u) <==> s.mutex == Some(u)
  {
    assert a.thread in s.pcs;
    if a.Run? && Statement(s, a.thread).write.Release? {
      assert Critical(s.pcs[a.thread]);
    }
  }

  lemma KeepsMutualExclusion(s: State, a: Action, s': State, u: Thread)
    requires MutualExclusion(s) && InsideHolds(s) && Next(s, a) == Moved(s') && u in s.pcs
    ensures Critical(s'.pcs[u]) <==> s'.mutex == Some(u)
  {
    if a.thread != u {
      OthersMutex(s, a, s', u);
      OthersKeepPc(s, a, s', u);
    } else if a.Run? {
      assert Inside(s.pcs[u], s.pcs[u].name) ==> Holds(s, u, s.pcs[u].name);
      OwnMutex(s, u);
    }
  }

  lemma KeepsInside(s: State, a: Action, s': State, u: Thread, n: Name)
    requires InsideHolds(s) && Next(s, a) == Moved(s') && u in s.pcs && Inside(s'.pcs[u], n)
    ensures Holds(s', u, n)
  {
    if a.thread != u {
      OthersKeepPc(s, a, s', u);
    } else if a.Run? {
      InsideFrom(s, u, n);
    }
    if Inside(s.pcs[u], n) {
      HoldsKept(s, a, s', u, n);
    }
  }

  lemma StaysInside(s: State, t: Thread, n: Name)
    requires t in s.pcs && Statement(s, t).Go? && Inside(s.pcs[t], n) && n in s.records
    ensures Inside(Statement(s, t).next, n) || Statement(s, t).write == Return(n)
  {
  }

  lemma OwnHoldersOpen(s: State, u: Thread, n: Name)
    requires u in s.pcs && Statement(s, u).Go? && Holds(s, u, n) && (Inside(s.pcs[u], n) || (u, n) in s.held)
    ensures
      var turn := Statement(s, u);
      HoldsIn(RecordsAfter(s.records, u, turn.write), u, n) ==>
        Inside(turn.next, n) || (u, n) in HeldAfter(s.held, u, turn.write)
  {
    if Inside(s.pcs[u], n) {
      StaysInside(s, u, n);
    }
  }

  lemma KeepsHoldersOpen(s: State, a: Action, s': State, u: Thread, n: Name)
    requires HoldersOpen(s) && Next(s, a) == Moved(s') && Holds(s', u, n)
    ensures u in s'.pcs && (Inside(s'.pcs[u], n) || (u, n) in s'.held)
  {
    if !Holds(s, u, n) {
      HoldsBorn(s, a, s', u, n);
    } else if a.thread != u {
      OthersKeepPc(s, a, s', u);
      OthersKeepHeld(s, a, s', u);
    } else if a.Run? {
      OwnHoldersOpen(s, u, n);
    }
  }

  lemma TestedOwned(s: State, u: Thread, n: Name)
    requires u in s.pcs && Statement(s, u).Go? && Statement(s, u).next == OpenRead(n)
    ensures s.pcs[u] == OpenTest(n) && Owned(s, n)
  {
  }

  lemma KeepsReads(s: State, a: Action, s': State, u: Thread, n: Name)
    requires InsideHolds(s) && ReadsOwned(s) && Next(s, a) == Moved(s') && u in s.pcs && s'.pcs[u] == OpenRead(n)
    ensures Owned(s', n)
  {
    if a == Run(u) {
      TestedOwned(s, u, n);
    }
    assert Inside(s.pcs[u], n);
    OwnedKept(s, a, s', u, n);
  }

  /** The wakeup stays on its way: through the test, the create and every other step. */
  lemma KeepsWakeup(s: State, a: Action, s': State, u: Thread, n: Name)
    requires MutualExclusion(s) && InsideHolds(s) && NoLostWakeup(s)
    requires Next(s, a) == Moved(s') && u in s.pcs && s'.pcs[u] == OpenWait(n) && Owned(s', n)
    ensures u in s'.flags || NotificationPending(s', u, n)
  {
    if a == Run(u) {
      TestedUnowned(s, u, n);
      OwnedBorn(s, a, s', n);
    } else {
      assert s.pcs[u] == OpenWait(n);
      if !Owned(s, n) {
        OwnedBorn(s, a, s', n);
        CreateNotifies(s, a.thread, s', u, n);
      } else if u !in s.flags {
        KeepsPending(s, a, s', u, n);
      }
    }
  }

  lemma TestedUnowned(s: State, u: Thread, n: Name)
    requires u in s.pcs && Statement(s, u).Go? && Statement(s, u).next == OpenWait(n)
    ensures s.pcs[u] == OpenTest(n) && !Owned(s, n)
  {
  }

  /** The step that gives the record its owner takes up every holder for notification. */
  lemma CreateNotifies(s: State, c: Thread, s': State, u: Thread, n: Name)
    requires MutualExclusion(s) && InsideHolds(s) && c in s.pcs && u in s.pcs
    requires s.pcs[u] == OpenWait(n) && s.pcs[c] == CreateOwn(n) && Next(s, Run(c)) == Moved(s')
    ensures NotificationPending(s', u, n)
  {
    assert Inside(s.pcs[u], n);
  }

  lemma KeepsPending(s: State, a: Action, s': State, u: Thread, n: Name)
    requires MutualExclusion(s) && Next(s, a) == Moved(s') && NotificationPending(s, u, n)
    ensures u in s'.flags || NotificationPending(s', u, n)
  {
    var c := s.mutex.value;
    if a.thread != c {
      assert !Critical(s.pcs[a.thread]);
    }
  }

  lemma WriteKeepsData(records: map<Name, Record>, stored: set<(Name, Data)>, t: Thread, w: Write)
    requires RecordsStored(records, stored)
    requires w.Own? ==> w.name in records && records[w.name].data.Some?
    ensures RecordsStored(RecordsAfter(records, t, w), if w.Store? then stored + {(w.name, w.data)} else stored)
  {
  }

  lemma KeepsData(s: State, a: Action, s': State)
    requires DataStored(s) && CreatorsReady(s) && Next(s, a) == Moved(s')
    ensures DataStored(s')
  {
    if a.Run? {
      assert CreatorReady(s, a.thread);
      StatementOfWrite(s, a.thread);
      WriteKeepsData(s.records, s.stored, a.thread, Statement(s, a.thread).write);
    }
  }

  /** While one thread is in a critical section the steps of the others leave the records alone. */
  lemma RecordsKept(s: State, a: Action, s': State, u: Thread)
    requires MutualExclusion(s) && Next(s, a) == Moved(s') && u in s.pcs && Critical(s.pcs[u]) && a.thread != u
    ensures s'.records == s.records && s'.pcs[u] == s.pcs[u] && s'.mutex == s.mutex
  {
    assert !Critical(s.pcs[a.thread]);
  }

  lemma OwnCreator(s: State, t: Thread)
    requires t in s.pcs && CreatorReady(s, t) && Statement(s, t).Go?
    ensures CreatorReady(Commit(s, t, Statement(s, t).next, Statement(s, t).write), t)
  {
    var next := Statement(s, t).next;
    if next.CreateOwn? {
      assert s.pcs[t] == CreateStore(next.name, s.pcs[t].data);
    } else if next.CreateNotify? {
      assert s.pcs[t] == CreateOwn(next.name);
    }
  }

  lemma KeepsCreator(s: State, a: Action, s': State, u: Thread)
    requires MutualExclusion(s) && CreatorsReady(s) && Next(s, a) == Moved(s') && u in s.pcs
    ensures CreatorReady(s', u)
  {
    assert CreatorReady(s, u);
    if a.thread != u {
      OthersKeepPc(s, a, s', u);
      if Critical(s.pcs[u]) {
        RecordsKept(s, a, s', u);
      }
    } else if a.Run? {
      OwnCreator(s, u);
    }
  }

  lemma KeepsReturned(s: State, a: Action, s': State)
    requires ReadsOwned(s) && DataStored(s) && ReturnedStored(s) && Next(s, a) == Moved(s')
    ensures ReturnedStored(s')
  {
    if a.Run? && s.pcs[a.thread].OpenRead? {
      var n := s.pcs[a.thread].name;
      assert Owned(s, n);
    }
  }

  // ----- Theorems over every run

  /** The invariant holds in every state that any interleaving of any set of threads reaches. */
  lemma {:induction false} RunKeepsInv(s: State, acts: seq<Action>, s': State)
    requires Inv(s) && Exec(s, acts) == Moved(s')
    ensures Inv(s')
    decreases |acts|
  {
    if acts != [] {
      var next := Next(s, acts[0]).state;
      StepKeepsInv(s, acts[0], next);
      RunKeepsInv(next, acts[1..], s');
    }
  }

  lemma ReachableInv(threads: set<Thread>, acts: seq<Action>, s: State)
    requires Exec(Init(threads), acts) == Moved(s)
    ensures Inv(s)
  {
    RunKeepsInv(Init(threads), acts, s);
  }

  /**
   No lost wakeup: a thread asleep in `open(n)` while `n` has an owner has its flag raised, unless
   a create of `n` is still in its holder loop with that thread ahead of it. Once no create is in
   its loop, the sleeper can wake.
   */
  lemma SleeperIsWoken(threads: set<Thread>, acts: seq<Action>, s: State, t: Thread, n: Name)
    requires Exec(Init(threads), acts) == Moved(s)
    requires t in s.pcs && s.pcs[t] == OpenWait(n) && Owned(s, n)
    ensures t in s.flags || NotificationPending(s, t, n)
    ensures (forall c | c in s.pcs :: !s.pcs[c].CreateNotify?) ==> Next(s, Run(t)).Moved?
  {
    ReachableInv(threads, acts, s);
    if t !in s.flags {
      var c := s.mutex.value;
      assert c in s.pcs && s.pcs[c].CreateNotify?;
    }
  }

  /** Every open returned a datum that some create stored under that name. */
  lemma OpenReturnsStoredData(threads: set<Thread>, acts: seq<Action>, s: State, r: Returned)
    requires Exec(Init(threads), acts) == Moved(s) && r in s.returned
    ensures r.data.Some? && (r.name, r.data.value) in s.stored
  {
    ReachableInv(threads, acts, s);
  }

  /**
   A record that a step takes away had an owner, which is the thread that took the step, and no thread
   was inside `open` on it.
   */
  lemma DestroySparesOpeners(threads: set<Thread>, acts: seq<Action>, s: State, a: Action, s': State, n: Name)
    requires Exec(Init(threads), acts) == Moved(s) && Next(s, a) == Moved(s')
    requires n in s.records && n !in s'.records
    ensures a.Run? && s.pcs[a.thread] == DestroyErase(n) && s.records[n].owner == Some(a.thread)
    ensures forall t | t in s.pcs :: !Inside(s.pcs[t], n)
  {
    ReachableInv(threads, acts, s);
    assert Erases(s, a.thread, n);
    forall t | t in s.pcs ensures !Inside(s.pcs[t], n) {
      assert Inside(s.pcs[t], n) ==> Holds(s, t, n);
    }
  }

  // ----- An opener whose record has an owner returns

  /** How many more of its own steps a thread inside `open` takes when the owner is there. */
  function OpenRank(pc: Pc): nat {
    match pc
    case OpenWait(_) => 6
    case OpenLock(_, _) => 5
    case OpenJoin(_, _) => 4
    case OpenUnlock(_) => 3
    case OpenTest(_) => 2
    case OpenRead(_) => 1
    case _ => 0
  }

  /** The steps that `t` takes of its calls. */
  function OwnSteps(acts: seq<Action>, t: Thread): nat {
    if acts == [] then 0
    else (if (acts[0].Run? || acts[0].Notify?) && acts[0].thread == t then 1 else 0) + OwnSteps(acts[1..], t)
  }

  ghost predicate Opening(s: State, t: Thread, n: Name) {
    t in s.pcs && (s.pcs[t].Idle? || (Inside(s.pcs[t], n) && Owned(s, n)))
  }

  /** With the owner there, the opener's own step follows the one path to the return. */
  lemma OpenerStep(s: State, t: Thread, n: Name)
    requires t in s.pcs && Statement(s, t).Go? && Inside(s.pcs[t], n) && Owned(s, n)
    ensures Statement(s, t).next.Idle? || Inside(Statement(s, t).next, n)
    ensures OpenRank(Statement(s, t).next) + 1 == OpenRank(s.pcs[t])
  {
  }

  lemma OpeningStep(s: State, a: Action, s': State, t: Thread, n: Name)
    requires InsideHolds(s) && Next(s, a) == Moved(s') && Opening(s, t, n)
    requires !(a.Begin? && a.thread == t)
    ensures Opening(s', t, n)
    ensures OpenRank(s'.pcs[t]) + OwnSteps([a], t) == OpenRank(s.pcs[t])
  {
    assert OwnSteps([a], t) == if (a.Run? || a.Notify?) && a.thread == t then 1 else 0;
    if Inside(s.pcs[t], n) {
      OwnedKept(s, a, s', t, n);
      if a.Run? && a.thread == t {
        OpenerStep(s, t, n);
      }
    }
    if a.thread != t {
      OthersKeepPc(s, a, s', t);
    }
  }

  /**
   From the moment the record has an owner, each step of the opener brings it one step closer to
   returning, whatever the others do: after `OpenRank` own steps it has returned, and it cannot
   have gone back to sleep.
   */
  lemma {:induction false} OpenerReturns(s: State, acts: seq<Action>, s': State, t: Thread, n: Name)
    requires Inv(s) && Exec(s, acts) == Moved(s') && Opening(s, t, n)
    requires forall a | a in acts :: !(a.Begin? && a.thread == t)
    ensures Opening(s', t, n)
    ensures OwnSteps(acts, t) + OpenRank(s'.pcs[t]) == OpenRank(s.pcs[t])
    ensures s'.pcs[t].Idle? <==> OwnSteps(acts, t) == OpenRank(s.pcs[t])
    decreases |acts|
  {
    if acts != [] {
      var next := Next(s, acts[0]).state;
      StepKeepsInv(s, acts[0], next);
      OpeningStep(s, acts[0], next, t, n);
      OpenerReturns(next, acts[1..], s', t, n);
    }
  }

  // ----- The mutex is released

  /** How many more of its own steps the holder of the mutex takes up to its unlock. */
  function UnlockRank(records: map<Name, Record>, pc: Pc): nat {
    match pc
    case CreateStore(n, _) => |GetOrCreate(records, n).holders| + 3
    case CreateOwn(n) => |GetOrCreate(records, n).holders| + 2
    case CreateNotify(_, todo) => |todo| + 1
    case DestroyErase(_) => 2
    case DestroyUnlock(_) => 1
    case OpenJoin(_, _) => 2
    case OpenUnlock(_) => 1
    case CloseLeave(_) => 2
    case CloseUnlock(_) => 1
    case _ => 0
  }

  lemma StoreKeepsHolders(records: map<Name, Record>, t: Thread, n: Name, d: Data)
    ensures GetOrCreate(RecordsAfter(records, t, Store(n, d)), n).holders == GetOrCreate(records, n).holders
  {
  }

  lemma HolderOwnStep(s: State, c: Thread)
    requires c in s.pcs && Critical(s.pcs[c]) && Statement(s, c).Go?
    requires !Statement(s, c).write.Release? && !Statement(s, c).next.Fault?
    ensures
      var turn := Statement(s, c);
      UnlockRank(RecordsAfter(s.records, c, turn.write), turn.next) + 1 == UnlockRank(s.records, s.pcs[c])
  {
    match s.pcs[c]
    case CreateStore(n, d) => StoreKeepsHolders(s.records, c, n, d);
    case _ =>
  }

  lemma HolderStep(s: State, a: Action, s': State, c: Thread)
    requires MutualExclusion(s) && Next(s, a) == Moved(s') && s.mutex == Some(c) == s'.mutex && c in s.pcs
    requires !s'.pcs[c].Fault?
    ensures UnlockRank(s'.records, s'.pcs[c]) + OwnSteps([a], c) == UnlockRank(s.records, s.pcs[c])
  {
    assert OwnSteps([a], c) == if (a.Run? || a.Notify?) && a.thread == c then 1 else 0;
    assert Critical(s.pcs[c]);
    if a.thread != c {
      RecordsKept(s, a, s', c);
    } else if a.Run? {
      HolderOwnStep(s, c);
    }
  }

  /** The thread holds the mutex, unfaulted, in every state of the run. */
  ghost predicate KeepsMutex(s: State, acts: seq<Action>, c: Thread)
    decreases |acts|
  {
    && s.mutex == Some(c) && c in s.pcs && !s.pcs[c].Fault?
    && (acts != [] && Next(s, acts[0]).Moved? ==> KeepsMutex(Next(s, acts[0]).state, acts[1..], c))
  }

  /**
   The mutex is held for a bounded number of the holder's own steps: at most three more than there are
   holders to notify. A thread that has taken `UnlockRank` of them has unlocked on the way.
   */
  lemma {:induction false} HolderReleases(s: State, acts: seq<Action>, s': State, c: Thread)
    requires Inv(s) && Exec(s, acts) == Moved(s') && KeepsMutex(s, acts, c)
    ensures c in s'.pcs
    ensures OwnSteps(acts, c) + UnlockRank(s'.records, s'.pcs[c]) == UnlockRank(s.records, s.pcs[c])
    ensures OwnSteps(acts, c) < UnlockRank(s.records, s.pcs[c])
    decreases |acts|
  {
    assert Critical(s.pcs[c]);
    if acts != [] {
      var next := Next(s, acts[0]).state;
      StepKeepsInv(s, acts[0], next);
      HolderStep(s, acts[0], next, c);
      HolderReleases(next, acts[1..], s', c);
    }
  }

  /** The mutex holder is never blocked: it can always take a step, unless it faulted. */
  lemma HolderCanStep(s: State, c: Thread)
    requires MutualExclusion(s) && c in s.pcs && s.mutex == Some(c) && !s.pcs[c].Fault?
    ensures exists a: Action :: (a.Run? || a.Notify?) && a.thread == c && Next(s, a).Moved?
  {
    var pc := s.pcs[c];
    if pc.CreateNotify? && exists target :: target in pc.todo {
      var target :| target in pc.todo;
      assert Next(s, Notify(c, target)).Moved?;
    } else {
      assert pc.CreateNotify? ==> pc.todo == {};
      assert Next(s, Run(c)).Moved?;
    }
  }

  /** No deadlock: an opener of an owned record can step, or the thread it waits for can. */
  lemma OpenerNeverDeadlocks(s: State, t: Thread, n: Name)
    requires Inv(s) && t in s.pcs && Inside(s.pcs[t], n) && Owned(s, n)
    requires forall c | c in s.pcs :: !s.pcs[c].Fault?
    ensures Next(s, Run(t)).Moved? ||
            (s.mutex.Some? && exists a: Action :: a.thread == s.mutex.value && Next(s, a).Moved?)
  {
    if s.mutex.Some? {
      HolderCanStep(s, s.mutex.value);
    }
  }

  // ----- Callers that open a record once and close what they have open

  /** A close is begun only for a record that the thread has open. */
  predicate Matched(s: State, a: Action) {
    a.Begin? && a.call.Close? ==> (a.thread, a.call.name) in s.held
  }

  /** An open is begun only for a record that the thread does not have open already. */
  predicate Single(s: State, a: Action) {
    a.Begin? && a.call.Open? ==> (a.thread, a.call.name) !in s.held
  }

  ghost predicate Disciplined(s: State, acts: seq<Action>)
    decreases |acts|
  {
    acts == [] ||
    (&& Matched(s, acts[0]) && Single(s, acts[0])
     && (Next(s, acts[0]).Moved? ==> Disciplined(Next(s, acts[0]).state, acts[1..])))
  }

  predicate InOpen(pc: Pc) {
    pc.OpenLock? || pc.OpenJoin? || pc.OpenUnlock? || pc.OpenTest? || pc.OpenWait? || pc.OpenRead?
  }

  predicate InClose(pc: Pc) {
    pc.CloseLock? || pc.CloseLeave?
  }

  predicate Orderly(s: State, t: Thread)
    requires t in s.pcs
  {
    && !s.pcs[t].Fault?
    && (InOpen(s.pcs[t]) ==> (t, s.pcs[t].name) !in s.held)
    && (InClose(s.pcs[t]) ==> (t, s.pcs[t].name) in s.held)
  }

  /** What discipline adds to the invariant: a thread that has a record open has it once and holds it. */
  ghost predicate HeldInv(s: State) {
    && (forall t | t in s.pcs :: Orderly(s, t))
    && (forall t, n | (t, n) in s.held :: s.held[(t, n)] == 1 && Holds(s, t, n) && Owned(s, n))
  }

  /** Nothing was dereferenced in vain, and no record was taken from a thread that has it open. */
  ghost predicate Safe(s: State) {
    && (forall t | t in s.pcs :: !s.pcs[t].Fault?)
    && (forall t, n | (t, n) in s.held :: n in s.records)
  }

  lemma InitKeepsDiscipline(threads: set<Thread>)
    ensures Inv(Init(threads)) && HeldInv(Init(threads))
  {
  }

  lemma NoFault(s: State, t: Thread)
    requires t in s.pcs && CreatorReady(s, t) && Statement(s, t).Go?
    requires Inside(s.pcs[t], s.pcs[t].name) || InClose(s.pcs[t]) ==> s.pcs[t].name in s.records
    ensures !Statement(s, t).next.Fault?
  {
  }

  lemma InOpenFrom(s: State, t: Thread)
    requires t in s.pcs && Statement(s, t).Go? && InOpen(Statement(s, t).next)
    ensures InOpen(s.pcs[t]) && Statement(s, t).next.name == s.pcs[t].name
    ensures HeldAfter(s.held, t, Statement(s, t).write) == s.held
  {
  }

  lemma InCloseFrom(s: State, t: Thread)
    requires t in s.pcs && Statement(s, t).Go? && InClose(Statement(s, t).next)
    ensures InClose(s.pcs[t]) && Statement(s, t).next.name == s.pcs[t].name
    ensures HeldAfter(s.held, t, Statement(s, t).write) == s.held
  {
  }

  lemma OwnOrderly(s: State, t: Thread)
    requires t in s.pcs && Orderly(s, t) && CreatorReady(s, t) && Statement(s, t).Go?
    requires Inside(s.pcs[t], s.pcs[t].name) || InClose(s.pcs[t]) ==> s.pcs[t].name in s.records
    ensures Orderly(Commit(s, t, Statement(s, t).next, Statement(s, t).write), t)
  {
    var next := Statement(s, t).next;
    NoFault(s, t);
    if InOpen(next) {
      InOpenFrom(s, t);
    } else if InClose(next) {
      InCloseFrom(s, t);
    }
  }

  lemma KeepsOrderly(s: State, a: Action, s': State, t: Thread)
    requires InsideHolds(s) && CreatorsReady(s) && HeldInv(s)
    requires Next(s, a) == Moved(s') && Matched(s, a) && Single(s, a) && t in s.pcs
    ensures Orderly(s', t)
  {
    var pc := s.pcs[t];
    assert Orderly(s, t) && CreatorReady(s, t);
    if a.thread != t {
      OthersKeepPc(s, a, s', t);
      OthersKeepHeld(s, a, s', t);
    } else if a.Run? {
      assert Inside(pc, pc.name) ==> Holds(s, t, pc.name);
      OwnOrderly(s, t);
    }
  }

  lemma KeepsHeld(s: State, a: Action, s': State, t: Thread, n: Name)
    requires InsideHolds(s) && ReadsOwned(s) && HeldInv(s) && Next(s, a) == Moved(s') && (t, n) in s'.held
    ensures s'.held[(t, n)] == 1 && Holds(s', t, n) && Owned(s', n)
  {
    if a.Run? && s.pcs[a.thread] == OpenRead(n) && a.thread == t {
      assert Orderly(s, t) && Inside(s.pcs[t], n);
    } else {
      assert (t, n) in s.held;
    }
    HoldsKept(s, a, s', t, n);
    OwnedKept(s, a, s', t, n);
  }

  lemma StepKeepsHeldInv(s: State, a: Action, s': State)
    requires Inv(s) && HeldInv(s) && Next(s, a) == Moved(s') && Matched(s, a) && Single(s, a)
    ensures HeldInv(s')
  {
    forall t | t in s'.pcs ensures Orderly(s', t) {
      KeepsOrderly(s, a, s', t);
    }
    forall t, n | (t, n) in s'.held ensures s'.held[(t, n)] == 1 && Holds(s', t, n) && Owned(s', n) {
      KeepsHeld(s, a, s', t, n);
    }
  }

  /**
   When closes match opens and no thread opens a record that it has open, no interleaving dereferences a
   null record or takes a record from a thread that has it open.
   */
  lemma {:induction false} DisciplinedRunsAreSafe(s: State, acts: seq<Action>, s': State)
    requires Inv(s) && HeldInv(s) && Disciplined(s, acts) && Exec(s, acts) == Moved(s')
    ensures Inv(s') && HeldInv(s') && Safe(s')
    decreases |acts|
  {
    if acts != [] {
      var next := Next(s, acts[0]).state;
      StepKeepsInv(s, acts[0], next);
      StepKeepsHeldInv(s, acts[0], next);
      DisciplinedRunsAreSafe(next, acts[1..], s');
    } else {
      assert forall t | t in s.pcs :: Orderly(s, t);
    }
  }
}
