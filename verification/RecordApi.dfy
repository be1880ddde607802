/**
 The registry's operations as they update the dictionary in place, each running from its lock to its
 unlock without interruption. Every method is a run of the machine in which only the caller steps.
 */
module RecordApi {
  import opened RecordRegistry
  import opened Sets

  /** Statements of the call that `t` is in, and nothing else. */
  ghost predicate StepsOf(acts: seq<Action>, t: Thread) {
    forall a | a in acts :: (a.Run? || a.Notify?) && a.thread == t
  }

  /** From `s` to `s'` by statements of `t` alone. */
  ghost predicate Alone(s: State, t: Thread, s': State) {
    exists acts :: StepsOf(acts, t) && Exec(s, acts) == Moved(s')
  }

  lemma {:induction false} ExecConcat(s: State, acts: seq<Action>, s': State, more: seq<Action>)
    requires Exec(s, acts) == Moved(s')
    ensures Exec(s, acts + more) == Exec(s', more)
    decreases |acts|
  {
    if acts == [] {
      assert acts + more == more;
    } else {
      var next := Next(s, acts[0]);
      assert (acts + more)[0] == acts[0] && (acts + more)[1..] == acts[1..] + more;
      ExecConcat(next.state, acts[1..], s', more);
    }
  }

  lemma AloneStart(s: State, t: Thread)
    ensures Alone(s, t, s)
  {
    assert StepsOf([], t) && Exec(s, []) == Moved(s);
  }

  lemma AloneStep(s: State, t: Thread, s1: State, a: Action, s2: State)
    requires Alone(s, t, s1) && (a.Run? || a.Notify?) && a.thread == t && Next(s1, a) == Moved(s2)
    ensures Alone(s, t, s2)
  {
    var acts :| StepsOf(acts, t) && Exec(s, acts) == Moved(s1);
    ExecConcat(s, acts, s1, [a]);
    assert Exec(s1, [a]) == Moved(s2);
    assert StepsOf(acts + [a], t);
  }

  lemma AloneTrans(s: State, t: Thread, s1: State, s2: State)
    requires Alone(s, t, s1) && Alone(s1, t, s2)
    ensures Alone(s, t, s2)
  {
    var acts :| StepsOf(acts, t) && Exec(s, acts) == Moved(s1);
    var more :| StepsOf(more, t) && Exec(s1, more) == Moved(s2);
    ExecConcat(s, acts, s1, more);
    assert StepsOf(acts + more, t);
  }

  /** The next statement of `t`, which leads to `next` and makes the write `w`. */
  lemma RunStep(s: State, t: Thread, s1: State, next: Pc, w: Write) returns (s2: State)
    requires Alone(s, t, s1) && t in s1.pcs && Statement(s1, t) == Go(next, w)
    ensures Alone(s, t, s2) && s2 == Commit(s1, t, next, w)
  {
    s2 := Commit(s1, t, next, w);
    AloneStep(s, t, s1, Run(t), s2);
  }

  lemma {:induction false} NotifyAll(s: State, t: Thread, s1: State, name: Name, todo: set<Thread>)
    returns (s2: State)
    requires Alone(s, t, s1) && t in s1.pcs && s1.pcs[t] == CreateNotify(name, todo)
    ensures Alone(s, t, s2)
    ensures s2 == s1.(flags := s1.flags + todo, pcs := s1.pcs[t := CreateNotify(name, {})])
    decreases todo
  {
    if todo == {} {
      s2 := s1;
      assert s1.flags + todo == s1.flags && s1.pcs[t := CreateNotify(name, {})] == s1.pcs;
    } else {
      NonEmpty(todo);
      var holder :| holder in todo;
      var next := Next(s1, Notify(t, holder)).state;
      AloneStep(s, t, s1, Notify(t, holder), next);
      s2 := NotifyAll(s, t, next, name, todo - {holder});
      assert s1.flags + {holder} + (todo - {holder}) == s1.flags + todo;
    }
  }

  /** Create up to its holder loop. */
  lemma CreateStores(s: State, t: Thread, name: Name, data: Data) returns (s': State)
    requires s.mutex == None && t in s.pcs && s.pcs[t] == CreateLock(name, data)
    ensures Alone(s, t, s') && s'.mutex == Some(t) && s'.flags == s.flags && s'.held == s.held
    ensures
      var holders := GetOrCreate(s.records, name).holders;
      && s'.records == s.records[name := Record(Some(data), Some(t), holders)]
      && s'.pcs == s.pcs[t := CreateNotify(name, holders)]
    ensures s'.stored == s.stored + {(name, data)}
  {
    AloneStart(s, t);
    s' := RunStep(s, t, s, CreateStore(name, data), Acquire);
    s' := RunStep(s, t, s', CreateOwn(name), Store(name, data));
    s' := RunStep(s, t, s', CreateNotify(name, s'.records[name].holders), Own(name));
  }

  /** Create from its lock to its unlock. */
  lemma CreateRuns(s: State, t: Thread, name: Name, data: Data) returns (s': State)
    requires s.mutex == None && t in s.pcs && s.pcs[t] == CreateLock(name, data)
    ensures Alone(s, t, s') && s'.mutex == None && s'.pcs == s.pcs[t := Idle] && s'.held == s.held
    ensures
      var holders := GetOrCreate(s.records, name).holders;
      && s'.records == s.records[name := Record(Some(data), Some(t), holders)]
      && s'.flags == s.flags + holders
    ensures s'.stored == s.stored + {(name, data)}
  {
    s' := CreateStores(s, t, name, data);
    s' := NotifyAll(s, t, s', name, s'.records[name].holders);
    s' := RunStep(s, t, s', Idle, Release);
  }

  /** Destroy from its lock to its unlock. */
  lemma DestroyRuns(s: State, t: Thread, name: Name) returns (s': State)
    requires s.mutex == None && t in s.pcs && s.pcs[t] == DestroyLock(name)
    ensures Alone(s, t, s') && s'.mutex == None && s'.pcs == s.pcs[t := Idle] && s'.held == s.held
    ensures s'.flags == s.flags && s'.records == if Erases(s, t, name) then s.records - {name} else s.records
  {
    AloneStart(s, t);
    var s1 := RunStep(s, t, s, DestroyErase(name), Acquire);
    assert s1.records == s.records && s1.pcs[t] == DestroyErase(name);
    var s2 := RunStep(s, t, s1, DestroyUnlock(name), if Erases(s, t, name) then Erase(name) else Nothing);
    assert s2.pcs == s.pcs[t := DestroyUnlock(name)];
    s' := RunStep(s, t, s2, Idle, Release);
  }

  /** Open up to the test of the owner. */
  lemma OpenJoins(s: State, t: Thread, name: Name) returns (s': State)
    requires s.mutex == None && t in s.pcs && s.pcs[t].OpenLock? && s.pcs[t].name == name
    ensures Alone(s, t, s') && s'.mutex == None && s'.flags == s.flags
    ensures s'.held == s.held && s'.returned == s.returned && s'.pcs == s.pcs[t := OpenTest(name)]
    ensures s'.records == RecordsAfter(s.records, t, Join(name))
  {
    AloneStart(s, t);
    s' := RunStep(s, t, s, OpenJoin(name, s.pcs[t].again), Acquire);
    s' := RunStep(s, t, s', OpenUnlock(name), Join(name));
    s' := RunStep(s, t, s', OpenTest(name), Release);
  }

  /** From the test of the owner to the return. */
  lemma OpenReads(s: State, t: Thread, s1: State, name: Name) returns (s': State)
    requires Alone(s, t, s1) && t in s1.pcs && s1.pcs[t] == OpenTest(name) && Owned(s1, name)
    ensures Alone(s, t, s') && s'.records == s1.records && s'.mutex == s1.mutex && s'.flags == s1.flags
    ensures s'.pcs == s1.pcs[t := Idle] && s'.held == s1.held + multiset{(t, name)}
    ensures s'.returned == s1.returned + [Returned(t, name, s1.records[name].data)]
  {
    s' := RunStep(s, t, s1, OpenRead(name), Nothing);
    s' := RunStep(s, t, s', Idle, Return(name));
  }

  /** Close from its lock to its unlock. */
  lemma CloseRuns(s: State, t: Thread, name: Name) returns (s': State)
    requires s.mutex == None && t in s.pcs && s.pcs[t] == CloseLock(name) && name in s.records
    ensures Alone(s, t, s') && s'.flags == s.flags && s'.mutex == None && s'.pcs == s.pcs[t := Idle]
    ensures s'.held == s.held - multiset{(t, name)}
    ensures s'.records == s.records[name := s.records[name].(holders := s.records[name].holders - {t})]
  {
    AloneStart(s, t);
    s' := RunStep(s, t, s, CloseLeave(name), Acquire);
    s' := RunStep(s, t, s', CloseUnlock(name), Leave(name));
    s' := RunStep(s, t, s', Idle, Release);
  }

  /** Close of a record that does not exist. */
  lemma CloseFaults(s: State, t: Thread, name: Name) returns (s': State)
    requires s.mutex == None && t in s.pcs && s.pcs[t] == CloseLock(name) && name !in s.records
    ensures Alone(s, t, s') && s'.flags == s.flags && s'.records == s.records && s'.pcs == s.pcs[t := Fault]
  {
    AloneStart(s, t);
    s' := RunStep(s, t, s, CloseLeave(name), Acquire);
    s' := RunStep(s, t, s', Fault, Nothing);
  }

  class Registry {
    var records: map<Name, Record>
    var flags: set<Thread>

    ghost predicate Shows(s: State)
      reads this
    {
      s.records == records && s.flags == flags
    }

    method GetOrCreate(name: Name) returns (record: Record)
      modifies this`records
      ensures name in records && record == records[name]
      ensures records == old(records)[name := if name in old(records) then old(records)[name] else PLACEHOLDER]
    {
      if name !in records {
        records := records[name := PLACEHOLDER];
      }
      record := records[name];
    }

    /** Stores the datum, takes ownership and raises the flag of every holder. */
    method Create(t: Thread, name: Name, data: Data, ghost s: State) returns (ghost s': State)
      requires Shows(s) && s.mutex == None && t in s.pcs && s.pcs[t] == CreateLock(name, data)
      modifies this
      ensures Alone(s, t, s') && Shows(s') && s'.mutex == None && s'.pcs == s.pcs[t := Idle]
      ensures
        var holders := RecordRegistry.GetOrCreate(old(records), name).holders;
        && records == old(records)[name := Record(Some(data), Some(t), holders)]
        && flags == old(flags) + holders
      ensures s'.stored == s.stored + {(name, data)}
    {
      s' := CreateRuns(s, t, name, data);
      var record := GetOrCreate(name);
      records := records[name := record.(data := Some(data))];
      records := records[name := records[name].(owner := Some(t))];

      var todo := records[name].holders;
      while todo != {}
        invariant records == s'.records
        invariant flags + todo == old(flags) + record.holders
        decreases todo
      {
        NonEmpty(todo);
        var holder :| holder in todo;
        flags := flags + {holder};
        todo := todo - {holder};
      }
    }

    /** Erases the record iff the caller owns it and nobody holds it. */
    method Destroy(t: Thread, name: Name, ghost s: State) returns (destroyed: bool, ghost s': State)
      requires Shows(s) && s.mutex == None && t in s.pcs && s.pcs[t] == DestroyLock(name)
      modifies this`records
      ensures Alone(s, t, s') && Shows(s') && s'.mutex == None && s'.pcs == s.pcs[t := Idle]
      ensures
        var before := old(records);
        && destroyed == (name in before && before[name].owner == Some(t) && before[name].holders == {})
        && records == if destroyed then before - {name} else before
    {
      s' := DestroyRuns(s, t, name);
      destroyed := false;
      if name in records && records[name].owner == Some(t) && records[name].holders == {} {
        records := records - {name};
        destroyed := true;
      }
    }

    /** One turn of the loop in open: join the holders, and get the datum unless it has to wait. */
    method OpenTurn(t: Thread, name: Name, ghost s: State) returns (arrived: bool, data: Option<Data>, ghost s': State)
      requires Shows(s) && s.mutex == None && t in s.pcs && s.pcs[t].OpenLock? && s.pcs[t].name == name
      modifies this`records
      ensures Alone(s, t, s') && Shows(s') && s'.mutex == None
      ensures
        var record := RecordRegistry.GetOrCreate(old(records), name);
        && records == old(records)[name := record.(holders := record.holders + {t})]
        && arrived == record.owner.Some?
      ensures s'.pcs == s.pcs[t := if arrived then Idle else OpenWait(name)]
      ensures arrived ==> data == records[name].data && s'.returned == s.returned + [Returned(t, name, data)]
    {
      s' := OpenJoins(s, t, name);
      var record := GetOrCreate(name);
      records := records[name := record.(holders := record.holders + {t})];
      arrived, data := false, None;
      if records[name].owner.Some? {
        s' := OpenReads(s, t, s', name);
        arrived, data := true, records[name].data;
      } else {
        s' := RunStep(s, t, s', OpenWait(name), Nothing);
      }
    }

    /** Leaves the holders; a null record is dereferenced when there is no such record. */
    method Close(t: Thread, name: Name, ghost s: State) returns (faulted: bool, ghost s': State)
      requires Shows(s) && s.mutex == None && t in s.pcs && s.pcs[t] == CloseLock(name)
      modifies this`records
      ensures Alone(s, t, s') && Shows(s')
      ensures faulted == (name !in old(records))
      ensures s'.pcs == s.pcs[t := if faulted then Fault else Idle]
      ensures !faulted ==>
        records == old(records)[name := old(records)[name].(holders := old(records)[name].holders - {t})]
    {
      if name !in records {
        s' := CloseFaults(s, t, name);
        return true, s';
      }
      s' := CloseRuns(s, t, name);
      records := records[name := records[name].(holders := records[name].holders - {t})];
      faulted := false;
    }
  }

  // ----- Runs of disciplined calls, and a flag that open leaves behind

  ghost predicate RegistryOnly(acts: seq<Action>) {
    forall a | a in acts :: !a.Raise? && !a.Drain?
  }

  /** From `s` to `s'` by disciplined calls, with no other user of the thread flags. */
  ghost predicate Leads(s: State, s': State) {
    exists acts :: RegistryOnly(acts) && Disciplined(s, acts) && Exec(s, acts) == Moved(s')
  }

  lemma {:induction false} DisciplinedConcat(s: State, acts: seq<Action>, s': State, more: seq<Action>)
    requires Disciplined(s, acts) && Exec(s, acts) == Moved(s') && Disciplined(s', more)
    ensures Disciplined(s, acts + more)
    decreases |acts|
  {
    if acts == [] {
      assert acts + more == more;
    } else {
      var next := Next(s, acts[0]);
      assert (acts + more)[0] == acts[0] && (acts + more)[1..] == acts[1..] + more;
      DisciplinedConcat(next.state, acts[1..], s', more);
    }
  }

  lemma LeadsStart(s: State)
    ensures Leads(s, s)
  {
    assert RegistryOnly([]) && Disciplined(s, []) && Exec(s, []) == Moved(s);
  }

  lemma LeadsOn(s: State, s1: State, more: seq<Action>, s2: State)
    requires Leads(s, s1) && RegistryOnly(more) && Disciplined(s1, more) && Exec(s1, more) == Moved(s2)
    ensures Leads(s, s2)
  {
    var acts :| RegistryOnly(acts) && Disciplined(s, acts) && Exec(s, acts) == Moved(s1);
    ExecConcat(s, acts, s1, more);
    DisciplinedConcat(s, acts, s1, more);
    assert RegistryOnly(acts + more);
  }

  lemma LeadsBegin(s: State, s1: State, t: Thread, call: Call) returns (s2: State)
    requires Leads(s, s1) && t in s1.pcs && s1.pcs[t] == Idle
    requires Matched(s1, Begin(t, call)) && Single(s1, Begin(t, call))
    ensures Leads(s, s2) && s2 == s1.(pcs := s1.pcs[t := Entry(call)])
  {
    s2 := s1.(pcs := s1.pcs[t := Entry(call)]);
    assert Next(s1, Begin(t, call)) == Moved(s2);
    assert Exec(s2, []) == Moved(s2) && Disciplined(s2, []);
    LeadsOn(s, s1, [Begin(t, call)], s2);
  }

  lemma {:induction false} StepsAreDisciplined(s: State, acts: seq<Action>, t: Thread)
    requires StepsOf(acts, t)
    ensures RegistryOnly(acts) && Disciplined(s, acts)
    decreases |acts|
  {
    if acts != [] && Next(s, acts[0]).Moved? {
      StepsAreDisciplined(Next(s, acts[0]).state, acts[1..], t);
    }
  }

  lemma LeadsAlone(s: State, s1: State, t: Thread, s2: State)
    requires Leads(s, s1) && Alone(s1, t, s2)
    ensures Leads(s, s2)
  {
    var acts :| StepsOf(acts, t) && Exec(s1, acts) == Moved(s2);
    StepsAreDisciplined(s1, acts, t);
    LeadsOn(s, s1, acts, s2);
  }

  /** Meanwhile the record is created, and the flag of every holder raised. */
  lemma CreatorPasses(s: State, s1: State, c: Thread, name: Name, data: Data) returns (s': State)
    requires Leads(s, s1) && c in s1.pcs && s1.pcs[c] == Idle && s1.mutex == None
    ensures Leads(s, s') && s'.pcs == s1.pcs && s'.held == s1.held && s'.mutex == None
    ensures
      var holders := GetOrCreate(s1.records, name).holders;
      && s'.records == s1.records[name := Record(Some(data), Some(c), holders)] && s'.flags == s1.flags + holders
  {
    var s2 := LeadsBegin(s, s1, c, Call.Create(name, data));
    s' := CreateRuns(s2, c, name, data);
    LeadsAlone(s, s2, c, s');
    assert s'.pcs == s1.pcs;
  }

  lemma OpenerJoins(s: State, t: Thread, name: Name) returns (s': State)
    requires s == Init(s.pcs.Keys) && t in s.pcs
    ensures Leads(s, s') && s'.mutex == None && s'.pcs == s.pcs[t := OpenTest(name)]
    ensures t in GetOrCreate(s'.records, name).holders
  {
    LeadsStart(s);
    var s1 := LeadsBegin(s, s, t, Open(name));
    s' := OpenJoins(s1, t, name);
    LeadsAlone(s, s1, t, s');
  }

  /**
   `open` can return with the caller's flag raised: it leaves its loop on finding the owner without
   consuming the flag that the create raised. The flag bit is the one the storage service waits on.
   */
  lemma OpenMayLeaveFlagRaised(t: Thread, c: Thread, name: Name, data: Data) returns (s: State)
    requires t != c
    ensures Leads(Init({t, c}), s)
    ensures t in s.pcs && s.pcs[t] == Idle && t in s.flags && (t, name) in s.held
  {
    var s0 := Init({t, c});
    var s1 := OpenerJoins(s0, t, name);
    var s2 := CreatorPasses(s0, s1, c, name, data);
    AloneStart(s2, t);
    s := OpenReads(s2, t, s2, name);
    LeadsAlone(s0, s2, t, s);
  }
}
