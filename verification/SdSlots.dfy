/**
 The table of open files and directories of the SD card API
 (applications/sd-filesystem/sd-filesystem-api.c, and `app_sd_unmount_card` of sd-filesystem.c).
 Each API call is one step. What FatFs answers is a parameter of the call.
 */
module SdSlots {

  /** Thread ids are never 0; 0 is the null id of a free slot. */
  type Thread = int
  const NOBODY := 0

  datatype Slot = Slot(thread: Thread, isDir: bool)

  datatype SdError =
    | SdOk | NoCard | InvalidParameter | OtherApp | NotAFile | NotADir | TooManyOpenFiles | FatFs(code: int)

  type Table = seq<Slot>

  predicate Free(table: Table, i: nat) {
    i < |table| && table[i].thread == NOBODY
  }

  /** The first free slot, or the size of the table. */
  function FirstFree(table: Table, from: nat): (i: nat)
    requires from <= |table|
    ensures from <= i <= |table|
    ensures i < |table| ==> Free(table, i)
    ensures forall j: nat | from <= j < i :: !Free(table, j)
    decreases |table| - from
  {
    if from == |table| || table[from].thread == NOBODY then from else FirstFree(table, from + 1)
  }

  /** The kinds of slot that a call asks for. */
  datatype Filter = AnyKind | FileKind | DirKind

  predicate RightKind(slot: Slot, filter: Filter) {
    (filter.FileKind? ==> !slot.isDir) && (filter.DirKind? ==> slot.isDir)
  }

  function KindOf(isDir: bool): Filter {
    if isDir then DirKind else FileKind
  }

  /** The card is ready, and slot `id` exists, belongs to thread `t` and is of the right kind. */
  predicate MayUse(table: Table, status: SdError, id: nat, t: Thread, filter: Filter) {
    status == SdOk && id < |table| && table[id].thread == t && RightKind(table[id], filter)
  }

  /** `error` is what thread `t` must be told when it asks for slot `id`. */
  ghost predicate Verdict(table: Table, status: SdError, id: nat, t: Thread, filter: Filter, error: SdError) {
    var own := status == SdOk && id < |table| && table[id].thread == t;
    && (error == SdOk <==> MayUse(table, status, id, t, filter))
    && (error == NoCard <==> status != SdOk)
    && (error == InvalidParameter <==> status == SdOk && id >= |table|)
    && (error == OtherApp <==> status == SdOk && id < |table| && table[id].thread != t)
    && (error == NotAFile <==> own && filter.FileKind? && table[id].isDir)
    && (error == NotADir <==> own && filter.DirKind? && !table[id].isDir)
  }

  /** There is exactly one such error, in every state and for every caller. */
  lemma VerdictIsUnique(table: Table, status: SdError, id: nat, t: Thread, filter: Filter) returns (error: SdError)
    ensures Verdict(table, status, id, t, filter, error)
    ensures forall e | Verdict(table, status, id, t, filter, e) :: e == error
  {
    error :=
      if status != SdOk then NoCard
      else if id >= |table| then InvalidParameter
      else if table[id].thread != t then OtherApp
      else if RightKind(table[id], filter) then SdOk
      else if filter.FileKind? then NotAFile
      else NotADir;
  }

  // ----- The API as it runs

  /** The caller's handle. */
  class File {
    var fileId: nat
    var internalError: SdError

    constructor (fileId: nat)
      ensures this.fileId == fileId && internalError == SdOk
    {
      this.fileId, internalError := fileId, SdOk;
    }
  }

  class FileSystem {
    var status: SdError
    const files: array<Slot>

    constructor (maxFiles: nat)
      ensures fresh(files) && files.Length == maxFiles && status == NoCard
      ensures forall i | 0 <= i < maxFiles :: Free(files[..], i)
    {
      files := new Slot[maxFiles](_ => Slot(NOBODY, false));
      status := NoCard;
    }

    /** `fs_file_open` and `fs_dir_open`: claim the first free slot, then ask FatFs. */
    method Open(file: File, t: Thread, isDir: bool, answer: SdError) returns (ok: bool)
      requires t != NOBODY
      modifies file, files
      ensures
        var table := old(files[..]);
        var i := FirstFree(table, 0);
        && files[..] == Claimed(table, t, isDir)
        && file.fileId == (if i < |table| then i else old(file.fileId))
        && file.internalError == (if i < |table| then answer else TooManyOpenFiles)
      ensures ok == (file.internalError == SdOk)
    {
      var claimed := false;
      var index := 0;
      while index < files.Length
        invariant 0 <= index <= files.Length
        invariant !claimed
        invariant files[..] == old(files[..]) && file.fileId == old(file.fileId)
        invariant FirstFree(files[..], 0) == FirstFree(files[..], index)
      {
        if files[index].thread == NOBODY {
          file.fileId := index;
          files[index] := Slot(t, isDir);
          claimed := true;
          break;
        }
        index := index + 1;
      }
      file.internalError := if claimed then answer else TooManyOpenFiles;
      ok := file.internalError == SdOk;
    }

    /** `_get_filedata`: the slot behind a handle, or the error that keeps thread `t` from it. */
    method GetFiledata(file: File?, t: Thread, filter: Filter) returns (error: SdError, filedata: nat)
      ensures file == null ==> error == if status == SdOk then InvalidParameter else NoCard
      ensures file != null ==> Verdict(files[..], status, file.fileId, t, filter, error)
      ensures error == SdOk ==> file != null && filedata == file.fileId < files.Length
    {
      error, filedata := SdOk, 0;
      if status == SdOk {
        if file != null && file.fileId < files.Length {
          if files[file.fileId].thread == t {
            if filter == AnyKind {
              filedata := file.fileId;
            } else if filter == FileKind {
              if !files[file.fileId].isDir {
                filedata := file.fileId;
              } else {
                error := NotAFile;
              }
            } else {
              if files[file.fileId].isDir {
                filedata := file.fileId;
              } else {
                error := NotADir;
              }
            }
          } else {
            error := OtherApp;
          }
        } else {
          error := InvalidParameter;
        }
      } else {
        error := NoCard;
      }
    }

    /** `fs_file_close` and `fs_dir_close`. */
    method Close(file: File, t: Thread, isDir: bool, answer: SdError) returns (ok: bool)
      modifies file, files
      ensures
        var table := old(files[..]);
        var may := MayUse(table, status, file.fileId, t, KindOf(isDir));
        && file.fileId == old(file.fileId)
        && files[..] == (if may then Released(table, file.fileId) else table)
        && (may ==> file.internalError == answer)
        && (!may ==> Verdict(table, status, file.fileId, t, KindOf(isDir), file.internalError))
      ensures ok == (file.internalError == SdOk)
    {
      var error, filedata := GetFiledata(file, t, KindOf(isDir));
      file.internalError := error;
      if file.internalError == SdOk {
        file.internalError := answer;
        files[filedata] := files[filedata].(thread := NOBODY);
      }
      ok := file.internalError == SdOk;
    }

    /** The calls that use an open slot; `acted` says whether FatFs was let loose on the slot `filedata`. */
    method Use(file: File, t: Thread, isDir: bool, answer: SdError) returns (acted: bool, filedata: nat)
      modifies file
      ensures file.fileId == old(file.fileId)
      ensures acted <==> MayUse(files[..], status, file.fileId, t, KindOf(isDir))
      ensures acted ==> filedata == file.fileId && file.internalError == answer
      ensures !acted ==> Verdict(files[..], status, file.fileId, t, KindOf(isDir), file.internalError)
    {
      var error;
      error, filedata := GetFiledata(file, t, KindOf(isDir));
      file.internalError := error;
      acted := file.internalError == SdOk;
      if acted {
        file.internalError := answer;
      }
    }

    /** `app_sd_unmount_card`. */
    method Unmount()
      modifies this`status, files
      ensures status == NoCard && files[..] == Emptied(old(files[..]))
    {
      status := NoCard;
      var index := 0;
      while index < files.Length
        invariant 0 <= index <= files.Length && status == NoCard
        invariant forall i | 0 <= i < files.Length ::
          files[i] == if i < index then old(files[i]).(thread := NOBODY) else old(files[i])
      {
        if files[index].thread != NOBODY {
          files[index] := files[index].(thread := NOBODY);
        }
        index := index + 1;
      }
    }
  }

  function Claimed(table: Table, t: Thread, isDir: bool): (r: Table)
    ensures |r| == |table|
  {
    var i := FirstFree(table, 0);
    if i < |table| then table[i := Slot(t, isDir)] else table
  }

  function Released(table: Table, i: nat): Table
    requires i < |table|
  {
    table[i := table[i].(thread := NOBODY)]
  }

  function Emptied(table: Table): Table {
    seq(|table|, i requires 0 <= i < |table| => table[i].(thread := NOBODY))
  }

  // ----- Runs

  /** A claim: the `id`-th open, made by `thread`, for a file or a directory. */
  datatype Claim = Claim(id: nat, thread: Thread, isDir: bool)

  /** `claims` and `opens` are history: which open claimed each slot, and how many there were. */
  datatype State = State(table: Table, status: SdError, claims: map<nat, Claim>, opens: nat, epoch: nat)

  datatype Call =
    | OpenSlot(thread: Thread, isDir: bool)
    | CloseSlot(thread: Thread, id: nat, isDir: bool)
    | UseSlot(thread: Thread, id: nat, isDir: bool)
    | Mount(status: SdError)
    | UnmountCard

  /** The slot that FatFs is let loose on, if any. */
  function ActsOn(s: State, c: Call): (r: nat)
    ensures r <= |s.table|
  {
    match c
    case OpenSlot(_, _) => FirstFree(s.table, 0)
    case CloseSlot(t, id, isDir) => if MayUse(s.table, s.status, id, t, KindOf(isDir)) then id else |s.table|
    case UseSlot(t, id, isDir) => if MayUse(s.table, s.status, id, t, KindOf(isDir)) then id else |s.table|
    case _ => |s.table|
  }

  function Step(s: State, c: Call): State {
    match c
    case OpenSlot(t, isDir) =>
      var i := FirstFree(s.table, 0);
      if i < |s.table|
      then s.(table := Claimed(s.table, t, isDir),
              claims := s.claims[i := Claim(s.opens, t, isDir)], opens := s.opens + 1)
      else s
    case CloseSlot(t, id, isDir) =>
      if MayUse(s.table, s.status, id, t, KindOf(isDir))
      then s.(table := Released(s.table, id), claims := s.claims - {id})
      else s
    case UseSlot(_, _, _) => s
    case Mount(status) => s.(status := status)
    case UnmountCard => s.(table := Emptied(s.table), status := NoCard, claims := map[], epoch := s.opens)
  }

  /** Mounted or not, an empty table: what the constructor leaves. */
  function Initial(maxFiles: nat): State {
    State(seq(maxFiles, _ => Slot(NOBODY, false)), NoCard, map[], 0, 0)
  }

  function Run(s: State, cs: seq<Call>): State
    decreases |cs|
  {
    if cs == [] then s else Run(Step(s, cs[0]), cs[1..])
  }

  /** Callers are threads. */
  predicate FromThreads(cs: seq<Call>) {
    forall i | 0 <= i < |cs| && (cs[i].OpenSlot? || cs[i].CloseSlot? || cs[i].UseSlot?) :: cs[i].thread != NOBODY
  }

  ghost predicate Owned(s: State, i: nat)
    requires i < |s.table|
  {
    && (i in s.claims <==> s.table[i].thread != NOBODY)
    && (i in s.claims ==>
          && s.claims[i].thread == s.table[i].thread && s.claims[i].isDir == s.table[i].isDir
          && s.epoch <= s.claims[i].id < s.opens)
  }

  /**
   Each occupied slot belongs to exactly one open since the last unmount, the one that claimed it, and
   no open claimed two slots.
   */
  ghost predicate Inv(s: State) {
    && s.epoch <= s.opens
    && (forall i | i in s.claims :: i < |s.table|)
    && (forall i: nat | i < |s.table| :: Owned(s, i))
    && (forall i, j | i in s.claims && j in s.claims && i != j :: s.claims[i].id != s.claims[j].id)
  }

  lemma StepKeepsInv(s: State, c: Call)
    requires Inv(s) && FromThreads([c])
    ensures Inv(Step(s, c)) && |Step(s, c).table| == |s.table|
  {
    var s' := Step(s, c);
    assert [c][0] == c;
    forall i: nat | i < |s'.table| ensures Owned(s', i) {
      assert Owned(s, i);
    }
    forall i, j | i in s'.claims && j in s'.claims && i != j ensures s'.claims[i].id != s'.claims[j].id {
      assert i in s.claims ==> Owned(s, i);
      assert j in s.claims ==> Owned(s, j);
    }
  }

  lemma {:induction false} RunKeepsInv(s: State, cs: seq<Call>)
    requires Inv(s) && FromThreads(cs)
    ensures Inv(Run(s, cs))
    decreases |cs|
  {
    if cs != [] {
      assert FromThreads([cs[0]]);
      StepKeepsInv(s, cs[0]);
      RunKeepsInv(Step(s, cs[0]), cs[1..]);
    }
  }

  /** In every run from the empty table each occupied slot belongs to exactly one open since the last unmount. */
  lemma SlotsHaveOneClaim(maxFiles: nat, cs: seq<Call>)
    requires FromThreads(cs)
    ensures Inv(Run(Initial(maxFiles), cs))
  {
    assert forall i: nat | i < maxFiles :: Owned(Initial(maxFiles), i);
    RunKeepsInv(Initial(maxFiles), cs);
  }

  /** A thread's own calls leave the slots of every other thread alone. */
  lemma OthersSlotsUntouched(s: State, c: Call, i: nat)
    requires c.OpenSlot? || c.CloseSlot? || c.UseSlot?
    requires i < |s.table| && s.table[i].thread != NOBODY && s.table[i].thread != c.thread
    ensures Step(s, c).table[i] == s.table[i]
    ensures ActsOn(s, c) != i
  {
  }

  /** Over any run without unmounts, another thread's slot and claim stay as they are. */
  lemma {:induction false} OthersSlotsSurviveRuns(s: State, cs: seq<Call>, t: Thread, i: nat)
    requires Inv(s) && FromThreads(cs)
    requires forall k | 0 <= k < |cs| :: !cs[k].UnmountCard?
    requires forall k | 0 <= k < |cs| && !cs[k].Mount? :: cs[k].thread != t
    requires i < |s.table| && s.table[i].thread == t != NOBODY
    ensures i < |Run(s, cs).table| && Run(s, cs).table[i] == s.table[i]
    ensures i in Run(s, cs).claims && i in s.claims && Run(s, cs).claims[i] == s.claims[i]
    decreases |cs|
  {
    assert Owned(s, i);
    if cs != [] {
      assert FromThreads([cs[0]]);
      StepKeepsInv(s, cs[0]);
      OthersSlotsSurviveRuns(Step(s, cs[0]), cs[1..], t, i);
    }
  }

  /** FatFs works on a slot only for its owner, and on the kind of object the slot holds. */
  lemma ActsOnOwnKind(s: State, c: Call)
    requires ActsOn(s, c) < |s.table|
    ensures c.OpenSlot? || c.CloseSlot? || c.UseSlot?
    ensures
      var slot := (if c.OpenSlot? then Step(s, c) else s).table[ActsOn(s, c)];
      slot.thread == c.thread && slot.isDir == c.isDir
  {
  }

  /** Opening and closing again gives the table back, wherever the slot was. */
  lemma CloseUndoesOpen(s: State, t: Thread, isDir: bool, i: nat)
    requires Inv(s) && t != NOBODY && s.status == SdOk
    requires i == FirstFree(s.table, 0) && i < |s.table|
    ensures
      var s' := Step(Step(s, OpenSlot(t, isDir)), CloseSlot(t, i, isDir));
      && s'.claims == s.claims && Free(s'.table, i)
      && forall j: nat | j < |s.table| && j != i :: s'.table[j] == s.table[j]
  {
    var s1 := Step(s, OpenSlot(t, isDir));
    assert Owned(s, i);
    assert s1.claims - {i} == s.claims;
  }

  /** Unmounting empties the table and ends every claim. */
  lemma UnmountEmpties(s: State)
    ensures
      var s' := Step(s, UnmountCard);
      s'.claims == map[] && forall i: nat | i < |s.table| :: Free(s'.table, i)
  {
  }

  /** No call reaches FatFs through a slot while the card is not ready. */
  ghost predicate Unusable(s: State) {
    forall t, id, isDir :: ActsOn(s, UseSlot(t, id, isDir)) == ActsOn(s, CloseSlot(t, id, isDir)) == |s.table|
  }

  /** From an unmount until the next mount no slot can be used or closed, whatever is opened meanwhile. */
  lemma {:induction false} UnusableUntilMount(s: State, cs: seq<Call>)
    requires s.status == NoCard && forall k | 0 <= k < |cs| :: !cs[k].Mount?
    ensures Run(s, cs).status == NoCard && Unusable(Run(s, cs))
    decreases |cs|
  {
    if cs != [] {
      UnusableUntilMount(Step(s, cs[0]), cs[1..]);
    }
  }

  lemma UnmountedIsUnusable(s: State, cs: seq<Call>)
    requires forall k | 0 <= k < |cs| :: !cs[k].Mount?
    ensures Unusable(Run(Step(s, UnmountCard), cs))
  {
    UnusableUntilMount(Step(s, UnmountCard), cs);
  }

  /** What the last mount or unmount made of the card. */
  function LastStatus(cs: seq<Call>, initial: SdError): SdError {
    if cs == [] then initial else
    match cs[|cs| - 1]
    case Mount(status) => status
    case UnmountCard => NoCard
    case _ => LastStatus(cs[..|cs| - 1], initial)
  }

  lemma {:induction false} StatusOfRun(s: State, cs: seq<Call>)
    ensures Run(s, cs).status == LastStatus(cs, s.status)
    decreases |cs|
  {
    if cs != [] {
      StatusOfRun(Step(s, cs[0]), cs[1..]);
      LastStatusFirst(cs, s.status);
    }
  }

  lemma {:induction false} LastStatusFirst(cs: seq<Call>, initial: SdError)
    requires cs != []
    ensures LastStatus(cs, initial) == LastStatus(cs[1..], LastStatus([cs[0]], initial))
  {
    var n := |cs| - 1;
    assert [cs[0]][..0] == [];
    if n == 0 {
      assert cs == [cs[0]] && cs[1..] == [];
    } else {
      LastStatusFirst(cs[..n], initial);
      assert cs[1..][..n - 1] == cs[..n][1..] && cs[1..][n - 1] == cs[n];
    }
  }

  /**
   After any run, a slot can be used exactly while the card is ready, by the thread whose open claimed it and as
   what it was opened as.
   */
  lemma UsableByItsClaim(maxFiles: nat, cs: seq<Call>, t: Thread, id: nat, isDir: bool)
    requires FromThreads(cs) && t != NOBODY
    ensures
      var s := Run(Initial(maxFiles), cs);
      ActsOn(s, UseSlot(t, id, isDir)) < |s.table| <==>
      LastStatus(cs, NoCard) == SdOk && id in s.claims && s.claims[id].thread == t && s.claims[id].isDir == isDir
  {
    var s := Run(Initial(maxFiles), cs);
    SlotsHaveOneClaim(maxFiles, cs);
    StatusOfRun(Initial(maxFiles), cs);
    assert id < |s.table| ==> Owned(s, id);
  }
}
