/**
 Whole transactions of compensating file xCalls: any sequence of calls, on any descriptors
 and names, followed by the generic undo action, brings the kernel back to where the
 transaction began.
 */
module FileTransaction {
  import opened Options
  import opened FileSystem
  import opened Compensation
  import opened TxActions

  /** One xCall with the answers of the kernel calls it makes. */
  datatype Call =
    | CallRead(fd: nat, n: nat, answer: int)
    | CallLseek(fd: nat, offset: int, whence: Whence)
    | CallWriteSeq(fd: nat, data: Bytes, answer: int)
    | CallWriteOvr(fd: nat, data: Bytes, got: int, answer: int)
    | CallCreate(path: string, temp: string, moved: bool, answer: int, back: bool, inode: nat)
    | CallRename(oldPath: string, newPath: string, temp: string, moved: bool, linked: bool)

  /** The kernel can give these answers, the temporary name is fresh, the names' record fits. */
  predicate Possible(fs: Fs, used: nat, max: nat, c: Call) {
    match c
    case CallRead(fd, n, answer) => ReadAnswer(fs, fd, n, answer)
    case CallLseek(_, _, _) => true
    case CallWriteSeq(_, data, answer) => answer <= |data|
    case CallWriteOvr(fd, data, got, answer) => ReadAnswer(fs, fd, |data|, got) && answer <= |data|
    case CallCreate(path, temp, _, answer, _, inode) =>
      && temp !in fs.names && OpenAnswer(fs, answer, inode)
      && (answer >= 0 ==> used + CreateRecord(fs, path, temp, answer).1 <= max)
    case CallRename(oldPath, _, temp, _, _) =>
      temp !in fs.names && (oldPath in fs.names ==> used + SIZEOF_RENAME_ARGS <= max)
  }

  function Perform(fs: Fs, used: nat, max: nat, c: Call): Done
    requires Possible(fs, used, max, c)
  {
    match c
    case CallRead(fd, n, answer) => XRead(fs, used, max, fd, n, answer)
    case CallLseek(fd, offset, whence) => XLseek(fs, used, max, fd, offset, whence)
    case CallWriteSeq(fd, data, answer) => XWriteSeq(fs, used, max, fd, data, answer)
    case CallWriteOvr(fd, data, got, answer) => XWriteOvr(fs, used, max, fd, data, got, answer)
    case CallCreate(path, temp, moved, answer, back, inode) =>
      XCreate(fs, used, path, temp, moved, answer, back, inode)
    case CallRename(oldPath, newPath, temp, moved, linked) =>
      XRename(fs, used, oldPath, newPath, temp, moved, linked)
  }

  /** What must hold when the call is made for its undo action to bring everything back. */
  predicate Undoable(fs: Fs, used: nat, max: nat, c: Call) {
    match c
    case CallLseek(fd, offset, whence) =>
      IsOpen(fs, fd) && used + SIZEOF_LSEEK_ARGS <= max ==>
      var moved := Lseek(fs, fd, offset, whence).1;
      moved < 0 || if ToInt(moved) < 0 then moved == Offset(fs, fd)
                   else whence.SeekCur? ==> moved <= 0x7fff_ffff
    case CallWriteSeq(fd, data, answer) =>
      IsOpen(fs, fd) && used + SIZEOF_WRITE_ARGS <= max && answer >= 0 ==>
      Offset(fs, fd) == |Content(fs, fd)|
    case CallWriteOvr(fd, data, got, answer) =>
      IsOpen(fs, fd) && used + SIZEOF_WRITE_ARGS + |data| <= max && got >= 0 ==>
      answer <= got || Offset(fs, fd) + got == |Content(fs, fd)|
    case CallCreate(path, _, moved, answer, back, _) => CreateGuard(fs, path, moved, answer, back)
    case CallRename(oldPath, newPath, _, moved, _) => RenameGuard(fs, oldPath, newPath, moved)
    case CallRead(_, _, _) => true
  }

  /** The guard is exact: a call is undone if and only if it holds, for every call and state. */
  lemma CallRestoredIff(fs: Fs, used: nat, max: nat, c: Call)
    requires Valid(fs) && Possible(fs, used, max, c)
    ensures Restorable(fs, Perform(fs, used, max, c)) <==> Undoable(fs, used, max, c)
  {
    match c
    case CallRead(fd, n, answer) => ReadRestored(fs, used, max, fd, n, answer);
    case CallLseek(fd, offset, whence) =>
      if IsOpen(fs, fd) && used + SIZEOF_LSEEK_ARGS <= max {
        LseekRestoredIff(fs, used, max, fd, offset, whence);
      }
    case CallWriteSeq(fd, data, answer) =>
      if IsOpen(fs, fd) && used + SIZEOF_WRITE_ARGS <= max && answer >= 0 {
        WriteSeqRestoredIff(fs, used, max, fd, data, answer);
      }
    case CallWriteOvr(fd, data, got, answer) =>
      if IsOpen(fs, fd) && used + SIZEOF_WRITE_ARGS + |data| <= max && got >= 0 && answer >= 0 {
        WriteOvrRestoredIff(fs, used, max, fd, data, got, answer);
      } else {
        OvrFailureKeeps(fs, used, max, fd, data, got, answer);
      }
    case CallCreate(path, temp, moved, answer, back, inode) =>
      CreateRestoredIff(fs, used, path, temp, moved, answer, back, inode);
    case CallRename(oldPath, newPath, temp, moved, linked) =>
      RenameRestoredIff(fs, used, oldPath, newPath, temp, moved, linked);
  }

  /** With reads that are short only at the end of the file, the guard for overwrites is where they start. */
  lemma OverwriteGuard(fs: Fs, used: nat, max: nat, fd: nat, data: Bytes, got: int, answer: int)
    requires IsOpen(fs, fd) && used + SIZEOF_WRITE_ARGS + |data| <= max && answer <= |data|
    requires got == if Available(fs, fd) < |data| then Available(fs, fd) else |data|
    ensures Undoable(fs, used, max, CallWriteOvr(fd, data, got, answer)) <==>
            answer <= 0 || Offset(fs, fd) <= |Content(fs, fd)|
  {
  }

  /** A call that returns an error leaves the linear buffer as it was and registers nothing. */
  lemma FailureRegistersNothing(fs: Fs, used: nat, max: nat, c: Call)
    requires Possible(fs, used, max, c)
    ensures var done := Perform(fs, used, max, c);
            && (done.undo == None <==> done.ret < 0) && (done.ret < 0 <==> done.err != 0)
            && (done.ret < 0 ==> done.used == used) && used <= done.used
            && (used <= max ==> done.used <= max)
  {
  }

  /** A call on a descriptor, and how much of the linear buffer it needs. */
  predicate OnDescriptor(c: Call) {
    c.CallRead? || c.CallLseek? || c.CallWriteSeq? || c.CallWriteOvr?
  }

  function Needs(c: Call): nat
    requires OnDescriptor(c)
  {
    match c
    case CallRead(_, _, _) => SIZEOF_READ_ARGS
    case CallLseek(_, _, _) => SIZEOF_LSEEK_ARGS
    case CallWriteSeq(_, _, _) => SIZEOF_WRITE_ARGS
    case CallWriteOvr(_, data, _, _) => SIZEOF_WRITE_ARGS + |data|
  }

  /** Why a call fails: closed descriptor, no room, the kernel's own error, a missing name; and what it returns. */
  lemma FailureReason(fs: Fs, used: nat, max: nat, c: Call)
    requires Possible(fs, used, max, c)
    ensures var done := Perform(fs, used, max, c);
            && (OnDescriptor(c) ==>
                  && (!IsOpen(fs, c.fd) ==> done.ret == -1 && done.err == EBADF && done.fs == fs)
                  && (IsOpen(fs, c.fd) && used + Needs(c) > max ==>
                        done.ret == -1 && done.err == ENOMEM && done.fs == fs)
                  && (IsOpen(fs, c.fd) && used + Needs(c) <= max ==>
                        && (c.CallWriteOvr? && c.got < 0 ==> done.ret == -1 && done.err == -c.got)
                        && (!c.CallLseek? && c.answer < 0 && (c.CallWriteOvr? ==> c.got >= 0) ==>
                              done.ret == -1 && done.err == -c.answer)
                        && (!c.CallLseek? && c.answer >= 0 && (c.CallWriteOvr? ==> c.got >= 0) ==>
                              done.ret == c.answer && done.err == 0)))
            && (c.CallCreate? ==>
                  if c.answer < 0 then done.ret == -1 && done.err == -c.answer
                  else done.ret == c.answer && done.err == 0)
            && (c.CallRename? ==>
                  if c.oldPath in fs.names then done.ret == 0 && done.err == 0
                  else done.ret == -1 && done.err == ENOENT && done.fs == fs)
  {
  }

  lemma KeepsValid(fs: Fs, used: nat, max: nat, c: Call)
    requires Valid(fs) && Possible(fs, used, max, c)
    ensures Valid(Perform(fs, used, max, c).fs)
  {
    match c
    case CallRead(fd, n, answer) => ReadKeepsValid(fs, used, max, fd, n, answer);
    case CallLseek(fd, offset, whence) => LseekKeepsValid(fs, used, max, fd, offset, whence);
    case CallWriteSeq(fd, data, answer) => WriteSeqKeepsValid(fs, used, max, fd, data, answer);
    case CallWriteOvr(fd, data, got, answer) => WriteOvrKeepsValid(fs, used, max, fd, data, got, answer);
    case CallCreate(path, temp, moved, answer, back, inode) =>
      CreateRestoredIff(fs, used, path, temp, moved, answer, back, inode);
    case CallRename(oldPath, newPath, temp, moved, linked) =>
      RenameRestoredIff(fs, used, oldPath, newPath, temp, moved, linked);
  }

  // ---------------------------------------------------------------- whole runs

  /** The undo log, last record first. */
  function UndoAll(log: seq<Undo>, fs: Fs): Fs {
    if log == [] then fs else UndoAll(log[..|log| - 1], Replay(log[|log| - 1], fs).0)
  }

  /** No undo action reports an error. */
  predicate UndoSilent(log: seq<Undo>, fs: Fs) {
    if log == [] then true
    else
      var (fs1, err) := Replay(log[|log| - 1], fs);
      err == 0 && UndoSilent(log[..|log| - 1], fs1)
  }

  function Logged(done: Done): seq<Undo> {
    if done.undo.Some? then [done.undo.value] else []
  }

  /** All calls are possible when they are made. */
  predicate PossibleRun(fs: Fs, used: nat, max: nat, calls: seq<Call>)
    decreases |calls|
  {
    calls == [] || (Possible(fs, used, max, calls[0]) &&
                    var done := Perform(fs, used, max, calls[0]);
                    PossibleRun(done.fs, done.used, max, calls[1..]))
  }

  /** All calls meet their guard when they are made. */
  predicate UndoableRun(fs: Fs, used: nat, max: nat, calls: seq<Call>)
    requires PossibleRun(fs, used, max, calls)
    decreases |calls|
  {
    calls == [] || (Undoable(fs, used, max, calls[0]) &&
                    var done := Perform(fs, used, max, calls[0]);
                    UndoableRun(done.fs, done.used, max, calls[1..]))
  }

  /** A rename that makes no link, as to the file's own name: its undo works, but reports ENOENT. */
  predicate MakesNoLink(fs: Fs, c: Call) {
    c.CallRename? && c.oldPath in fs.names && (!c.linked || c.oldPath == c.newPath)
  }

  predicate NoLinkInRun(fs: Fs, used: nat, max: nat, calls: seq<Call>)
    requires PossibleRun(fs, used, max, calls)
    decreases |calls|
  {
    calls != [] && (MakesNoLink(fs, calls[0]) ||
                    var done := Perform(fs, used, max, calls[0]);
                    NoLinkInRun(done.fs, done.used, max, calls[1..]))
  }

  /** The kernel after the calls and the log they have left. */
  function Run(fs: Fs, used: nat, max: nat, calls: seq<Call>): (Fs, seq<Undo>)
    requires PossibleRun(fs, used, max, calls)
    decreases |calls|
  {
    if calls == [] then (fs, [])
    else
      var done := Perform(fs, used, max, calls[0]);
      var (fs1, log) := Run(done.fs, done.used, max, calls[1..]);
      (fs1, Logged(done) + log)
  }

  lemma {:induction false} UndoAllSplits(first: seq<Undo>, log: seq<Undo>, fs: Fs)
    ensures UndoAll(first + log, fs) == UndoAll(first, UndoAll(log, fs))
    ensures UndoSilent(first + log, fs) <==> UndoSilent(log, fs) && UndoSilent(first, UndoAll(log, fs))
    decreases |log|
  {
    if log == [] {
      assert first + log == first;
    } else {
      var n := |log| - 1;
      assert (first + log)[..|first + log| - 1] == first + log[..n];
      UndoAllSplits(first, log[..n], Replay(log[n], fs).0);
    }
  }

  lemma OneUndo(done: Done)
    ensures UndoAll(Logged(done), done.fs) == if done.undo.Some? then Replay(done.undo.value, done.fs).0 else done.fs
    ensures UndoSilent(Logged(done), done.fs) <==> (done.undo.Some? ==> Replay(done.undo.value, done.fs).1 == 0)
  {
    if done.undo.Some? { assert Logged(done)[..0] == []; }
  }

  lemma OvrUndoSilent(fs: Fs, used: nat, max: nat, fd: nat, data: Bytes, got: int, answer: int)
    requires Possible(fs, used, max, CallWriteOvr(fd, data, got, answer))
    ensures var done := XWriteOvr(fs, used, max, fd, data, got, answer);
            done.undo.Some? ==> Replay(done.undo.value, done.fs).1 == 0
  {
    if IsOpen(fs, fd) && used + SIZEOF_WRITE_ARGS + |data| <= max && got >= 0 && answer >= 0 {
      OvrWrites(fs, used, max, fd, data, got, answer);
    }
  }

  lemma DescriptorUndoSilent(fs: Fs, used: nat, max: nat, c: Call)
    requires Possible(fs, used, max, c) && Undoable(fs, used, max, c)
    requires c.CallRead? || c.CallLseek? || c.CallWriteSeq?
    ensures var done := Perform(fs, used, max, c);
            done.undo.Some? ==> Replay(done.undo.value, done.fs).1 == 0
  {
  }

  /** The undo action of an undoable call reports an error only for a rename that has made no link. */
  lemma {:induction false} UndoErrorIff(fs: Fs, used: nat, max: nat, c: Call)
    requires Valid(fs) && Possible(fs, used, max, c) && Undoable(fs, used, max, c)
    ensures var done := Perform(fs, used, max, c);
            done.undo.Some? ==> (Replay(done.undo.value, done.fs).1 != 0 <==> MakesNoLink(fs, c))
  {
    match c
    case CallWriteOvr(fd, data, got, answer) => OvrUndoSilent(fs, used, max, fd, data, got, answer);
    case CallCreate(path, temp, moved, answer, back, inode) =>
      CreateRestoredIff(fs, used, path, temp, moved, answer, back, inode);
    case CallRename(oldPath, newPath, temp, moved, linked) =>
      RenameRestoredIff(fs, used, oldPath, newPath, temp, moved, linked);
    case _ => DescriptorUndoSilent(fs, used, max, c);
  }

  /**
   Undoing the log of any run restores the kernel: every file's bytes and length, every
   offset, every name and every descriptor. No undo action fails unless a rename of the run has
   made no link.
   */
  lemma {:induction false} RunRestores(fs: Fs, used: nat, max: nat, calls: seq<Call>)
    requires Valid(fs) && PossibleRun(fs, used, max, calls) && UndoableRun(fs, used, max, calls)
    ensures var (end, log) := Run(fs, used, max, calls);
            && UndoAll(log, end) == fs && Valid(end)
            && (UndoSilent(log, end) <==> !NoLinkInRun(fs, used, max, calls))
    decreases |calls|
  {
    if calls != [] {
      var done := Perform(fs, used, max, calls[0]);
      KeepsValid(fs, used, max, calls[0]);
      CallRestoredIff(fs, used, max, calls[0]);
      UndoErrorIff(fs, used, max, calls[0]);
      RunRestores(done.fs, done.used, max, calls[1..]);
      var (end, log) := Run(done.fs, done.used, max, calls[1..]);
      UndoAllSplits(Logged(done), log, end);
      OneUndo(done);
      if MakesNoLink(fs, calls[0]) { assert done.undo.Some?; }
    }
  }

  // ---------------------------------------------------------------- the generic undo action

  function Args(es: seq<Action<Undo>>): (r: seq<Undo>)
    ensures |r| == |es|
  {
    seq(|es|, i requires 0 <= i < |es| => es[i].args)
  }

  /** All compensating calls register their undo actions on the regular level. */
  predicate AllRegular(es: seq<Action<Undo>>) {
    forall j :: 0 <= j < |es| ==> es[j].order == REGULAR_ACTION_ORDER
  }

  lemma {:induction false} ExecPrefix(es: seq<Action<Undo>>, t: seq<nat>, o: Outcome<Fs>, k: nat)
    requires |t| == |es| && InRange(t, |es|) && k <= |es|
    requires forall i :: 0 <= i < |es| ==> t[i] == |es| - 1 - i
    ensures var mid := Exec(es, Replay, t[..k], o);
            && UndoAll(Args(es), o.state) == UndoAll(Args(es)[..|es| - k], mid.state)
            && (o.firstError == 0 ==>
                (UndoSilent(Args(es), o.state) <==>
                 mid.firstError == 0 && UndoSilent(Args(es)[..|es| - k], mid.state)))
  {
    if k == 0 {
      assert Args(es)[..|es|] == Args(es);
    } else {
      ExecPrefix(es, t, o, k - 1);
      assert t[..k][..k - 1] == t[..k - 1];
      var n := |es| - k;
      var log, mid := Args(es)[..n + 1], Exec(es, Replay, t[..k - 1], o);
      assert log[..n] == Args(es)[..n] && log[n] == es[t[k - 1]].args;
      assert UndoAll(log, mid.state) == UndoAll(log[..n], Replay(log[n], mid.state).0);
    }
  }

  /** tx_generic_undo_action on regular actions is the reverse replay of their records. */
  lemma {:induction false} GenericUndoIsUndoAll(es: seq<Action<Undo>>, fs: Fs, cells: map<nat, int>)
    requires AllRegular(es) && InRange(Schedule(es, true), |es|)
    ensures var o := Exec(es, Replay, Schedule(es, true), Outcome(fs, cells, 0));
            && o.state == UndoAll(Args(es), fs)
            && (o.firstError == 0 <==> UndoSilent(Args(es), fs))
  {
    var t := Schedule(es, true);
    ScheduleRunsAllOnce(es, true);
    forall i: nat | i < |es| ensures t[i] == |es| - 1 - i { RegularUndoIsReverse(es, i); }
    ExecPrefix(es, t, Outcome(fs, cells, 0), |es|);
    assert t[..|es|] == t;
  }
}
