/**
 The file xCalls as they run: step by step on the kernel's state, the linear buffer and the
 undo action list of one transaction (src/xcalls/x_read.c, x_lseek.c, x_write.c, x_create.c,
 x_rename.c, and the linear buffer of src/core/buffer.c). Each is proved equal to its
 description in Compensation and keeps the transaction recoverable when its guard holds.
 */
module FileXcalls {
  import opened Options
  import opened FileSystem
  import opened Compensation
  import opened FileTransaction
  import opened TxActions
  import DualQueue

  /** txc_buffer_linear_t: only how much of it is in use matters here. */
  class LinearBuffer {
    const sizeMax: nat
    var curLen: nat

    constructor (sizeMax: nat)
      ensures this.sizeMax == sizeMax && curLen == 0
    {
      this.sizeMax, curLen := sizeMax, 0;
    }

    /** The sum of the room test is unsigned and wraps at 2^32. */
    method Malloc(size: nat) returns (ok: bool)
      modifies this
      ensures !ok ==> curLen == old(curLen)
      ensures old(curLen) + size < 0x1_0000_0000 ==>
                (ok <==> old(curLen) + size <= sizeMax) && (ok ==> curLen == old(curLen) + size)
      ensures old(curLen) + size >= 0x1_0000_0000 ==>
                var sum := DualQueue.U32(old(curLen) + size);
                (ok <==> sum <= sizeMax) && (ok ==> curLen == sum)
    {
      if DualQueue.U32(curLen + size) > sizeMax {
        ok := false;
      } else {
        ok, curLen := true, DualQueue.U32(curLen + size);
      }
    }

    /** Two regions, or none. */
    method MallocBoth(first: nat, second: nat) returns (ok: bool)
      requires curLen + first + second < 0x1_0000_0000
      modifies this
      ensures ok <==> old(curLen) + first + second <= sizeMax
      ensures curLen == if ok then old(curLen) + first + second else old(curLen)
    {
      ok := Malloc(first);
      if ok {
        ok := Malloc(second);
        if !ok {
          Free(first);
        }
      }
    }

    method Free(size: nat)
      requires size <= curLen
      modifies this
      ensures curLen == old(curLen) - size
    {
      curLen := curLen - size;
    }

    method Init()
      modifies this
      ensures curLen == 0
    {
      curLen := 0;
    }
  }

  class Transaction {
    var kernel: Fs
    const buffer: LinearBuffer
    const undoList: ActionList<Undo>
    /** The kernel's state when the transaction began. */
    ghost var begun: Fs

    ghost predicate Valid()
      reads this, buffer, undoList, undoList.entries
    {
      && undoList.Valid() && AllRegular(undoList.Contents())
      && buffer.curLen <= buffer.sizeMax == TXC_BUFFER_LINEAR_SIZE
      && FileSystem.Valid(kernel)
    }

    /** The undo records registered so far. */
    ghost function Log(): seq<Undo>
      requires Valid()
      reads this, buffer, undoList, undoList.entries
    {
      Args(undoList.Contents())
    }

    /** The sum of the room test of x_write_ovr stays below 2^32. */
    predicate SumFits(c: Call)
      reads this, buffer
    {
      c.CallWriteOvr? ==> buffer.curLen + SIZEOF_WRITE_ARGS + |c.data| < 0x1_0000_0000
    }

    /** Replaying the log now would bring back the state at the beginning. */
    ghost predicate Recoverable()
      requires Valid()
      reads this, buffer, undoList, undoList.entries
    {
      UndoAll(Log(), kernel) == begun
    }

    constructor (kernel: Fs)
      requires FileSystem.Valid(kernel)
      ensures Valid() && Recoverable() && Log() == []
      ensures this.kernel == kernel == begun && fresh(buffer) && fresh(undoList) && fresh(undoList.entries)
      ensures buffer.curLen == 0 && buffer.sizeMax == TXC_BUFFER_LINEAR_SIZE
    {
      this.kernel, begun := kernel, kernel;
      buffer := new LinearBuffer(TXC_BUFFER_LINEAR_SIZE);
      undoList := new ActionList<Undo>();
    }

    ghost predicate Did(before: Fs, used: nat, log: seq<Undo>, c: Call, ret: int, err: int)
      requires Possible(before, used, buffer.sizeMax, c)
      reads this, buffer, undoList, undoList.entries
    {
      && Valid()
      && var done := Perform(before, used, buffer.sizeMax, c);
         && kernel == done.fs && buffer.curLen == done.used && Log() == log + Logged(done)
         && ret == done.ret && err == done.err
    }

    /** One more registered action is one more record in the log. */
    lemma ArgsGrow(es: seq<Action<Undo>>, a: Action<Undo>)
      ensures Args(es + [a]) == Args(es) + [a.args]
    {
    }

    /** The call's result and log entry keep the transaction recoverable if the guard holds. */
    lemma StaysRecoverable(before: Fs, used: nat, log: seq<Undo>, c: Call, ret: int, err: int)
      requires FileSystem.Valid(before) && Possible(before, used, buffer.sizeMax, c)
      requires Did(before, used, log, c, ret, err)
      requires UndoAll(log, before) == begun && Undoable(before, used, buffer.sizeMax, c)
      ensures Recoverable()
    {
      var done := Perform(before, used, buffer.sizeMax, c);
      CallRestoredIff(before, used, buffer.sizeMax, c);
      UndoAllSplits(log, Logged(done), kernel);
      OneUndo(done);
    }

    method Register(u: Undo, errorCell: Option<nat>)
      requires Valid()
      modifies undoList, undoList.entries
      ensures Valid() && Log() == old(Log()) + [u]
      ensures undoList.entries == old(undoList.entries) || fresh(undoList.entries)
    {
      ArgsGrow(undoList.Contents(), Action(u, errorCell, REGULAR_ACTION_ORDER));
      undoList.Register(u, errorCell, REGULAR_ACTION_ORDER);
    }

    method XRead(fd: nat, n: nat, answer: int, errorCell: Option<nat>) returns (ret: int, err: int, data: Bytes)
      requires Valid() && Possible(kernel, buffer.curLen, buffer.sizeMax, CallRead(fd, n, answer))
      modifies this`kernel, buffer, undoList, undoList.entries
      ensures Did(old(kernel), old(buffer.curLen), old(Log()), CallRead(fd, n, answer), ret, err)
      ensures |data| == if ret < 0 then 0 else ret
      ensures ret > 0 ==>
                && IsOpen(old(kernel), fd)
                && var (at, b) := (Offset(old(kernel), fd), Content(old(kernel), fd));
                   at + ret <= |b| && data == b[at..at + ret]
      ensures undoList.entries == old(undoList.entries) || fresh(undoList.entries)
    {
      KeepsValid(kernel, buffer.curLen, buffer.sizeMax, CallRead(fd, n, answer));
      if !IsOpen(kernel, fd) { return -1, EBADF, []; }
      var ok := buffer.Malloc(SIZEOF_READ_ARGS);
      if !ok { return -1, ENOMEM, []; }
      if answer < 0 {
        buffer.Free(SIZEOF_READ_ARGS);
        return -1, -answer, [];
      }
      var (fs1, bytes) := Read(kernel, fd, answer);
      kernel := fs1;
      Register(UndoRead(fd, answer), errorCell);
      return answer, 0, bytes;
    }

    /** The two ways to find the old position: compute it afterwards, or ask for it before. */
    method Seek(fd: nat, offset: int, whence: Whence) returns (position: int, ret: int)
      requires IsOpen(kernel, fd)
      modifies this`kernel
      ensures var (fs1, moved) := Lseek(old(kernel), fd, offset, whence);
              && kernel == fs1 && ret == (if moved < 0 then -1 else ToInt(moved))
              && position == if whence.SeekCur? then ret - offset else Offset(old(kernel), fd)
    {
      if whence.SeekCur? {
        var (fs1, moved) := Lseek(kernel, fd, offset, whence);
        kernel, ret := fs1, if moved < 0 then -1 else ToInt(moved);
        position := ret - offset;
      } else {
        var (fs1, here) := Lseek(kernel, fd, 0, SeekCur);
        assert fs1 == kernel by { SamePlace(kernel, fd); }
        position := here;
        var (fs2, moved) := Lseek(fs1, fd, offset, whence);
        kernel, ret := fs2, if moved < 0 then -1 else ToInt(moved);
      }
    }

    method XLseek(fd: nat, offset: int, whence: Whence, errorCell: Option<nat>) returns (ret: int, err: int)
      requires Valid()
      modifies this`kernel, buffer, undoList, undoList.entries
      ensures Did(old(kernel), old(buffer.curLen), old(Log()), CallLseek(fd, offset, whence), ret, err)
      ensures undoList.entries == old(undoList.entries) || fresh(undoList.entries)
    {
      KeepsValid(kernel, buffer.curLen, buffer.sizeMax, CallLseek(fd, offset, whence));
      if !IsOpen(kernel, fd) { return -1, EBADF; }
      var ok := buffer.Malloc(SIZEOF_LSEEK_ARGS);
      if !ok { return -1, ENOMEM; }
      var position;
      position, ret := Seek(fd, offset, whence);
      if ret < 0 {
        buffer.Free(SIZEOF_LSEEK_ARGS);
        return ret, EINVAL;
      }
      Register(UndoLseek(fd, position), errorCell);
      return ret, 0;
    }

    method XWriteSeq(fd: nat, data: Bytes, answer: int, errorCell: Option<nat>) returns (ret: int, err: int)
      requires Valid() && Possible(kernel, buffer.curLen, buffer.sizeMax, CallWriteSeq(fd, data, answer))
      modifies this`kernel, buffer, undoList, undoList.entries
      ensures Did(old(kernel), old(buffer.curLen), old(Log()), CallWriteSeq(fd, data, answer), ret, err)
      ensures undoList.entries == old(undoList.entries) || fresh(undoList.entries)
    {
      KeepsValid(kernel, buffer.curLen, buffer.sizeMax, CallWriteSeq(fd, data, answer));
      if !IsOpen(kernel, fd) { return -1, EBADF; }
      var ok := buffer.Malloc(SIZEOF_WRITE_ARGS);
      if !ok { return -1, ENOMEM; }
      if answer < 0 {
        buffer.Free(SIZEOF_WRITE_ARGS);
        return -1, -answer;
      }
      kernel := Write(kernel, fd, data, answer);
      Register(UndoWriteSeq(fd, answer), errorCell);
      return answer, 0;
    }

    /** What is about to be overwritten is read, and the descriptor put back. */
    method ReadAndSeekBack(fd: nat, got: int) returns (saved: Bytes)
      requires IsOpen(kernel, fd) && 0 <= got <= Available(kernel, fd)
      modifies this`kernel
      ensures saved == Read(old(kernel), fd, got).1
      ensures kernel == if got > 0 then Lseek(Read(old(kernel), fd, got).0, fd, -got, SeekCur).0
                        else Read(old(kernel), fd, got).0
    {
      var (fs1, bytes) := Read(kernel, fd, got);
      if got > 0 {
        fs1 := Lseek(fs1, fd, -got, SeekCur).0;
      }
      kernel, saved := fs1, bytes;
    }

    method XWriteOvr(fd: nat, data: Bytes, got: int, answer: int, errorCell: Option<nat>)
      returns (ret: int, err: int)
      requires Valid() && Possible(kernel, buffer.curLen, buffer.sizeMax, CallWriteOvr(fd, data, got, answer))
      requires SumFits(CallWriteOvr(fd, data, got, answer))
      modifies this`kernel, buffer, undoList, undoList.entries
      ensures Did(old(kernel), old(buffer.curLen), old(Log()), CallWriteOvr(fd, data, got, answer), ret, err)
      ensures undoList.entries == old(undoList.entries) || fresh(undoList.entries)
    {
      KeepsValid(kernel, buffer.curLen, buffer.sizeMax, CallWriteOvr(fd, data, got, answer));
      if !IsOpen(kernel, fd) { return -1, EBADF; }
      var ok := buffer.MallocBoth(SIZEOF_WRITE_ARGS, |data|);
      if !ok { return -1, ENOMEM; }
      if got < 0 {
        buffer.Free(|data|);
        buffer.Free(SIZEOF_WRITE_ARGS);
        return -1, -got;
      }
      var saved := ReadAndSeekBack(fd, got);
      if answer < 0 {
        buffer.Free(|data|);
        buffer.Free(SIZEOF_WRITE_ARGS);
        return -1, -answer;
      }
      kernel := Write(kernel, fd, data, answer);
      Register(UndoWriteOvr(fd, saved, answer), errorCell);
      return answer, 0;
    }

    /** Both cases of x_create; the directory steps only. */
    method XCreate(path: string, temp: string, moved: bool, answer: int, back: bool, inode: nat,
                   errorCell: Option<nat>)
      returns (ret: int, err: int)
      requires Valid()
      requires Possible(kernel, buffer.curLen, buffer.sizeMax, CallCreate(path, temp, moved, answer, back, inode))
      modifies this`kernel, buffer, undoList, undoList.entries
      ensures Did(old(kernel), old(buffer.curLen), old(Log()), CallCreate(path, temp, moved, answer, back, inode),
                  ret, err)
      ensures undoList.entries == old(undoList.entries) || fresh(undoList.entries)
    {
      KeepsValid(kernel, buffer.curLen, buffer.sizeMax, CallCreate(path, temp, moved, answer, back, inode));
      if path !in kernel.names {
        if answer < 0 { return -1, -answer; }
        kernel := Open(kernel, path, answer, inode);
        var _ := buffer.Malloc(SIZEOF_CREATE_NEW_ARGS);
        Register(UndoCreateNew(answer, path), errorCell);
      } else {
        kernel := TryRename(kernel, path, temp, moved);
        if answer < 0 {
          kernel := TryRename(kernel, temp, path, back);
          return -1, -answer;
        }
        kernel := Open(kernel, path, answer, inode);
        var _ := buffer.Malloc(SIZEOF_CREATE_OVER_ARGS);
        Register(UndoCreateOver(answer, temp, path), errorCell);
      }
      return answer, 0;
    }

    method XRename(oldPath: string, newPath: string, temp: string, moved: bool, linked: bool, errorCell: Option<nat>)
      returns (ret: int, err: int)
      requires Valid()
      requires Possible(kernel, buffer.curLen, buffer.sizeMax, CallRename(oldPath, newPath, temp, moved, linked))
      modifies this`kernel, buffer, undoList, undoList.entries
      ensures Did(old(kernel), old(buffer.curLen), old(Log()), CallRename(oldPath, newPath, temp, moved, linked),
                  ret, err)
      ensures undoList.entries == old(undoList.entries) || fresh(undoList.entries)
    {
      KeepsValid(kernel, buffer.curLen, buffer.sizeMax, CallRename(oldPath, newPath, temp, moved, linked));
      if oldPath !in kernel.names { return -1, ENOENT; }
      var targetExisted := newPath in kernel.names;
      if targetExisted {
        kernel := TryRename(kernel, newPath, temp, moved);
      }
      kernel := TryLink(kernel, oldPath, newPath, linked);
      var _ := buffer.Malloc(SIZEOF_RENAME_ARGS);
      Register(UndoRename(newPath, temp, targetExisted), errorCell);
      return 0, 0;
    }

    /** lseek(fd, -n, SEEK_CUR) of an undo action; the error code is zero on success. */
    method StepBack(fd: nat, n: int) returns (err: int)
      modifies this`kernel
      ensures (kernel, err) == SeekBack(old(kernel), fd, n)
    {
      if !IsOpen(kernel, fd) { return EBADF; }
      var (fs1, ret) := Lseek(kernel, fd, -n, SeekCur);
      kernel := fs1;
      return if ret < 0 then -ret else 0;
    }

    /** The undo actions as they run, one kernel call after the other. */
    method UndoAction(u: Undo) returns (err: int)
      modifies this`kernel
      ensures (kernel, err) == Replay(u, old(kernel))
    {
      match u {
        case UndoRead(fd, nbyte) => err := StepBack(fd, nbyte);
        case UndoLseek(fd, position) =>
          if !IsOpen(kernel, fd) { return EBADF; }
          var (fs1, ret) := Lseek(kernel, fd, position, SeekSet);
          kernel := fs1;
          return if ret < 0 then -ret else 0;
        case UndoWriteSeq(fd, nbyteNew) =>
          err := StepBack(fd, nbyteNew);
          if err != 0 { return err; }
          kernel := Ftruncate(kernel, fd, Offset(kernel, fd));
        case UndoWriteOvr(fd, saved, nbyteNew) =>
          err := StepBack(fd, nbyteNew);
          if err != 0 { return err; }
          var offset := Offset(kernel, fd);
          if |saved| < nbyteNew {
            kernel := Ftruncate(kernel, fd, offset);
          }
          kernel := Pwrite(kernel, fd, saved, offset);
        case UndoCreateNew(fd, path) =>
          var (fs1, err1) := Unlink(kernel, path);
          var (fs2, err2) := Close(fs1, fd);
          kernel := fs2;
          err := if err1 != 0 then err1 else err2;
        case UndoCreateOver(fd, temp, original) =>
          var (fs1, err1) := Unlink(kernel, original);
          var (fs2, err2) := Rename(fs1, temp, original);
          var (fs3, err3) := Close(fs2, fd);
          kernel := fs3;
          err := if err1 != 0 then err1 else if err2 != 0 then err2 else err3;
        case UndoRename(newPath, temp, targetExisted) =>
          var (fs1, err1) := Unlink(kernel, newPath);
          kernel, err := fs1, err1;
          if targetExisted {
            var (fs2, err2) := Rename(kernel, temp, newPath);
            kernel := fs2;
            if err2 != 0 { err := err2; }
          }
      }
    }

    /** Rolling back: the generic undo action with these undo actions, then txc_tx_init. */
    method Abort(cells: map<nat, int>) returns (firstError: int, now: map<nat, int>)
      requires Valid() && Recoverable()
      modifies this`kernel, buffer, undoList
      ensures undoList.Valid() && undoList.Contents() == [] && buffer.curLen == 0
      ensures kernel == begun
      ensures firstError == 0 <==> UndoSilent(old(Log()), old(kernel))
      ensures var es := old(undoList.Contents());
              && InRange(Schedule(es, true), |es|)
              && Passed(es, Replay, Schedule(es, true),
                        Outcome(old(kernel), cells, 0), Outcome(kernel, now, firstError))
    {
      var o := GenericUndo(undoList, Replay, kernel, cells);
      GenericUndoIsUndoAll(old(undoList.Contents()), kernel, cells);
      kernel := o.state;
      buffer.Init();
      return o.firstError, o.cells;
    }

    /** Any call of the interface, keeping the promise for the whole transaction. */
    method Call(c: Call) returns (ret: int, err: int)
      requires Valid() && Recoverable() && Possible(kernel, buffer.curLen, buffer.sizeMax, c)
      requires Undoable(kernel, buffer.curLen, buffer.sizeMax, c) && SumFits(c)
      modifies this`kernel, buffer, undoList, undoList.entries
      ensures Did(old(kernel), old(buffer.curLen), old(Log()), c, ret, err)
      ensures Recoverable() && begun == old(begun)
      ensures undoList.entries == old(undoList.entries) || fresh(undoList.entries)
    {
      match c {
        case CallRead(fd, n, answer) =>
          var data;
          ret, err, data := XRead(fd, n, answer, None);
        case CallLseek(fd, offset, whence) => ret, err := XLseek(fd, offset, whence, None);
        case CallWriteSeq(fd, data, answer) => ret, err := XWriteSeq(fd, data, answer, None);
        case CallWriteOvr(fd, data, got, answer) => ret, err := XWriteOvr(fd, data, got, answer, None);
        case CallCreate(path, temp, moved, answer, back, inode) =>
          ret, err := XCreate(path, temp, moved, answer, back, inode, None);
        case CallRename(oldPath, newPath, temp, moved, linked) =>
          ret, err := XRename(oldPath, newPath, temp, moved, linked, None);
      }
      StaysRecoverable(old(kernel), old(buffer.curLen), old(Log()), c, ret, err);
    }
  }
}
