/**
 The compensating file xCalls and their undo actions as functions on the kernel's state
 (src/xcalls/x_read.c, x_lseek.c, x_write.c, x_create.c, x_rename.c), and when an undo
 action restores what its call has changed.
 */
module Compensation {
  import opened Options
  import opened FileSystem

  /** The argument records the calls leave in the linear buffer for their undo actions. */
  datatype Undo =
    | UndoRead(fd: nat, nbyte: int)
    | UndoLseek(fd: nat, oldPosition: int)
    | UndoWriteSeq(fd: nat, nbyteNew: nat)
    | UndoWriteOvr(fd: nat, saved: Bytes, nbyteNew: nat)
    | UndoCreateNew(fd: nat, path: string)
    | UndoCreateOver(fd: nat, temp: string, original: string)
    | UndoRename(newPath: string, temp: string, targetExisted: bool)

  /** A call's effect: kernel, linear buffer, the record it registers, returned value, error code. */
  datatype Done = Done(fs: Fs, used: nat, undo: Option<Undo>, ret: int, err: int)

  const TXC_BUFFER_LINEAR_SIZE: nat := 1024 * 256
  const SIZEOF_READ_ARGS: nat := 8
  const SIZEOF_LSEEK_ARGS: nat := 16
  const SIZEOF_WRITE_ARGS: nat := 24
  const SIZEOF_CREATE_NEW_ARGS: nat := 144
  const SIZEOF_CREATE_OVER_ARGS: nat := 272
  const SIZEOF_RENAME_ARGS: nat := 408

  /** Conversion to a 32-bit int. */
  function ToInt(x: int): int {
    (x + 0x8000_0000) % 0x1_0000_0000 - 0x8000_0000
  }

  // ---------------------------------------------------------------- the undo actions

  function Replay(u: Undo, fs: Fs): (Fs, int) {
    match u
    case UndoRead(fd, nbyte) => SeekBack(fs, fd, nbyte)
    case UndoLseek(fd, position) =>
      if !IsOpen(fs, fd) then (fs, EBADF)
      else var (fs1, ret) := Lseek(fs, fd, position, SeekSet); (fs1, if ret < 0 then -ret else 0)
    case UndoWriteSeq(fd, nbyteNew) =>
      var (fs1, err) := SeekBack(fs, fd, nbyteNew);
      if err != 0 then (fs1, err) else (Ftruncate(fs1, fd, Offset(fs1, fd)), 0)
    case UndoWriteOvr(fd, saved, nbyteNew) =>
      var (fs1, err) := SeekBack(fs, fd, nbyteNew);
      if err != 0 then (fs1, err)
      else
        var fs2 := if |saved| < nbyteNew then Ftruncate(fs1, fd, Offset(fs1, fd)) else fs1;
        (Pwrite(fs2, fd, saved, Offset(fs1, fd)), 0)
    case UndoCreateNew(fd, path) =>
      var (fs1, err1) := Unlink(fs, path);
      var (fs2, err2) := Close(fs1, fd);
      (fs2, if err1 != 0 then err1 else err2)
    case UndoCreateOver(fd, temp, original) =>
      var (fs1, err1) := Unlink(fs, original);
      var (fs2, err2) := Rename(fs1, temp, original);
      var (fs3, err3) := Close(fs2, fd);
      (fs3, if err1 != 0 then err1 else if err2 != 0 then err2 else err3)
    case UndoRename(newPath, temp, targetExisted) =>
      var (fs1, err1) := Unlink(fs, newPath);
      if !targetExisted then (fs1, err1)
      else var (fs2, err2) := Rename(fs1, temp, newPath); (fs2, if err2 != 0 then err2 else err1)
  }

  /** lseek(fd, -n, SEEK_CUR) and its error code. */
  function SeekBack(fs: Fs, fd: nat, n: int): (r: (Fs, int))
    ensures r.1 == 0 ==> IsOpen(r.0, fd)
  {
    if !IsOpen(fs, fd) then (fs, EBADF)
    else var (fs1, ret) := Lseek(fs, fd, -n, SeekCur); (fs1, if ret < 0 then -ret else 0)
  }

  // ---------------------------------------------------------------- the calls

  function XRead(fs: Fs, used: nat, max: nat, fd: nat, n: nat, answer: int): Done
    requires ReadAnswer(fs, fd, n, answer)
  {
    if !IsOpen(fs, fd) then Done(fs, used, None, -1, EBADF)
    else if used + SIZEOF_READ_ARGS > max then Done(fs, used, None, -1, ENOMEM)
    else if answer < 0 then Done(fs, used, None, -1, -answer)
    else Done(Read(fs, fd, answer).0, used + SIZEOF_READ_ARGS, Some(UndoRead(fd, answer)), answer, 0)
  }

  /** The returned offset goes through an int variable, which the error test and SEEK_CUR use. */
  function XLseek(fs: Fs, used: nat, max: nat, fd: nat, offset: int, whence: Whence): Done {
    if !IsOpen(fs, fd) then Done(fs, used, None, -1, EBADF)
    else if used + SIZEOF_LSEEK_ARGS > max then Done(fs, used, None, -1, ENOMEM)
    else
      var (fs1, moved) := Lseek(fs, fd, offset, whence);
      var ret := ToInt(moved);
      if ret < 0 then Done(fs1, used, None, if moved < 0 then -1 else ret, EINVAL)
      else
        var position := if whence.SeekCur? then ret - offset else Offset(fs, fd);
        Done(fs1, used + SIZEOF_LSEEK_ARGS, Some(UndoLseek(fd, position)), ret, 0)
  }

  function XWriteSeq(fs: Fs, used: nat, max: nat, fd: nat, data: Bytes, answer: int): Done
    requires answer <= |data|
  {
    if !IsOpen(fs, fd) then Done(fs, used, None, -1, EBADF)
    else if used + SIZEOF_WRITE_ARGS > max then Done(fs, used, None, -1, ENOMEM)
    else if answer < 0 then Done(fs, used, None, -1, -answer)
    else
      Done(Write(fs, fd, data, answer), used + SIZEOF_WRITE_ARGS, Some(UndoWriteSeq(fd, answer)), answer, 0)
  }

  /** Reads the old data, seeks back over them, writes; `got` and `answer` are what read and write say. */
  function XWriteOvr(fs: Fs, used: nat, max: nat, fd: nat, data: Bytes, got: int, answer: int): Done
    requires ReadAnswer(fs, fd, |data|, got) && answer <= |data|
  {
    if !IsOpen(fs, fd) then Done(fs, used, None, -1, EBADF)
    else if used + SIZEOF_WRITE_ARGS > max then Done(fs, used, None, -1, ENOMEM)
    else if used + SIZEOF_WRITE_ARGS + |data| > max then Done(fs, used, None, -1, ENOMEM)
    else if got < 0 then Done(fs, used, None, -1, -got)
    else
      var (fs1, saved) := Read(fs, fd, got);
      var fs2 := if got > 0 then Lseek(fs1, fd, -got, SeekCur).0 else fs1;
      if answer < 0 then Done(fs2, used, None, -1, -answer)
      else
        Done(Write(fs2, fd, data, answer), used + SIZEOF_WRITE_ARGS + |data|, Some(UndoWriteOvr(fd, saved, answer)),
             answer, 0)
  }

  /** The record of x_create; without room for it the program ends. */
  function CreateRecord(fs: Fs, path: string, temp: string, answer: nat): (Undo, nat) {
    if path !in fs.names then (UndoCreateNew(answer, path), SIZEOF_CREATE_NEW_ARGS)
    else (UndoCreateOver(answer, temp, path), SIZEOF_CREATE_OVER_ARGS)
  }

  /**
   Creates a file after moving an existing one out of the way; `moved` and `back` say whether
   the kernel grants the two renames, `answer` is what open says.
   */
  function XCreate(fs: Fs, used: nat, path: string, temp: string, moved: bool, answer: int, back: bool, inode: nat)
    : Done
    requires OpenAnswer(fs, answer, inode)
  {
    var existed := path in fs.names;
    var fs1 := if existed then TryRename(fs, path, temp, moved) else fs;
    if answer < 0 then Done(if existed then TryRename(fs1, temp, path, back) else fs1, used, None, -1, -answer)
    else
      var (undo, size) := CreateRecord(fs, path, temp, answer);
      Done(Open(fs1, path, answer, inode), used + size, Some(undo), answer, 0)
  }

  /** Gives the file a second name after moving an existing target out of the way; nobody looks whether either works. */
  function XRename(fs: Fs, used: nat, oldPath: string, newPath: string, temp: string, moved: bool, linked: bool): Done {
    if oldPath !in fs.names then Done(fs, used, None, -1, ENOENT)
    else
      var existed := newPath in fs.names;
      var fs1 := if existed then TryRename(fs, newPath, temp, moved) else fs;
      Done(TryLink(fs1, oldPath, newPath, linked), used + SIZEOF_RENAME_ARGS,
           Some(UndoRename(newPath, temp, existed)), 0, 0)
  }

  // ---------------------------------------------------------------- what the calls do

  /** Names, the other descriptors and the other files are as before; `fd` is open on the same file. */
  ghost predicate OnlyDescriptor(fs: Fs, after: Fs, fd: nat) {
    && IsOpen(fs, fd) && IsOpen(after, fd) && after.names == fs.names
    && after.fds.Keys == fs.fds.Keys && after.files.Keys == fs.files.Keys
    && after.fds[fd].inode == fs.fds[fd].inode
    && (forall d :: d in fs.fds && d != fd ==> after.fds[d] == fs.fds[d])
    && (forall i :: i in fs.files && i != fs.fds[fd].inode ==> after.files[i] == fs.files[i])
  }

  /** `data` replaces the bytes from `at` on; a gap in front of it reads as zeros. */
  ghost predicate Overwritten(before: Bytes, after: Bytes, at: nat, data: Bytes) {
    if data == [] then after == before
    else
      && |after| == (if at + |data| < |before| then |before| else at + |data|)
      && forall i :: 0 <= i < |after| ==>
           after[i] == if at <= i < at + |data| then data[i - at] else if i < |before| then before[i] else 0
  }

  /** The descriptor has written `data` where it stood. */
  ghost predicate Wrote(fs: Fs, after: Fs, fd: nat, data: Bytes) {
    && OnlyDescriptor(fs, after, fd)
    && Offset(after, fd) == Offset(fs, fd) + |data|
    && Overwritten(Content(fs, fd), Content(after, fd), Offset(fs, fd), data)
  }

  /** Whatever the call has done, it reports success, and its record is registered and fits. */
  ghost predicate Succeeds(done: Done, used: nat, size: nat, undo: Undo, ret: int) {
    done.used == used + size && done.undo == Some(undo) && done.ret == ret && done.err == 0
  }

  lemma ResizeIs(b: Bytes, n: nat)
    ensures |Resize(b, n)| == n
    ensures forall i :: 0 <= i < n ==> Resize(b, n)[i] == if i < |b| then b[i] else 0
  {
  }

  lemma WriteAtIs(b: Bytes, at: nat, data: Bytes)
    ensures Overwritten(b, WriteAt(b, at, data), at, data)
  {
    if data != [] {
      var end, front := at + |data|, Resize(b, at);
      var rest := if end < |b| then b[end..] else [];
      ResizeIs(b, at);
      assert WriteAt(b, at, data) == front + data + rest;
      ThreeParts(front, data, rest, b, at, end);
    }
  }

  lemma ThreeParts(front: Bytes, data: Bytes, rest: Bytes, b: Bytes, at: nat, end: nat)
    requires data != [] && |front| == at && end == at + |data| && rest == if end < |b| then b[end..] else []
    requires forall i :: 0 <= i < at ==> front[i] == if i < |b| then b[i] else 0
    ensures Overwritten(b, front + data + rest, at, data)
  {
  }

  lemma WriteAtEnd(b: Bytes, data: Bytes)
    ensures WriteAt(b, |b|, data) == b + data
  {
  }

  /** x_read hands out the bytes at the offset, which moves behind them, and leaves the files alone. */
  lemma ReadReads(fs: Fs, used: nat, max: nat, fd: nat, n: nat, answer: int)
    requires IsOpen(fs, fd) && ReadAnswer(fs, fd, n, answer) && 0 <= answer && used + SIZEOF_READ_ARGS <= max
    ensures var (at, done) := (Offset(fs, fd), XRead(fs, used, max, fd, n, answer));
            && OnlyDescriptor(fs, done.fs, fd) && done.fs.files == fs.files && Offset(done.fs, fd) == at + answer
            && Succeeds(done, used, SIZEOF_READ_ARGS, UndoRead(fd, answer), answer)
            && (answer > 0 ==> at + answer <= |Content(fs, fd)|
                               && Read(fs, fd, answer).1 == Content(fs, fd)[at..at + answer])
            && (answer == 0 ==> Read(fs, fd, answer).1 == [])
  {
  }

  /** Where a seek leads, by its three bases. */
  lemma LseekMoves(fs: Fs, used: nat, max: nat, fd: nat, offset: int, whence: Whence, target: int)
    requires IsOpen(fs, fd) && used + SIZEOF_LSEEK_ARGS <= max
    requires target == offset + if whence == SeekSet then 0
                                else if whence == SeekCur then Offset(fs, fd)
                                else |Content(fs, fd)|
    requires 0 <= target <= 0x7fff_ffff
    ensures var done := XLseek(fs, used, max, fd, offset, whence);
            && OnlyDescriptor(fs, done.fs, fd) && done.fs.files == fs.files && Offset(done.fs, fd) == target
            && Succeeds(done, used, SIZEOF_LSEEK_ARGS, UndoLseek(fd, Offset(fs, fd)), target)
  {
  }

  /** x_write_seq writes the caller's bytes; at the end of the file it appends them. */
  lemma SeqWrites(fs: Fs, used: nat, max: nat, fd: nat, data: Bytes, answer: int)
    requires IsOpen(fs, fd) && used + SIZEOF_WRITE_ARGS <= max && 0 <= answer <= |data|
    ensures var done := XWriteSeq(fs, used, max, fd, data, answer);
            && Wrote(fs, done.fs, fd, data[..answer])
            && Succeeds(done, used, SIZEOF_WRITE_ARGS, UndoWriteSeq(fd, answer), answer)
            && (Offset(fs, fd) == |Content(fs, fd)| ==>
                  Content(done.fs, fd) == Content(fs, fd) + data[..answer])
  {
    var at, b := Offset(fs, fd), Content(fs, fd);
    WriteAtIs(b, at, data[..answer]);
    WriteAtEnd(b, data[..answer]);
    if answer == 0 {
      assert data[..answer] == [];
    } else {
      assert Content(XWriteSeq(fs, used, max, fd, data, answer).fs, fd) == WriteAt(b, at, data[..answer]);
    }
  }

  lemma RenameGives(fs: Fs, path: string, temp: string)
    requires Valid(fs) && path in fs.names && temp !in fs.names
    ensures Rename(fs, path, temp).0 == fs.(names := (fs.names - {path})[temp := fs.names[path]])
  {
    RenameFresh(fs, path, temp);
  }

  /** A name taken away and given again has just a new meaning. */
  lemma NameReplaced(names: map<string, nat>, path: string, temp: string, i: nat, j: nat)
    ensures (names - {path})[temp := i][path := j] == names[temp := i][path := j]
  {
  }

  /** x_create opens a new and empty file under the name; an old one is under the temporary name. */
  lemma CreateMakes(fs: Fs, used: nat, path: string, temp: string, moved: bool, fd: nat, back: bool, inode: nat)
    requires Valid(fs) && OpenAnswer(fs, fd, inode) && temp !in fs.names && (path in fs.names ==> moved)
    ensures var done := XCreate(fs, used, path, temp, moved, fd, back, inode);
            var kept := if path in fs.names then fs.names[temp := fs.names[path]] else fs.names;
            && done.fs == Fs(kept[path := inode], fs.files[inode := []], fs.fds[fd := OpenFile(inode, 0)])
            && (path !in fs.names ==> Succeeds(done, used, SIZEOF_CREATE_NEW_ARGS, UndoCreateNew(fd, path), fd))
            && (path in fs.names ==> Succeeds(done, used, SIZEOF_CREATE_OVER_ARGS, UndoCreateOver(fd, temp, path), fd))
  {
    if path in fs.names {
      RenameGives(fs, path, temp);
      NameReplaced(fs.names, path, temp, fs.names[path], inode);
    }
  }

  /** x_rename gives the file its new name besides the old one; an old target is under the temporary name. */
  lemma RenameLinks(fs: Fs, used: nat, oldPath: string, newPath: string, temp: string, moved: bool)
    requires Valid(fs) && temp !in fs.names && oldPath in fs.names && oldPath != newPath
    requires newPath in fs.names ==> moved
    ensures var done := XRename(fs, used, oldPath, newPath, temp, moved, true);
            var existed := newPath in fs.names;
            var kept := if existed then fs.names[temp := fs.names[newPath]] else fs.names;
            && done.fs == fs.(names := kept[newPath := fs.names[oldPath]])
            && Succeeds(done, used, SIZEOF_RENAME_ARGS, UndoRename(newPath, temp, existed), 0)
  {
    if newPath in fs.names {
      RenameGives(fs, newPath, temp);
      NameReplaced(fs.names, newPath, temp, fs.names[newPath], fs.names[oldPath]);
    }
  }

  /** What the undo actions report: the first kernel call that fails, for a rename the last one. */
  lemma UndoReports(fs: Fs, fd: nat, path: string, temp: string)
    requires path != temp
    ensures !IsOpen(fs, fd) ==>
              && (forall n: int :: Replay(UndoRead(fd, n), fs) == (fs, EBADF))
              && (forall n: int :: Replay(UndoLseek(fd, n), fs) == (fs, EBADF))
              && (forall n: nat :: Replay(UndoWriteSeq(fd, n), fs) == (fs, EBADF))
              && (forall n: nat, saved: Bytes :: Replay(UndoWriteOvr(fd, saved, n), fs) == (fs, EBADF))
    ensures Replay(UndoCreateNew(fd, path), fs).1 ==
            if path !in fs.names then ENOENT else if fd !in fs.fds then EBADF else 0
    ensures Replay(UndoCreateOver(fd, temp, path), fs).1 ==
            if path !in fs.names || temp !in fs.names then ENOENT else if fd !in fs.fds then EBADF else 0
    ensures Replay(UndoRename(path, temp, false), fs).1 == if path !in fs.names then ENOENT else 0
    ensures Replay(UndoRename(path, temp, true), fs).1 == if path !in fs.names || temp !in fs.names then ENOENT else 0
  {
  }

  // ---------------------------------------------------------------- commit

  /** x_create_case2_commit: the file that was moved away is removed. */
  function CommitCreate(fs: Fs, temp: string): (Fs, int) {
    Unlink(fs, temp)
  }

  /** x_rename_commit: the old name is removed. */
  function CommitRename(fs: Fs, oldPath: string): (Fs, int) {
    Unlink(fs, oldPath)
  }

  /** A committed x_create has replaced the file, and nothing of the temporary name is left. */
  lemma CreateCommitted(fs: Fs, used: nat, path: string, temp: string, fd: nat, back: bool, inode: nat)
    requires Valid(fs) && OpenAnswer(fs, fd, inode) && temp !in fs.names && path in fs.names
    ensures var done := XCreate(fs, used, path, temp, true, fd, back, inode);
            CommitCreate(done.fs, temp) ==
            (Collect(Fs(fs.names[path := inode], fs.files[inode := []], fs.fds[fd := OpenFile(inode, 0)])), 0)
  {
    CreateMakes(fs, used, path, temp, true, fd, back, inode);
    assert fs.names[temp := fs.names[path]][path := inode] - {temp} == fs.names[path := inode];
  }

  /**
   A committed x_rename is the rename of the kernel if and only if there was no target and the
   link was made: a target that was moved away keeps its temporary name for good, and without
   the link the file loses its only name.
   */
  lemma RenameCommittedIff(fs: Fs, used: nat, oldPath: string, newPath: string, temp: string, moved: bool, linked: bool)
    requires Valid(fs) && temp !in fs.names && oldPath in fs.names
    ensures var done := XRename(fs, used, oldPath, newPath, temp, moved, linked);
            CommitRename(done.fs, oldPath).0 == Rename(fs, oldPath, newPath).0 <==>
            newPath !in fs.names && linked
  {
    var done := XRename(fs, used, oldPath, newPath, temp, moved, linked);
    var renamed := Rename(fs, oldPath, newPath).0;
    if newPath !in fs.names {
      if linked {
        var i := fs.names[oldPath];
        assert fs.names[newPath := i] - {oldPath} == (fs.names - {oldPath})[newPath := i];
      } else {
        assert newPath in renamed.names && newPath !in CommitRename(done.fs, oldPath).0.names;
      }
    } else if moved {
      RenameFresh(fs, newPath, temp);
      assert temp in CommitRename(done.fs, oldPath).0.names && temp !in renamed.names;
    } else {
      assert done.fs == fs && oldPath !in CommitRename(fs, oldPath).0.names;
      if fs.names[newPath] == fs.names[oldPath] {
        assert renamed == fs;
      } else {
        assert renamed.names[newPath] == fs.names[oldPath];
        assert newPath != oldPath && CommitRename(fs, oldPath).0.names[newPath] == fs.names[newPath];
      }
    }
  }

  // ---------------------------------------------------------------- which calls are undone

  /** The call left the kernel as it was, or registered an action that brings it back. */
  ghost predicate Restorable(fs: Fs, done: Done) {
    match done.undo
    case None => done.fs == fs
    case Some(u) => Replay(u, done.fs).0 == fs
  }

  /** A transactional read is always undone. */
  lemma ReadRestored(fs: Fs, used: nat, max: nat, fd: nat, n: nat, answer: int)
    requires ReadAnswer(fs, fd, n, answer)
    ensures Restorable(fs, XRead(fs, used, max, fd, n, answer))
  {
    if IsOpen(fs, fd) { SamePlace(fs, fd); }
  }

  lemma SamePlace(fs: Fs, fd: nat)
    requires IsOpen(fs, fd)
    ensures forall k: nat :: WithOffset(WithOffset(fs, fd, k), fd, Offset(fs, fd)) == fs
    ensures WithContent(fs, fd, Content(fs, fd)) == fs
  {
    var f := fs.fds[fd];
    forall k: nat ensures WithOffset(WithOffset(fs, fd, k), fd, Offset(fs, fd)) == fs {
      assert fs.fds[fd := f.(offset := k)][fd := f] == fs.fds;
    }
    assert fs.files[f.inode := fs.files[f.inode]] == fs.files;
  }

  /**
   x_lseek is undone if and only if the new offset survives the conversion to int: it must
   not look like an error, and for SEEK_CUR, whose old position is computed from it, it has
   to be the same number. An apparent error is harmless if the descriptor has not moved.
   */
  lemma LseekRestoredIff(fs: Fs, used: nat, max: nat, fd: nat, offset: int, whence: Whence)
    requires IsOpen(fs, fd) && used + SIZEOF_LSEEK_ARGS <= max
    ensures var moved := Lseek(fs, fd, offset, whence).1;
            Restorable(fs, XLseek(fs, used, max, fd, offset, whence)) <==>
            moved < 0 || (if ToInt(moved) < 0 then moved == Offset(fs, fd)
                          else whence.SeekCur? ==> moved <= 0x7fff_ffff)
  {
    var (fs1, moved) := Lseek(fs, fd, offset, whence);
    SamePlace(fs, fd);
    if moved >= 0 {
      SamePlace(fs1, fd);
      assert Offset(fs1, fd) == moved;
    }
  }

  /** Failing calls change nothing and register nothing. */
  lemma LseekFailureKeeps(fs: Fs, used: nat, max: nat, fd: nat, offset: int, whence: Whence)
    requires IsOpen(fs, fd) ==> Lseek(fs, fd, offset, whence).1 <= 0x7fff_ffff
    requires XLseek(fs, used, max, fd, offset, whence).ret < 0
    ensures var done := XLseek(fs, used, max, fd, offset, whence);
            && done.fs == fs && done.used == used && done.undo == None && done.err > 0
            && (IsOpen(fs, fd) && used + SIZEOF_LSEEK_ARGS <= max ==> done.ret == -1 && done.err == EINVAL)
  {
  }

  lemma WritesBack(fs: Fs, fd: nat, bytes: Bytes, k: nat)
    requires IsOpen(fs, fd)
    ensures var fs1 := WithOffset(WithContent(fs, fd, bytes), fd, k);
            && IsOpen(fs1, fd) && Content(fs1, fd) == bytes && Offset(fs1, fd) == k
            && forall b: Bytes ::
                 (WithContent(WithOffset(fs1, fd, Offset(fs, fd)), fd, b) == fs <==> b == Content(fs, fd))
  {
    var f := fs.fds[fd];
    var fs1 := WithOffset(WithContent(fs, fd, bytes), fd, k);
    assert fs1.fds[fd := f] == fs.fds;
    forall b: Bytes
      ensures WithContent(WithOffset(fs1, fd, Offset(fs, fd)), fd, b) == fs <==> b == Content(fs, fd)
    {
      var back := WithContent(WithOffset(fs1, fd, Offset(fs, fd)), fd, b);
      assert back.files == fs.files[f.inode := b];
      if b == fs.files[f.inode] { assert back.files == fs.files; }
      assert back.files[f.inode] == b;
    }
  }

  /** Cutting a file back to where an append began restores it only if it began at the end. */
  lemma AppendCutBackIff(b: Bytes, at: nat, data: Bytes)
    ensures Resize(WriteAt(b, at, data), at) == b <==> at == |b|
  {
    if at == |b| {
      assert Resize(WriteAt(b, at, data), at) == b;
    }
  }

  /** x_write_seq is undone if and only if it starts at the end of the file. */
  lemma WriteSeqRestoredIff(fs: Fs, used: nat, max: nat, fd: nat, data: Bytes, answer: int)
    requires IsOpen(fs, fd) && used + SIZEOF_WRITE_ARGS <= max && 0 <= answer <= |data|
    ensures Restorable(fs, XWriteSeq(fs, used, max, fd, data, answer)) <==> Offset(fs, fd) == |Content(fs, fd)|
  {
    var at, b := Offset(fs, fd), Content(fs, fd);
    AppendCutBackIff(b, at, data[..answer]);
    WritesBack(fs, fd, WriteAt(b, at, data[..answer]), at + answer);
    SamePlace(fs, fd);
    if answer == 0 {
      assert WithOffset(WithContent(fs, fd, b), fd, at) == fs;
    }
  }

  /** What the overwrite's undo makes of the file. */
  function PutBack(b: Bytes, at: nat, saved: Bytes, written: nat): Bytes {
    WriteAt(if |saved| < written then Resize(b, at) else b, at, saved)
  }

  /** All overwritten bytes were saved: putting them back restores the file. */
  lemma PutAllBack(b: Bytes, at: nat, got: nat, data: Bytes)
    requires 0 < got && at + got <= |b| && |data| <= got
    ensures PutBack(WriteAt(b, at, data), at, b[at..at + got], |data|) == b
  {
    if data != [] { assert WriteAt(b, at, data) == b[..at] + data + b[at + |data|..]; }
  }

  /** More was written than saved: the file ends behind the saved bytes. */
  lemma PutPartBack(b: Bytes, at: nat, saved: Bytes, data: Bytes)
    requires |saved| < |data|
    ensures var back := PutBack(WriteAt(b, at, data), at, saved, |data|);
            |back| == at + |saved| && (at <= |b| ==> back == b[..at] + saved)
  {
    assert at <= |b| ==> Resize(WriteAt(b, at, data), at) == b[..at];
  }

  /** Putting the saved bytes back restores the file iff all overwritten bytes were saved or nothing followed them. */
  lemma PutBackIff(b: Bytes, at: nat, got: nat, data: Bytes)
    requires got == 0 || at + got <= |b|
    ensures var saved := if got == 0 then [] else b[at..at + got];
            PutBack(WriteAt(b, at, data), at, saved, |data|) == b <==> |data| <= got || at + got == |b|
  {
    var saved: Bytes := if got == 0 then [] else b[at..at + got];
    if |data| > got {
      PutPartBack(b, at, saved, data);
    } else if got > 0 {
      PutAllBack(b, at, got, data);
    }
  }

  /**
   x_write_ovr is undone if and only if every overwritten byte had been read before, or the
   read ended at the end of the file. With reads that are short only at the end of the file
   this is: the call starts at or before the end, or writes nothing.
   */
  lemma WriteOvrRestoredIff(fs: Fs, used: nat, max: nat, fd: nat, data: Bytes, got: int, answer: int)
    requires IsOpen(fs, fd) && ReadAnswer(fs, fd, |data|, got) && 0 <= got && 0 <= answer <= |data|
    requires used + SIZEOF_WRITE_ARGS + |data| <= max
    ensures Restorable(fs, XWriteOvr(fs, used, max, fd, data, got, answer)) <==>
            answer <= got || Offset(fs, fd) + got == |Content(fs, fd)|
  {
    var at, b := Offset(fs, fd), Content(fs, fd);
    var done := XWriteOvr(fs, used, max, fd, data, got, answer);
    SamePlace(fs, fd);
    var saved := Read(fs, fd, got).1;
    OvrWrites(fs, used, max, fd, data, got, answer);
    WritesBack(fs, fd, WriteAt(b, at, data[..answer]), at + answer);
    UndoOvrIs(done.fs, fd, saved, answer);
    var back := PutBack(WriteAt(b, at, data[..answer]), at, saved, answer);
    assert Replay(done.undo.value, done.fs).0 == WithContent(WithOffset(done.fs, fd, at), fd, back);
    assert Restorable(fs, done) <==> back == b;
    PutBackIff(b, at, got, data[..answer]);
  }

  /** The call writes at the old offset and remembers what was read there. */
  lemma OvrWrites(fs: Fs, used: nat, max: nat, fd: nat, data: Bytes, got: int, answer: int)
    requires IsOpen(fs, fd) && ReadAnswer(fs, fd, |data|, got) && 0 <= got && 0 <= answer <= |data|
    requires used + SIZEOF_WRITE_ARGS + |data| <= max
    ensures var at, b := Offset(fs, fd), Content(fs, fd);
            var done := XWriteOvr(fs, used, max, fd, data, got, answer);
            && done.fs == WithOffset(WithContent(fs, fd, WriteAt(b, at, data[..answer])), fd, at + answer)
            && Succeeds(done, used, SIZEOF_WRITE_ARGS + |data|,
                        UndoWriteOvr(fd, if got == 0 then [] else b[at..at + got], answer), answer)
            && Wrote(fs, done.fs, fd, data[..answer])
  {
    SamePlace(fs, fd);
    if got > 0 {
      assert Lseek(Read(fs, fd, got).0, fd, -got, SeekCur).0 == fs;
    }
    WriteAtIs(Content(fs, fd), Offset(fs, fd), data[..answer]);
  }

  lemma UndoOvrIs(fs: Fs, fd: nat, saved: Bytes, n: nat)
    requires IsOpen(fs, fd) && n <= Offset(fs, fd)
    ensures Replay(UndoWriteOvr(fd, saved, n), fs) ==
            (WithContent(WithOffset(fs, fd, Offset(fs, fd) - n), fd,
                         PutBack(Content(fs, fd), Offset(fs, fd) - n, saved, n)), 0)
  {
    var fs1 := WithOffset(fs, fd, Offset(fs, fd) - n);
    assert SeekBack(fs, fd, n) == (fs1, 0);
    if |saved| < n {
      var b := Resize(Content(fs, fd), Offset(fs1, fd));
      assert fs1.files[fs1.fds[fd].inode := b][fs1.fds[fd].inode := WriteAt(b, Offset(fs1, fd), saved)]
          == fs1.files[fs1.fds[fd].inode := WriteAt(b, Offset(fs1, fd), saved)];
    }
  }

  // ---------------------------------------------------------------- names

  lemma {:induction false} CollectValid(fs: Fs)
    requires Valid(fs)
    ensures Collect(fs) == fs
  {
    assert Collect(fs).files == fs.files;
  }

  /** Moving a file to a fresh name and back changes nothing, and no file is lost on the way. */
  lemma RenameFresh(fs: Fs, path: string, temp: string)
    requires Valid(fs) && path in fs.names && temp !in fs.names
    ensures var moved := fs.(names := (fs.names - {path})[temp := fs.names[path]]);
            && Rename(fs, path, temp) == (moved, 0) && Valid(moved)
            && Rename(moved, temp, path) == (fs, 0)
  {
    var i := fs.names[path];
    var moved := fs.(names := (fs.names - {path})[temp := i]);
    forall j | j in fs.files ensures Referenced(moved.names, fs.fds, j) {
      if p :| p in fs.names && fs.names[p] == j {
        assert (if p == path then temp else p) in moved.names;
        assert moved.names[if p == path then temp else p] == j;
      }
    }
    CollectValid(moved);
    assert (moved.names - {temp})[path := i] == fs.names;
    CollectValid(fs);
  }

  lemma CreatedIsValid(fs: Fs, path: string, fd: nat, inode: nat)
    requires Valid(fs) && path !in fs.names && fd !in fs.fds && inode !in fs.files
    ensures Valid(Open(fs, path, fd, inode))
  {
    var created := Open(fs, path, fd, inode);
    assert created.names[path] == inode;
    forall j | j in fs.files ensures Referenced(created.names, created.fds, j) {
      if p :| p in fs.names && fs.names[p] == j { assert p in created.names && created.names[p] == j; }
      if d :| d in fs.fds && fs.fds[d].inode == j { assert d in created.fds && created.fds[d].inode == j; }
    }
  }

  /** While the descriptor is open, the new file stays although its name is gone. */
  lemma StillReferenced(fs: Fs, files: map<nat, Bytes>, fd: nat, inode: nat)
    requires Valid(fs) && fd !in fs.fds && files.Keys == fs.files.Keys + {inode}
    ensures var fds := fs.fds[fd := OpenFile(inode, 0)];
            Collect(Fs(fs.names, files, fds)) == Fs(fs.names, files, fds)
  {
    var fds := fs.fds[fd := OpenFile(inode, 0)];
    forall j | j in files ensures Referenced(fs.names, fds, j) {
      if j == inode {
        assert fds[fd].inode == inode;
      } else {
        assert Referenced(fs.names, fs.fds, j);
        if d :| d in fs.fds && fs.fds[d].inode == j { assert d in fds && fds[d].inode == j; }
      }
    }
    assert Collect(Fs(fs.names, files, fds)).files == files;
  }

  /** Closing the last reference to the new file removes it. */
  lemma CloseDropsNew(fs: Fs, fd: nat, inode: nat, bytes: Bytes)
    requires Valid(fs) && fd !in fs.fds && inode !in fs.files
    ensures Close(Fs(fs.names, fs.files[inode := bytes], fs.fds[fd := OpenFile(inode, 0)]), fd) == (fs, 0)
  {
    var fds := fs.fds[fd := OpenFile(inode, 0)];
    assert fds - {fd} == fs.fds;
    assert !Referenced(fs.names, fs.fds, inode);
    assert Collect(Fs(fs.names, fs.files[inode := bytes], fs.fds)).files == fs.files;
  }

  /** Creating a file under an unused name and then removing name and descriptor changes nothing. */
  lemma CreateFresh(fs: Fs, path: string, fd: nat, inode: nat)
    requires Valid(fs) && path !in fs.names && fd !in fs.fds && inode !in fs.files
    ensures var created := Open(fs, path, fd, inode);
            && Valid(created)
            && Unlink(created, path) == (created.(names := fs.names), 0)
            && Close(created.(names := fs.names), fd) == (fs, 0)
  {
    CreatedIsValid(fs, path, fd, inode);
    assert fs.names[path := inode] - {path} == fs.names;
    StillReferenced(fs, fs.files[inode := []], fd, inode);
    CloseDropsNew(fs, fd, inode, []);
  }

  /** Of an existing file, what open truncates must have been moved away, and a failing call must put it back. */
  predicate CreateGuard(fs: Fs, path: string, moved: bool, answer: int, back: bool) {
    path in fs.names ==> if answer < 0 then !moved || back else moved
  }

  /** x_create is undone if and only if the renames of an existing file are granted; the undo reports no error. */
  lemma CreateRestoredIff(fs: Fs, used: nat, path: string, temp: string, moved: bool, answer: int, back: bool,
                          inode: nat)
    requires Valid(fs) && OpenAnswer(fs, answer, inode) && temp !in fs.names
    ensures var done := XCreate(fs, used, path, temp, moved, answer, back, inode);
            && (Restorable(fs, done) <==> CreateGuard(fs, path, moved, answer, back)) && Valid(done.fs)
            && (CreateGuard(fs, path, moved, answer, back) && done.undo.Some? ==>
                  Replay(done.undo.value, done.fs).1 == 0)
            && (done.ret >= 0 <==> done.undo.Some?)
  {
    if path !in fs.names {
      if answer >= 0 { CreateFresh(fs, path, answer, inode); }
    } else if moved {
      RenameFresh(fs, path, temp);
      if answer >= 0 {
        CreateOver(fs, Rename(fs, path, temp).0, path, temp, answer, inode);
      }
    } else if answer >= 0 {
      TruncatedIsValid(fs, path, answer, inode);
      UnmovedIsLost(Open(fs, path, answer, inode), path, temp, answer);
    }
  }

  /** open on a file that is still in its place truncates it. */
  lemma TruncatedIsValid(fs: Fs, path: string, fd: nat, inode: nat)
    requires Valid(fs) && path in fs.names && fd !in fs.fds
    ensures Valid(Open(fs, path, fd, inode))
  {
    var truncated := Open(fs, path, fd, inode);
    forall i | i in truncated.files ensures Referenced(truncated.names, truncated.fds, i) {
      assert Referenced(fs.names, fs.fds, i);
      if d :| d in fs.fds && fs.fds[d].inode == i { assert d in truncated.fds && truncated.fds[d].inode == i; }
    }
  }

  /** If nothing has been moved to the temporary name, the undo action removes the file itself. */
  lemma UnmovedIsLost(fs: Fs, path: string, temp: string, fd: nat)
    requires path in fs.names && temp !in fs.names
    ensures path !in Replay(UndoCreateOver(fd, temp, path), fs).0.names
  {
  }

  lemma CreateOver(fs: Fs, moved: Fs, path: string, temp: string, fd: nat, inode: nat)
    requires Valid(fs) && path in fs.names && temp !in fs.names && fd !in fs.fds && inode !in fs.files
    requires moved == fs.(names := (fs.names - {path})[temp := fs.names[path]]) && Valid(moved)
    requires Rename(moved, temp, path) == (fs, 0)
    ensures var created := Open(moved, path, fd, inode);
            Valid(created) && Replay(UndoCreateOver(fd, temp, path), created) == (fs, 0)
  {
    var created := Open(moved, path, fd, inode);
    CreateFresh(moved, path, fd, inode);
    // While the descriptor is open, renaming and closing can be exchanged.
    assert (moved.names - {temp})[path := fs.names[path]] == fs.names;
    StillReferenced(fs, fs.files[inode := []], fd, inode);
    assert Rename(created.(names := moved.names), temp, path) == (created.(names := fs.names), 0);
    CloseDropsNew(fs, fd, inode, []);
  }

  /** A second name for a file, and its removal. */
  lemma LinkUnlink(fs: Fs, path: string, target: string)
    requires Valid(fs) && path in fs.names && target !in fs.names
    ensures var linked := Link(fs, path, target).0;
            Valid(linked) && Unlink(linked, target) == (fs, 0)
  {
    var linked := Link(fs, path, target).0;
    forall j | j in fs.files ensures Referenced(linked.names, linked.fds, j) {
      if p :| p in fs.names && fs.names[p] == j { assert p in linked.names && linked.names[p] == j; }
    }
    assert linked.names - {target} == fs.names;
    CollectValid(fs);
  }

  predicate RenameGuard(fs: Fs, oldPath: string, newPath: string, moved: bool) {
    oldPath in fs.names && newPath in fs.names ==> moved
  }

  /** The target existed and has been moved: whatever becomes of the link, it is put back. */
  lemma RenameOverRestored(fs: Fs, used: nat, oldPath: string, newPath: string, temp: string, linked: bool)
    requires Valid(fs) && temp !in fs.names && oldPath in fs.names && newPath in fs.names
    ensures var done := XRename(fs, used, oldPath, newPath, temp, true, linked);
            && Valid(done.fs) && Replay(done.undo.value, done.fs).0 == fs
            && (Replay(done.undo.value, done.fs).1 == 0 <==> linked && oldPath != newPath)
  {
    RenameFresh(fs, newPath, temp);
    var moved := Rename(fs, newPath, temp).0;
    var done := XRename(fs, used, oldPath, newPath, temp, true, linked);
    assert done.undo == Some(UndoRename(newPath, temp, true));
    if linked && oldPath != newPath {
      LinkUnlink(moved, oldPath, newPath);
      assert Unlink(done.fs, newPath) == (moved, 0);
    } else {
      assert done.fs == moved && Unlink(done.fs, newPath) == (moved, ENOENT);
    }
  }

  /** The target existed and has stayed: the link fails, and the undo action removes the target. */
  lemma RenameUnmovedIsLost(fs: Fs, used: nat, oldPath: string, newPath: string, temp: string, linked: bool)
    requires temp !in fs.names && oldPath in fs.names && newPath in fs.names
    ensures var done := XRename(fs, used, oldPath, newPath, temp, false, linked);
            done.fs == fs && newPath !in Replay(done.undo.value, done.fs).0.names
  {
  }

  /**
   x_rename is undone, even for two equal names and when the link fails, if and only if an
   existing target could be moved away; the undo action then reports an error exactly when
   there was no link to remove.
   */
  lemma RenameRestoredIff(fs: Fs, used: nat, oldPath: string, newPath: string, temp: string, moved: bool, linked: bool)
    requires Valid(fs) && temp !in fs.names
    ensures var done := XRename(fs, used, oldPath, newPath, temp, moved, linked);
            && (Restorable(fs, done) <==> RenameGuard(fs, oldPath, newPath, moved)) && Valid(done.fs)
            && (done.undo.Some? <==> oldPath in fs.names)
            && (RenameGuard(fs, oldPath, newPath, moved) && done.undo.Some? ==>
                  (Replay(done.undo.value, done.fs).1 == 0 <==> linked && oldPath != newPath))
  {
    if oldPath in fs.names {
      if newPath !in fs.names {
        LinkUnlink(fs, oldPath, newPath);
      } else if moved {
        RenameOverRestored(fs, used, oldPath, newPath, temp, linked);
      } else {
        RenameUnmovedIsLost(fs, used, oldPath, newPath, temp, linked);
      }
    }
  }

  /** A file outside the file system of /tmp, created again and then undone: name and bytes are gone. */
  lemma CreateElsewhereLosesFile(used: nat)
    ensures var fs := Fs(map["/home/a" := 1], map[1 := [7, 8]], map[]);
            Valid(fs) && OpenAnswer(fs, 3, 2)
            && var done := XCreate(fs, used, "/home/a", "/tmp/b", false, 3, false, 2);
               done.err == 0 && done.undo.Some?
               && Replay(done.undo.value, done.fs) == (Fs(map[], map[], map[]), ENOENT)
  {
    var fs := Fs(map["/home/a" := 1], map[1 := [7, 8]], map[]);
    assert fs.names["/home/a"] == 1;
    var created := Fs(map["/home/a" := 1], map[1 := []], map[3 := OpenFile(1, 0)]);
    assert Open(fs, "/home/a", 3, 2) == created;
    var named := Fs(map[], map[1 := []], map[3 := OpenFile(1, 0)]);
    assert created.names - {"/home/a"} == map[] && named.fds[3].inode == 1;
    assert Unlink(created, "/home/a").0.files == named.files;
    assert Unlink(created, "/home/a") == (named, 0);
    assert named.fds - {3} == map[];
    assert Close(named, 3).0.files == map[];
  }

  lemma UpdatesKeepValid(fs: Fs, fd: nat)
    requires Valid(fs) && IsOpen(fs, fd)
    ensures forall k: nat, b: Bytes :: Valid(WithOffset(WithContent(fs, fd, b), fd, k))
    ensures forall k: nat :: Valid(WithOffset(fs, fd, k))
  {
    forall k: nat, b: Bytes ensures Valid(WithOffset(WithContent(fs, fd, b), fd, k)) {
      var fs1 := WithOffset(WithContent(fs, fd, b), fd, k);
      forall i | i in fs1.files ensures Referenced(fs1.names, fs1.fds, i) {
        assert Referenced(fs.names, fs.fds, i);
        if d :| d in fs.fds && fs.fds[d].inode == i { assert d in fs1.fds && fs1.fds[d].inode == i; }
      }
    }
    SamePlace(fs, fd);
    forall k: nat ensures Valid(WithOffset(fs, fd, k)) {
      assert Valid(WithOffset(WithContent(fs, fd, Content(fs, fd)), fd, k));
    }
  }

  /** A failing overwrite leaves everything as it was. */
  lemma OvrFailureKeeps(fs: Fs, used: nat, max: nat, fd: nat, data: Bytes, got: int, answer: int)
    requires ReadAnswer(fs, fd, |data|, got) && answer <= |data|
    requires XWriteOvr(fs, used, max, fd, data, got, answer).ret < 0
    ensures var done := XWriteOvr(fs, used, max, fd, data, got, answer);
            done.fs == fs && done.used == used && done.undo == None
  {
    if IsOpen(fs, fd) && got > 0 { SamePlace(fs, fd); }
  }

  /** The four calls on descriptors keep the file system well formed. */
  lemma ReadKeepsValid(fs: Fs, used: nat, max: nat, fd: nat, n: nat, answer: int)
    requires Valid(fs) && ReadAnswer(fs, fd, n, answer)
    ensures Valid(XRead(fs, used, max, fd, n, answer).fs)
  {
    if IsOpen(fs, fd) { UpdatesKeepValid(fs, fd); }
  }

  lemma LseekKeepsValid(fs: Fs, used: nat, max: nat, fd: nat, offset: int, whence: Whence)
    requires Valid(fs)
    ensures Valid(XLseek(fs, used, max, fd, offset, whence).fs)
  {
    if IsOpen(fs, fd) { UpdatesKeepValid(fs, fd); }
  }

  lemma WriteSeqKeepsValid(fs: Fs, used: nat, max: nat, fd: nat, data: Bytes, answer: int)
    requires Valid(fs) && answer <= |data|
    ensures Valid(XWriteSeq(fs, used, max, fd, data, answer).fs)
  {
    if IsOpen(fs, fd) { UpdatesKeepValid(fs, fd); }
  }

  lemma WriteOvrKeepsValid(fs: Fs, used: nat, max: nat, fd: nat, data: Bytes, got: int, answer: int)
    requires Valid(fs) && ReadAnswer(fs, fd, |data|, got) && answer <= |data|
    ensures Valid(XWriteOvr(fs, used, max, fd, data, got, answer).fs)
  {
    if XWriteOvr(fs, used, max, fd, data, got, answer).ret < 0 {
      OvrFailureKeeps(fs, used, max, fd, data, got, answer);
    } else {
      UpdatesKeepValid(fs, fd);
      OvrWrites(fs, used, max, fd, data, got, answer);
    }
  }
}
