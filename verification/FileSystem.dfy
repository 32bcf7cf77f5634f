/**
 The kernel calls behind the compensating xCalls, from chapter 3 of the System Interfaces
 volume of IEEE Std 1003.1-2008: names, files and open file descriptions as values.
 What the kernel is free to decide (a short count, an error) is a parameter.
 */
module FileSystem {
  import opened Options

  type Bytes = seq<bv8>

  datatype OpenFile = OpenFile(inode: nat, offset: nat)

  datatype Fs = Fs(names: map<string, nat>, files: map<nat, Bytes>, fds: map<nat, OpenFile>)

  datatype Whence = SeekSet | SeekCur | SeekEnd

  const ENOENT := 2
  const EBADF := 9
  const ENOMEM := 12
  const EEXIST := 17
  const EINVAL := 22

  /** Some name or descriptor refers to the inode. */
  predicate Referenced(names: map<string, nat>, fds: map<nat, OpenFile>, i: nat) {
    (exists p :: p in names && names[p] == i) || (exists d :: d in fds && fds[d].inode == i)
  }

  /** Every reference leads to a file, and a file without references is gone. */
  ghost predicate Valid(fs: Fs) {
    && (forall p :: p in fs.names ==> fs.names[p] in fs.files)
    && (forall d :: d in fs.fds ==> fs.fds[d].inode in fs.files)
    && (forall i :: i in fs.files ==> Referenced(fs.names, fs.fds, i))
  }

  /** The kernel drops files that nothing refers to any more. */
  function Collect(fs: Fs): Fs {
    fs.(files := map i | i in fs.files && Referenced(fs.names, fs.fds, i) :: fs.files[i])
  }

  predicate IsOpen(fs: Fs, fd: nat) {
    fd in fs.fds && fs.fds[fd].inode in fs.files
  }

  function Content(fs: Fs, fd: nat): Bytes
    requires IsOpen(fs, fd)
  {
    fs.files[fs.fds[fd].inode]
  }

  function Offset(fs: Fs, fd: nat): nat
    requires IsOpen(fs, fd)
  {
    fs.fds[fd].offset
  }

  function WithOffset(fs: Fs, fd: nat, offset: nat): Fs
    requires IsOpen(fs, fd)
  {
    fs.(fds := fs.fds[fd := fs.fds[fd].(offset := offset)])
  }

  function WithContent(fs: Fs, fd: nat, bytes: Bytes): Fs
    requires IsOpen(fs, fd)
  {
    fs.(files := fs.files[fs.fds[fd].inode := bytes])
  }

  // ---------------------------------------------------------------- byte sequences

  function Pad(b: Bytes, n: nat): Bytes {
    if n <= |b| then b else b + seq(n - |b|, _ => 0)
  }

  function Resize(b: Bytes, n: nat): Bytes {
    Pad(b, n)[..n]
  }

  /** A write beyond the end fills the gap with zeros; a write of nothing changes nothing. */
  function WriteAt(b: Bytes, offset: nat, data: Bytes): Bytes {
    if data == [] then b
    else
      var end := offset + |data|;
      Resize(b, offset) + data + if end < |b| then b[end..] else []
  }

  // ---------------------------------------------------------------- descriptor calls

  /** lseek: the new offset, or -EINVAL if it would be negative. */
  function Lseek(fs: Fs, fd: nat, offset: int, whence: Whence): (Fs, int)
    requires IsOpen(fs, fd)
  {
    var base := match whence
      case SeekSet => 0
      case SeekCur => Offset(fs, fd)
      case SeekEnd => |Content(fs, fd)|;
    if base + offset < 0 then (fs, -EINVAL) else (WithOffset(fs, fd, base + offset), base + offset)
  }

  /** Bytes between the offset and the end of the file. */
  function Available(fs: Fs, fd: nat): nat
    requires IsOpen(fs, fd)
  {
    var n := |Content(fs, fd)| - Offset(fs, fd);
    if n < 0 then 0 else n
  }

  /** What read may answer: an error (negative) or a count not above request and file. */
  predicate ReadAnswer(fs: Fs, fd: nat, n: nat, answer: int) {
    IsOpen(fs, fd) ==> answer <= n && answer <= Available(fs, fd)
  }

  function Read(fs: Fs, fd: nat, answer: int): (Fs, Bytes)
    requires IsOpen(fs, fd) && answer <= Available(fs, fd)
  {
    var at := Offset(fs, fd);
    if answer <= 0 then (fs, []) else (WithOffset(fs, fd, at + answer), Content(fs, fd)[at..at + answer])
  }

  /** write: `answer` bytes of `data` at the offset, which moves behind them. */
  function Write(fs: Fs, fd: nat, data: Bytes, answer: int): Fs
    requires IsOpen(fs, fd) && answer <= |data|
  {
    if answer <= 0 then fs
    else
      var at := Offset(fs, fd);
      WithOffset(WithContent(fs, fd, WriteAt(Content(fs, fd), at, data[..answer])), fd, at + answer)
  }

  function Pwrite(fs: Fs, fd: nat, data: Bytes, offset: nat): Fs
    requires IsOpen(fs, fd)
  {
    WithContent(fs, fd, WriteAt(Content(fs, fd), offset, data))
  }

  function Ftruncate(fs: Fs, fd: nat, length: nat): Fs
    requires IsOpen(fs, fd)
  {
    WithContent(fs, fd, Resize(Content(fs, fd), length))
  }

  // ---------------------------------------------------------------- directory calls

  function Unlink(fs: Fs, path: string): (Fs, int) {
    if path !in fs.names then (fs, ENOENT) else (Collect(fs.(names := fs.names - {path})), 0)
  }

  /** rename: nothing happens if both names already lead to the same file. */
  function Rename(fs: Fs, source: string, target: string): (Fs, int) {
    if source !in fs.names then (fs, ENOENT)
    else if target in fs.names && fs.names[target] == fs.names[source] then (fs, 0)
    else (Collect(fs.(names := (fs.names - {source})[target := fs.names[source]])), 0)
  }

  function Link(fs: Fs, source: string, target: string): (Fs, int) {
    if source !in fs.names then (fs, ENOENT)
    else if target in fs.names then (fs, EEXIST)
    else (fs.(names := fs.names[target := fs.names[source]]), 0)
  }

  /** A call the kernel may refuse, as it does for names on different file systems; the caller does not look. */
  function TryRename(fs: Fs, source: string, target: string, granted: bool): Fs {
    if granted then Rename(fs, source, target).0 else fs
  }

  function TryLink(fs: Fs, source: string, target: string, granted: bool): Fs {
    if granted then Link(fs, source, target).0 else fs
  }

  /** What open may answer: an error, or an unused descriptor and an unused inode. */
  predicate OpenAnswer(fs: Fs, answer: int, inode: nat) {
    answer >= 0 ==> answer !in fs.fds && inode !in fs.files
  }

  /** open with O_CREAT, O_TRUNC and O_RDWR. */
  function Open(fs: Fs, path: string, fd: nat, inode: nat): Fs {
    if path in fs.names then
      fs.(files := fs.files[fs.names[path] := []], fds := fs.fds[fd := OpenFile(fs.names[path], 0)])
    else
      Fs(fs.names[path := inode], fs.files[inode := []], fs.fds[fd := OpenFile(inode, 0)])
  }

  function Close(fs: Fs, fd: nat): (Fs, int) {
    if fd !in fs.fds then (fs, EBADF) else (Collect(fs.(fds := fs.fds - {fd})), 0)
  }
}
