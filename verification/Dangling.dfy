/** What goes wrong, exactly, after an open file is unlinked: leaked blocks, and
    writes that go into files the handle was never opened on. */
module Dangling {
  import opened Bytes
  import opened Scan
  import opened Directory
  import opened Tables
  import opened Safety
  import opened Accounting

  // ---------- where a write goes ----------

  /** The block that a write through `h` goes to. */
  function WriteBlock(s: Fs, h: int): int
    requires Safe(s) && IsOpen(s, h)
  {
    var node := s.inodes[s.open[h].inumber];
    if node.size == 0 then FirstFree(s.blockMap) else node.block
  }

  /** A write through `h` writes something: there are bytes to write, room for them, and a block. */
  ghost predicate WritesSome(s: Fs, h: int, buffer: Data)
    requires Safe(s)
  {
    && IsOpen(s, h) && buffer != [] && s.open[h].offset < s.p.blockSize
    && (s.inodes[s.open[h].inumber].size == 0 ==> exists b :: 0 <= b < |s.blockMap| && s.blockMap[b] == FREE)
  }

  lemma WritesWhen(s: Fs, h: int, buffer: Data)
    requires Safe(s)
    ensures WritesSome(s, h, buffer) <==> Write(s, h, buffer).1 > 0
    ensures !WritesSome(s, h, buffer) ==> Write(s, h, buffer).0 == s
  {
    hide DirMap, Slots, DirOk, RootOk, NamesOk, BlocksOk;
    FirstFreeMeaning(s.blockMap);
  }

  /** What a write through `h` does to any file `j` there is: it goes into `j` when `j` has the
      handle's inode, or when it owns the block that the inode names. */
  lemma WriteReaches(s: Fs, h: int, buffer: Data, j: int)
    requires Safe(s) && Live(s, j) && WritesSome(s, h, buffer)
    ensures var (t, n) := Write(s, h, buffer); var f := s.open[h]; var node := s.inodes[f.inumber];
            && n > 0 && Safe(t) && Live(t, j) && 0 <= WriteBlock(s, h) < |s.blocks|
            && var written := Overlay(s.blocks[WriteBlock(s, h)], f.offset, buffer[..n]);
            if j == f.inumber then
              && t.inodes[j].size == (if f.offset + n > node.size then f.offset + n else node.size)
              && Content(t, j) == written[..t.inodes[j].size]
            else
              && t.inodes[j] == s.inodes[j]
              && Content(t, j) == if node.size > 0 && Owns(s, j, node.block)
                                  then written[..s.inodes[j].size] else Content(s, j)
  {
    hide DirMap, Slots, DirOk, FirstIndex, NamesOk;
    WritesWhen(s, h, buffer);
    hide WritesSome;
    WriteSafe(s, h, buffer);
    FirstFreeMeaning(s.blockMap);
  }

  /** Another file can own the handle's block only when the handle's inode is that of no file. */
  lemma OnlyDeadReachOthers(s: Fs, h: int, j: int)
    requires Safe(s) && IsOpen(s, h) && j != s.open[h].inumber
    requires s.inodes[s.open[h].inumber].size > 0 && Owns(s, j, s.inodes[s.open[h].inumber].block)
    ensures !Live(s, s.open[h].inumber)
  {
    hide RootOk, NamesOk, HandlesOk;
  }

  // ---------- leaks ----------

  /** A write that writes something leaks a block exactly when the handle's inode is that of no file and empty. */
  lemma WriteLeaks(s: Fs, h: int, buffer: Data)
    requires Safe(s) && BlocksExact(s) && WritesSome(s, h, buffer)
    ensures var (t, n) := Write(s, h, buffer); var i := s.open[h].inumber;
            n > 0 && Safe(t) && (BlocksExact(t) <==> Live(s, i) || s.inodes[i].size > 0)
  {
    hide DirMap, Slots, DirOk, FirstIndex, NamesOk;
    WritesWhen(s, h, buffer);
    hide WritesSome;
    WriteSafe(s, h, buffer);
    FirstFreeMeaning(s.blockMap);
    var t := Write(s, h, buffer).0;
    var i := s.open[h].inumber;
    if Live(s, i) {
      WriteAccounted(s, h, buffer);
    } else if s.inodes[i].size > 0 {
      OwnersKept(s, t);
    } else {
      var b := FirstFree(s.blockMap);
      assert t.blockMap[b] == TAKEN && s.blockMap[b] == FREE;
      forall j ensures !Owns(t, j, b) {
        assert Live(t, j) ==> Live(s, j) && t.inodes[j] == s.inodes[j];
      }
    }
  }

  /** Unlinking the handle's file does not change whether a write through it writes something. */
  lemma StillWrites(s: Fs, t: Fs, h: int, buffer: Data)
    requires Safe(s) && Safe(t) && IsOpen(s, h) && t.p == s.p && t.inodes == s.inodes
    requires t.open == s.open && t.openMap == s.openMap
    requires s.inodes[s.open[h].inumber].size == 0 ==> t.blockMap == s.blockMap
    ensures WritesSome(t, h, buffer) <==> WritesSome(s, h, buffer)
  {
    hide RootOk, NamesOk, BlocksOk;
  }

  /** Unlinking an open file and writing through its handle next: the accounts hold
      for blocks after the unlink, and after a write that writes something exactly when
      the file was not empty. */
  lemma UnlinkThenWriteLeaks(s: Fs, path: Path, h: int, buffer: Data)
    requires Accounted(s) && PathOk(path) && ValidPathname(path) && path.chars[1..] in Dir(s)
    requires IsOpen(s, h) && s.open[h].inumber == Dir(s)[path.chars[1..]]
    ensures var t := Unlink(s, path).0;
            && Safe(t) && BlocksExact(t)
            && var (u, n) := Write(t, h, buffer);
            && Safe(u)
            && (if WritesSome(s, h, buffer) then n > 0 && (BlocksExact(u) <==> path.chars[1..] in BlockOf(s))
                else u == t)
  {
    var name := path.chars[1..];
    LookupUsable(s, name);
    assert name in BlockOf(s) <==> s.inodes[Dir(s)[name]].size > 0;
    UnlinkStrandsHandle(s, path, h);
    UnlinkAccounted(s, name);
    UnlinkTables(s, name);
    var t := Unlink(s, path).0;
    StillWrites(s, t, h, buffer);
    hide Safe, DirMap, Slots, DirOk, FirstIndex, BlocksExact, WritesSome, Unlinked, ClearDirEntry, InodeDelete, Write;
    WriteSafe(t, h, buffer);
    WritesWhen(t, h, buffer);
    if WritesSome(t, h, buffer) {
      WriteLeaks(t, h, buffer);
    }
  }

  /** A TAKEN block that no file owns. */
  ghost predicate Leaked(s: Fs, b: int) {
    1 <= b < |s.blockMap| && s.blockMap[b] == TAKEN && forall i :: !Owns(s, i, b)
  }

  /** A block stays leaked when it stays TAKEN and nobody becomes its owner. */
  lemma LeakKept(s: Fs, t: Fs, b: int)
    requires Leaked(s, b) && |t.blockMap| == |s.blockMap| && t.blockMap[b] == TAKEN
    requires forall i :: Owns(t, i, b) ==> Owns(s, i, b)
    ensures Leaked(t, b)
  {
  }

  lemma TruncateKeepsLeak(s: Fs, i: int, b: int)
    requires Safe(s) && Live(s, i) && Leaked(s, b)
    ensures Safe(Truncate(s, i)) && Leaked(Truncate(s, i), b)
  {
    hide DirMap, Slots, DirOk, FirstIndex;
    TruncateSafe(s, i);
    assert s.inodes[i].size > 0 ==> Owns(s, i, s.inodes[i].block);
    LeakKept(s, Truncate(s, i), b);
  }

  lemma MakeFileKeepsLeak(s: Fs, name: Data, b: int)
    requires Safe(s) && Leaked(s, b)
    ensures Leaked(MakeFile(s, name).0, b)
  {
    hide DirMap, Slots, DirOk, FirstIndex, LegalName;
    MakeFileCases(s, name);
    FirstFreeMeaning(s.inodeMap);
    LeakKept(s, MakeFile(s, name).0, b);
  }

  lemma OpenKeepsLeak(s: Fs, path: Path, m: Mode, b: int)
    requires Safe(s) && PathOk(path) && Leaked(s, b)
    ensures Leaked(Open(s, path, m).0, b)
  {
    hide DirMap, Slots, DirOk, FirstIndex, Truncate, MakeFile;
    if ValidPathname(path) {
      var name := path.chars[1..];
      LookupUsable(s, name);
      if name in Dir(s) {
        TruncateKeepsLeak(s, Dir(s)[name], b);
        var s1 := if m.truncate then Truncate(s, Dir(s)[name]) else s;
        LeakKept(s1, Open(s, path, m).0, b);
      } else if m.create {
        MakeFileSafe(s, name);
        MakeFileKeepsLeak(s, name, b);
        LeakKept(MakeFile(s, name).0, Open(s, path, m).0, b);
      }
    }
  }

  lemma WriteKeepsLeak(s: Fs, h: int, buffer: Data, b: int)
    requires Safe(s) && Leaked(s, b)
    ensures Leaked(Write(s, h, buffer).0, b)
  {
    hide DirMap, Slots, DirOk, FirstIndex, NamesOk;
    FirstFreeMeaning(s.blockMap);
    var t := Write(s, h, buffer).0;
    forall i ensures Owns(t, i, b) ==> Owns(s, i, b) {
    }
  }

  lemma UnlinkKeepsLeak(s: Fs, path: Path, b: int)
    requires Safe(s) && PathOk(path) && Leaked(s, b)
    ensures Leaked(Unlink(s, path).0, b)
  {
    hide DirMap, Slots, DirOk, FirstIndex, Unlinked;
    if ValidPathname(path) {
      var name := path.chars[1..];
      LookupUsable(s, name);
      if name in Dir(s) {
        UnlinkOfFile(s, path);
        UnlinkTables(s, name);
        assert s.inodes[Dir(s)[name]].size > 0 ==> Owns(s, Dir(s)[name], s.inodes[Dir(s)[name]].block);
        LeakKept(s, Unlinked(s, name), b);
      }
    }
  }

  lemma StepKeepsLeak(s: Fs, c: Call, b: int)
    requires Safe(s) && CallOk(s, c) && Leaked(s, b)
    ensures Leaked(Step(s, c).0, b)
  {
    hide DirMap, Slots, DirOk, FirstIndex;
    match c
    case OpenCall(path, mode) => OpenKeepsLeak(s, path, mode, b);
    case CloseCall(h) => LeakKept(s, Close(s, h).0, b);
    case WriteCall(h, buffer) => WriteKeepsLeak(s, h, buffer, b);
    case ReadCall(h, len) => LeakKept(s, Read(s, h, len).0, b);
    case UnlinkCall(path) => UnlinkKeepsLeak(s, path, b);
  }

  /** A leaked block is lost for good: no run gives it back or to a file. */
  lemma {:induction false} LeakedForever(s: Fs, calls: seq<Call>, b: int)
    requires Safe(s) && RunOk(s, calls) && Leaked(s, b)
    ensures Leaked(Run(s, calls).0, b)
    decreases |calls|
  {
    hide Safe, Step, CallOk, Leaked;
    if calls != [] {
      StepKeepsLeak(s, calls[0], b);
      StepSafe(s, calls[0]);
      LeakedForever(Step(s, calls[0]).0, calls[1..], b);
    }
  }

  // ---------- reused inodes ----------

  /** There is a free slot after unlinking. */
  lemma SlotAfterUnlink(s: Fs, name: Data)
    requires Safe(s) && NulFree(name) && name in Dir(s) && LegalName(name)
    ensures Safe(Unlinked(s, name)) && FirstIndex(Slots(Unlinked(s, name).blocks[0]), UNUSED) != -1
  {
    hide DirMap, FirstIndex, Unlinked, NamesOk, BlocksOk, HandlesOk;
    UnlinkTables(s, name);
    var t := Unlinked(s, name);
    FullIffCount(Slots(s.blocks[0]));
    FullIffCount(Slots(t.blocks[0]));
    assert |Dir(s) - {name}| == |(Dir(s) - {name}).Keys| && |Dir(s)| == |Dir(s).Keys|;
    assert (Dir(s) - {name}).Keys == Dir(s).Keys - {name};
  }

  lemma FirstFreeBelow(ts: seq<Alloc>, i: nat)
    requires i < |ts| && ts[i] == FREE
    ensures 0 <= FirstFree(ts) <= i
    ensures FirstFree(ts) == i <==> forall k | 0 <= k < i :: ts[k] == TAKEN
  {
    FirstFreeMeaning(ts);
  }

  /** With a free inode and a free slot, a new file gets the first free inode. */
  lemma NewFileInode(s: Fs, name: Data, h: int)
    requires Safe(s) && NulFree(name) && LegalName(name) && name !in Dir(s) && IsOpen(s, h)
    requires FirstFree(s.inodeMap) != -1 && FirstIndex(Slots(s.blocks[0]), UNUSED) != -1
    ensures var (u, i) := MakeFile(s, name);
            && Safe(u) && i == FirstFree(s.inodeMap) && name in Dir(u) && Dir(u)[name] == i
            && IsOpen(u, h) && u.open[h] == s.open[h]
  {
    hide DirMap, Slots, DirOk, FirstIndex, LegalName, NamesOk, BlocksOk;
    MakeFileCases(s, name);
    MakeFileSafe(s, name);
  }

  /** After an open file is unlinked, the next file created gets its inode, with the
      old handle still open on it, exactly when no lower inode is free. */
  lemma InodeReused(s: Fs, path: Path, h: int, name: Data)
    requires Safe(s) && PathOk(path) && ValidPathname(path) && path.chars[1..] in Dir(s)
    requires IsOpen(s, h) && s.open[h].inumber == Dir(s)[path.chars[1..]]
    requires NulFree(name) && LegalName(name) && name !in Dir(s)
    ensures var t := Unlink(s, path).0;
            && Safe(t)
            && var (u, i) := MakeFile(t, name);
            && Safe(u) && name in Dir(u) && Dir(u)[name] == i
            && IsOpen(u, h) && u.open[h] == s.open[h]
            && (u.open[h].inumber == Dir(u)[name] <==>
                forall k | 0 <= k < u.open[h].inumber && k < |s.inodeMap| :: s.inodeMap[k] == TAKEN)
  {
    hide DirMap, Slots, DirOk, FirstIndex, Unlinked, MakeFile;
    var gone := path.chars[1..];
    UnlinkOfFile(s, path);
    UnlinkTables(s, gone);
    SlotAfterUnlink(s, gone);
    var t := Unlinked(s, gone);
    var i := Dir(s)[gone];
    assert Live(s, i) && t.inodeMap == s.inodeMap[i := FREE];
    FirstFreeBelow(t.inodeMap, i);
    NewFileInode(t, name, h);
    hide Safe;
    assert forall k | 0 <= k < i :: t.inodeMap[k] == s.inodeMap[k];
  }
}
