/** Allocation safety of the file system on every run, including runs that
    unlink or truncate files while they are open. */
module Safety {
  import opened Bytes
  import opened Scan
  import opened Directory
  import opened Tables

  // ---------- every operation keeps the invariant ----------

  /** An operation that leaves block 0, the root inode and the inode map alone keeps the directory. */
  lemma DirectoryKept(s: Fs, t: Fs)
    requires Safe(s) && Shape(t) && t.p == s.p && t.blocks[0] == s.blocks[0] && t.inodeMap == s.inodeMap
    requires t.inodes[ROOT_DIR_INUM] == s.inodes[ROOT_DIR_INUM] && t.blockMap[0] == TAKEN
    ensures RootOk(t) && Dir(t) == Dir(s) && NamesOk(t, Dir(t))
  {
    hide DirMap, Slots, DirOk, BlocksOk, HandlesOk;
    assert forall i :: Live(t, i) <==> Live(s, i);
  }

  lemma TruncateSafe(s: Fs, i: int)
    requires Safe(s) && Live(s, i)
    ensures Safe(Truncate(s, i)) && Dir(Truncate(s, i)) == Dir(s)
  {
    DirectoryKept(s, Truncate(s, i));
    hide DirMap, Slots, DirOk, NamesOk, RootOk;
    assert forall j :: Live(Truncate(s, i), j) <==> Live(s, j);
  }

  lemma AddHandleSafe(s: Fs, i: int, offset: nat)
    requires Safe(s) && Usable(s, i) && offset <= s.p.blockSize
    ensures Safe(AddToOpenFileTable(s, i, offset).0)
    ensures Dir(AddToOpenFileTable(s, i, offset).0) == Dir(s)
  {
    var t := AddToOpenFileTable(s, i, offset).0;
    DirectoryKept(s, t);
    hide DirMap, Slots, DirOk, NamesOk, RootOk;
    assert forall j :: (Live(t, j) <==> Live(s, j)) && (Usable(t, j) <==> Usable(s, j));
  }

  lemma CloseSafe(s: Fs, h: int)
    requires Safe(s)
    ensures Safe(Close(s, h).0) && Dir(Close(s, h).0) == Dir(s)
  {
    var t := Close(s, h).0;
    DirectoryKept(s, t);
    hide DirMap, Slots, DirOk, NamesOk, RootOk;
    assert forall j :: (Live(t, j) <==> Live(s, j)) && (Usable(t, j) <==> Usable(s, j));
  }

  /** The block that a write goes to: never block 0, and fresh when the file was empty. */
  lemma WriteTarget(s: Fs, i: int)
    requires Safe(s) && Usable(s, i)
    requires s.inodes[i].size == 0 ==> FirstFree(s.blockMap) != -1
    ensures var b := if s.inodes[i].size == 0 then FirstFree(s.blockMap) else s.inodes[i].block;
            && 1 <= b < |s.blocks|
            && (s.inodes[i].size == 0 ==> s.blockMap[b] == FREE)
  {
    FirstFreeMeaning(s.blockMap);
  }

  lemma WriteKeepsBlocks(s: Fs, t: Fs, i: int, b: int)
    requires Safe(s) && Shape(t) && 1 <= i < |s.inodes| && 1 <= b < |s.blocks|
    requires if s.inodes[i].size == 0 then s.blockMap[b] == FREE && t.blockMap == s.blockMap[b := TAKEN]
             else s.inodes[i].block == b && t.blockMap == s.blockMap
    requires Usable(t, i) && t.inodes[i].block == b && t.inodes == s.inodes[i := t.inodes[i]]
    requires t.inodeMap == s.inodeMap && |t.blocks| == |s.blocks| && t.p == s.p
    ensures BlocksOk(t)
  {
    assert forall j | Live(t, j) :: Live(s, j);
  }

  lemma WriteSafe(s: Fs, h: int, buffer: Data)
    requires Safe(s)
    ensures Safe(Write(s, h, buffer).0) && Dir(Write(s, h, buffer).0) == Dir(s)
  {
    hide DirMap, Slots, DirOk, FirstIndex;
    if IsOpen(s, h) {
      var f := s.open[h];
      var node := s.inodes[f.inumber];
      var n := WriteCount(f.offset, |buffer|, s.p.blockSize);
      if n > 0 && (node.size == 0 ==> FirstFree(s.blockMap) != -1) {
        WriteTarget(s, f.inumber);
        var t := Write(s, h, buffer).0;
        assert Shape(t);
        DirectoryKept(s, t);
        hide RootOk, NamesOk;
        WriteKeepsBlocks(s, t, f.inumber, t.inodes[f.inumber].block);
        assert HandlesOk(t);
      }
    }
  }

  lemma ReadSafe(s: Fs, h: int, len: nat)
    requires Safe(s) && ReadOk(s, h, len)
    ensures Safe(Read(s, h, len).0) && Dir(Read(s, h, len).0) == Dir(s)
  {
    hide DirMap, Slots, DirOk, FirstIndex;
    var t := Read(s, h, len).0;
    if IsOpen(s, h) {
      var f := s.open[h];
      var n := ReadCount(s.inodes[f.inumber].size, f.offset, len);
      assert f.offset + n <= s.p.blockSize;
      assert t.open == if n == 0 then s.open else s.open[h := f.(offset := f.offset + n)];
    }
    hide Read, ReadCount;
    DirectoryKept(s, t);
    hide NamesOk, RootOk;
    assert forall j :: (Live(t, j) <==> Live(s, j)) && (Usable(t, j) <==> Usable(s, j));
  }

  /** A successful creation: one more inode, one more slot, nothing else. */
  ghost function Created(s: Fs, name: Data, i: int, k: int): Fs
    requires Safe(s) && LegalName(name) && 1 <= i < |s.inodes| && 0 <= k < MaxEntries(s.p.blockSize)
  {
    s.(inodeMap := s.inodeMap[i := TAKEN], inodes := s.inodes[i := Inode(T_FILE, 0, -1)],
       blocks := s.blocks[0 := SetSlot(s.blocks[0], k, Slot(PadName(name), i))])
  }

  /** When creation succeeds, and what it leaves behind otherwise. */
  lemma MakeFileCases(s: Fs, name: Data)
    requires Safe(s)
    ensures var i := FirstFree(s.inodeMap); var k := FirstIndex(Slots(s.blocks[0]), UNUSED);
            && i != 0
            && (i != -1 && LegalName(name) && k != -1 ==> MakeFile(s, name) == (Created(s, name, i, k), i))
            && (!(i != -1 && LegalName(name) && k != -1) ==>
                  MakeFile(s, name) ==
                  (if i == -1 then s else s.(inodes := s.inodes[i := Inode(T_FILE, 0, -1)]), -1))
  {
    FirstFreeMeaning(s.inodeMap);
    var i := FirstFree(s.inodeMap);
    if i != -1 {
      assert s.inodeMap[i := TAKEN][i := FREE] == s.inodeMap;
    }
  }

  lemma CreatedDir(s: Fs, name: Data, i: int)
    requires Safe(s) && NulFree(name) && LegalName(name) && name !in Dir(s) && 1 <= i < |s.inodes|
    requires FirstIndex(Slots(s.blocks[0]), UNUSED) != -1
    ensures var t := Created(s, name, i, FirstIndex(Slots(s.blocks[0]), UNUSED));
            Shape(t) && RootOk(t) && Dir(t) == Dir(s)[name := i]
  {
    var k := FirstIndex(Slots(s.blocks[0]), UNUSED);
    StoreSlot(s.blocks[0], k, Slot(PadName(name), i));
    AddSlot(Slots(s.blocks[0]), name, i);
  }

  lemma CreatedNames(s: Fs, t: Fs, name: Data, i: int)
    requires Shape(s) && Shape(t) && NamesOk(s, Dir(s)) && name !in Dir(s)
    requires 1 <= i < |s.inodes| && s.inodeMap[i] == FREE
    requires t.inodeMap == s.inodeMap[i := TAKEN] && Dir(t) == Dir(s)[name := i]
    ensures NamesOk(t, Dir(t))
  {
    var d := Dir(s);
    forall j | Live(t, j) ensures j in d[name := i].Values {
      if j == i {
        assert d[name := i][name] == i;
      } else {
        assert Live(s, j);
        var n :| n in d && d[n] == j;
        assert d[name := i][n] == j;
      }
    }
  }

  lemma CreatedBlocks(s: Fs, t: Fs, i: int)
    requires Shape(s) && Shape(t) && BlocksOk(s) && HandlesOk(s)
    requires 1 <= i < |s.inodes| && s.inodeMap[i] == FREE && t.p == s.p
    requires t.inodeMap == s.inodeMap[i := TAKEN] && t.inodes == s.inodes[i := Inode(T_FILE, 0, -1)]
    requires t.blockMap == s.blockMap && t.open == s.open && t.openMap == s.openMap
    ensures BlocksOk(t) && HandlesOk(t)
  {
    assert forall j | Live(t, j) && j != i :: Live(s, j);
  }

  /** Creating a file adds its name with a fresh inode, or leaves the directory as it was. */
  lemma MakeFileSafe(s: Fs, name: Data)
    requires Safe(s) && NulFree(name) && name !in Dir(s)
    ensures var (t, i) := MakeFile(s, name);
            && Safe(t)
            && Dir(t) == (if i == -1 then Dir(s) else Dir(s)[name := i])
            && (i != -1 ==> Usable(t, i) && Live(t, i))
  {
    hide DirMap, Slots, DirOk, FirstIndex, LegalName;
    MakeFileCases(s, name);
    FirstFreeMeaning(s.inodeMap);
    var (t, i) := MakeFile(s, name);
    hide MakeFile;
    if i != -1 {
      CreatedDir(s, name, i);
      CreatedNames(s, t, name, i);
      CreatedBlocks(s, t, i);
    } else {
      DirectoryKept(s, t);
      hide RootOk, NamesOk;
      assert forall j | Live(t, j) :: Live(s, j);
    }
  }

  // ---------- unlinking ----------

  lemma UnlinkDir(s: Fs, name: Data)
    requires Safe(s) && NulFree(name) && name in Dir(s)
    ensures LegalName(name) && ClearDirEntry(s, name).1 == 0
    ensures var t := ClearDirEntry(s, name).0;
            && t == s.(blocks := s.blocks[0 := t.blocks[0]])
            && Shape(t) && RootOk(t) && Dir(t) == Dir(s) - {name}
  {
    var k := FirstIndex(Slots(s.blocks[0]), NameEqualTo(name));
    ClearFindsLookup(Slots(s.blocks[0]), name);
    StoreSlot(s.blocks[0], k, CLEARED);
    ClearSlot(Slots(s.blocks[0]), name);
  }

  lemma UnlinkNames(s: Fs, t: Fs, name: Data)
    requires Shape(s) && Shape(t) && NamesOk(s, Dir(s)) && name in Dir(s)
    requires t.inodeMap == s.inodeMap[Dir(s)[name] := FREE] && Dir(t) == Dir(s) - {name}
    ensures NamesOk(t, Dir(t))
  {
    var d := Dir(s);
    var e := d - {name};
    forall j | Live(t, j) ensures j in e.Values {
      assert Live(s, j);
      var n :| n in d && d[n] == j;
      assert n in e && e[n] == j;
    }
  }

  lemma UnlinkBlocks(s: Fs, t: Fs, i: int)
    requires Shape(s) && Shape(t) && BlocksOk(s) && HandlesOk(s) && Live(s, i)
    requires t.inodeMap == s.inodeMap[i := FREE] && t.inodes == s.inodes && t.p == s.p
    requires t.blockMap == if s.inodes[i].size > 0 then s.blockMap[s.inodes[i].block := FREE] else s.blockMap
    requires t.open == s.open && t.openMap == s.openMap
    ensures BlocksOk(t) && HandlesOk(t)
  {
    assert forall j | Live(t, j) :: Live(s, j) && j != i;
  }

  /** The state after unlinking a file that exists. */
  ghost function Unlinked(s: Fs, name: Data): Fs
    requires Safe(s) && NulFree(name) && name in Dir(s) && LegalName(name)
  {
    ClearDirEntry(InodeDelete(s, Dir(s)[name]), name).0
  }

  lemma UnlinkedSafe(s: Fs, name: Data)
    requires Safe(s) && NulFree(name) && name in Dir(s)
    ensures LegalName(name) && ClearDirEntry(InodeDelete(s, Dir(s)[name]), name).1 == 0
    ensures Safe(Unlinked(s, name)) && Dir(Unlinked(s, name)) == Dir(s) - {name}
  {
    UnlinkDir(s, name);
    var t := Unlinked(s, name);
    assert t.blocks == ClearDirEntry(s, name).0.blocks;
    UnlinkNames(s, t, name);
    UnlinkBlocks(s, t, Dir(s)[name]);
  }

  lemma UnlinkOfFile(s: Fs, path: Path)
    requires Safe(s) && PathOk(path) && ValidPathname(path) && path.chars[1..] in Dir(s)
    ensures LegalName(path.chars[1..]) && Unlink(s, path) == (Unlinked(s, path.chars[1..]), 0)
  {
    LookupUsable(s, path.chars[1..]);
    UnlinkedSafe(s, path.chars[1..]);
    hide DirMap, Slots, DirOk;
  }

  /** What unlinking changes: one inode, its block, and a directory entry. */
  lemma UnlinkTables(s: Fs, name: Data)
    requires Safe(s) && NulFree(name) && name in Dir(s) && LegalName(name)
    ensures var t := Unlinked(s, name); var i := Dir(s)[name];
            && t.p == s.p && t.inodes == s.inodes && t.inodeMap == s.inodeMap[i := FREE]
            && t.open == s.open && t.openMap == s.openMap
            && t.blocks == s.blocks[0 := t.blocks[0]] && |t.blocks| == |s.blocks|
            && t.blockMap == (if s.inodes[i].size > 0 then s.blockMap[s.inodes[i].block := FREE] else s.blockMap)
            && Safe(t) && Dir(t) == Dir(s) - {name}
  {
    hide DirMap, Slots, FirstIndex, LegalName;
    UnlinkedSafe(s, name);
    UnlinkDir(s, name);
    assert Unlinked(s, name).blocks == ClearDirEntry(s, name).0.blocks;
  }

  // ---------- the initial state ----------

  lemma EmptyEntrySlot(block: Data, k: nat)
    requires k < MaxEntries(|block|)
    ensures Slots(Overlay(block, ENTRY_SIZE * k + MAX_FILE_NAME, ToInt32(-1)))
            == Slots(block)[k := Slot(Slots(block)[k].name, -1)]
  {
    var e := Slot(Slots(block)[k].name, -1);
    StoreSlot(block, k, e);
    assert SetSlot(block, k, e) == Overlay(block, ENTRY_SIZE * k + MAX_FILE_NAME, ToInt32(-1));
  }

  /** Labelling the entries touches no name: they stay whatever the memory held. */
  lemma {:induction false} EmptyEntriesSlots(block: Data, n: nat)
    requires n <= MaxEntries(|block|)
    ensures forall i | 0 <= i < MaxEntries(|block|) ::
              Slots(EmptyEntries(block, n))[i] ==
              if i < n then Slot(Slots(block)[i].name, -1) else Slots(block)[i]
  {
    hide Slots;
    if n > 0 {
      EmptyEntriesSlots(block, n - 1);
      EmptyEntrySlot(EmptyEntries(block, n - 1), n - 1);
    }
  }

  lemma {:induction false} AllFreeIsEmpty(slots: seq<Slot>)
    requires forall i | 0 <= i < |slots| :: IsFree(slots[i])
    ensures DirMap(slots) == map[]
  {
    if slots != [] {
      AllFreeIsEmpty(slots[..|slots| - 1]);
    }
  }

  /** Initialisation succeeds on any memory contents and gives an empty file system. */
  lemma InitSafe(m: Fs)
    requires Shape(m)
    ensures TfsInit(m).1 == 0 && Safe(TfsInit(m).0) && Dir(TfsInit(m).0) == map[]
    ensures var s := TfsInit(m).0;
            && (forall h :: !IsOpen(s, h))
            && (forall i | 0 <= i < |s.inodes| :: s.inodeMap[i] == TAKEN <==> i == ROOT_DIR_INUM)
            && (forall b | 0 <= b < |s.blocks| :: s.blockMap[b] == TAKEN <==> b == 0)
  {
    var z := StateInit(m);
    FirstFreeMeaning(z.inodeMap);
    FirstFreeMeaning(z.blockMap);
    assert z.inodeMap[0] == FREE && z.blockMap[0] == FREE;
    assert FirstFree(z.inodeMap) == 0 && FirstFree(z.blockMap) == 0;
    EmptyEntriesSlots(m.blocks[0], MaxEntries(m.p.blockSize));
    var s := TfsInit(m).0;
    AllFreeIsEmpty(Slots(s.blocks[0]));
  }

  // ---------- runs ----------

  lemma OpenSafe(s: Fs, path: Path, m: Mode)
    requires Safe(s) && PathOk(path)
    ensures Safe(Open(s, path, m).0)
  {
    if ValidPathname(path) {
      var name := path.chars[1..];
      LookupUsable(s, name);
      if name in Dir(s) {
        var i := Dir(s)[name];
        TruncateSafe(s, i);
        var s1 := if m.truncate then Truncate(s, i) else s;
        AddHandleSafe(s1, i, if m.append then s1.inodes[i].size else 0);
      } else if m.create {
        MakeFileSafe(s, name);
        var (s1, i) := MakeFile(s, name);
        if i != -1 {
          AddHandleSafe(s1, i, 0);
        }
      }
    }
  }

  lemma UnlinkSafe(s: Fs, path: Path)
    requires Safe(s) && PathOk(path)
    ensures Safe(Unlink(s, path).0)
  {
    if ValidPathname(path) {
      var name := path.chars[1..];
      LookupUsable(s, name);
      if name in Dir(s) {
        UnlinkedSafe(s, name);
      }
    }
  }

  /** One call, disciplined or not, keeps allocation safety. */
  lemma StepSafe(s: Fs, c: Call)
    requires Safe(s) && CallOk(s, c)
    ensures Safe(Step(s, c).0)
  {
    match c
    case OpenCall(path, mode) => OpenSafe(s, path, mode);
    case CloseCall(h) => CloseSafe(s, h);
    case WriteCall(h, buffer) => WriteSafe(s, h, buffer);
    case ReadCall(h, len) => ReadSafe(s, h, len);
    case UnlinkCall(path) => UnlinkSafe(s, path);
  }

  /** A run in which every read stays inside its file's block. */
  ghost predicate RunOk(s: Fs, calls: seq<Call>)
    requires Safe(s)
    decreases |calls|
  {
    calls == [] ||
    (CallOk(s, calls[0]) && (StepSafe(s, calls[0]); RunOk(Step(s, calls[0]).0, calls[1..])))
  }

  ghost function Run(s: Fs, calls: seq<Call>): (Fs, seq<Answer>)
    requires Safe(s) && RunOk(s, calls)
    decreases |calls|
  {
    if calls == [] then (s, [])
    else
      StepSafe(s, calls[0]);
      var (t, answer) := Step(s, calls[0]);
      var (u, answers) := Run(t, calls[1..]);
      (u, [answer] + answers)
  }

  lemma {:induction false} RunSafe(s: Fs, calls: seq<Call>)
    requires Safe(s) && RunOk(s, calls)
    ensures Safe(Run(s, calls).0)
    decreases |calls|
  {
    hide Safe, Step, CallOk;
    if calls != [] {
      StepSafe(s, calls[0]);
      RunSafe(Step(s, calls[0]).0, calls[1..]);
    }
  }

  /** The file system after `tfs_init` on memory `m`. */
  ghost function Boot(m: Fs): (s: Fs)
    requires Shape(m)
    ensures Safe(s)
  {
    InitSafe(m);
    TfsInit(m).0
  }

  /** From any initial memory, after any run whose reads stay in their blocks: no two existing files share a
      block, their blocks are TAKEN and none of them is the directory's, and every
      open handle can be used without leaving one block. */
  lemma AllocationSafety(m: Fs, calls: seq<Call>)
    requires Shape(m) && RunOk(Boot(m), calls)
    ensures var s := Run(Boot(m), calls).0;
            && (forall i, j | Live(s, i) && Live(s, j) && i != j && s.inodes[i].size > 0 && s.inodes[j].size > 0 ::
                  s.inodes[i].block != s.inodes[j].block)
            && (forall i | Live(s, i) && s.inodes[i].size > 0 ::
                  1 <= s.inodes[i].block < |s.blockMap| && s.blockMap[s.inodes[i].block] == TAKEN)
            && |s.inodeMap| > 0 && s.inodeMap[0] == TAKEN && |s.inodes| > 0 && s.inodes[0].block == 0
            && |s.blockMap| > 0 && s.blockMap[0] == TAKEN
            && (forall h | IsOpen(s, h) && h < |s.open| ::
                  Usable(s, s.open[h].inumber) && s.open[h].offset <= s.p.blockSize)
  {
    RunSafe(Boot(m), calls);
  }

  // ---------- handles left behind ----------

  /** A handle, if open, is not beyond the end of its inode's contents. */
  predicate Inside(s: Fs, h: int)
    requires Shape(s)
  {
    IsOpen(s, h) ==>
      0 <= s.open[h].inumber < |s.inodes| && s.open[h].offset <= s.inodes[s.open[h].inumber].size
  }

  /** A read that starts inside its file stays inside its block, whatever its length. */
  lemma InsideReadsOk(s: Fs, h: int, len: nat)
    requires Safe(s) && Inside(s, h)
    ensures ReadOk(s, h, len)
  {
    hide RootOk, NamesOk, BlocksOk;
  }

  /** No read, whatever its length, copies a byte past the end of the file exactly
      when it starts inside; further out, a read copies all it is asked for until
      the subtraction has wrapped around. */
  lemma ReadStaysInside(size: nat, offset: nat)
    requires size < SIZE_LIMIT && offset < SIZE_LIMIT
    ensures (forall len: nat | len < SIZE_LIMIT && ReadCount(size, offset, len) > 0 ::
               offset + ReadCount(size, offset, len) <= size)
            <==> offset <= size
    ensures offset > size ==>
              forall len: nat | len <= SIZE_LIMIT - (offset - size) :: ReadCount(size, offset, len) == len
  {
    if offset > size {
      assert (size - offset) % SIZE_LIMIT == size - offset + SIZE_LIMIT;
      assert ReadCount(size, offset, 1) == 1;
    }
  }

  /** The number of bytes a write copies when the sum of the source wraps around. */
  function WrappedWriteCount(offset: nat, length: nat, blockSize: nat): int {
    if (length + offset) % SIZE_LIMIT > blockSize then blockSize - offset else length
  }

  /** With the unsigned addition of the source a write stays inside its block, and
      copies what `WriteCount` says, exactly when the sum does not wrap around. */
  lemma WriteStaysInside(offset: nat, length: nat, blockSize: nat)
    requires offset <= blockSize < SIZE_LIMIT && length < SIZE_LIMIT
    ensures offset + WrappedWriteCount(offset, length, blockSize) <= blockSize <==> length + offset < SIZE_LIMIT
    ensures WrappedWriteCount(offset, length, blockSize) == WriteCount(offset, length, blockSize)
            <==> length + offset < SIZE_LIMIT
  {
    if length + offset >= SIZE_LIMIT {
      assert (length + offset) % SIZE_LIMIT == length + offset - SIZE_LIMIT;
    }
  }

  /** Truncating a file puts exactly those of its handles beyond the end that are not at offset 0. */
  lemma TruncateStrandsHandle(s: Fs, path: Path, m: Mode, h: int)
    requires Safe(s) && PathOk(path) && ValidPathname(path) && m.truncate
    requires path.chars[1..] in Dir(s)
    requires IsOpen(s, h) && s.open[h].inumber == Dir(s)[path.chars[1..]]
    ensures var t := Open(s, path, m).0;
            Safe(t) && IsOpen(t, h) && t.open[h] == s.open[h] && (Inside(t, h) <==> s.open[h].offset == 0)
  {
    OpenSafe(s, path, m);
    LookupUsable(s, path.chars[1..]);
    FirstFreeMeaning(s.openMap);
  }

  /** Unlinking an open file leaves its handle on an inode that no longer exists. */
  lemma UnlinkStrandsHandle(s: Fs, path: Path, h: int)
    requires Safe(s) && PathOk(path) && ValidPathname(path) && path.chars[1..] in Dir(s)
    requires IsOpen(s, h) && s.open[h].inumber == Dir(s)[path.chars[1..]]
    ensures var (t, r) := Unlink(s, path);
            r == 0 && Safe(t) && IsOpen(t, h) && t.open[h] == s.open[h] && !Live(t, t.open[h].inumber)
  {
    UnlinkSafe(s, path);
    LookupUsable(s, path.chars[1..]);
    UnlinkedSafe(s, path.chars[1..]);
  }
}
