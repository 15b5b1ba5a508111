/** The file system in place: six arrays, as fs/state.c keeps them, with the data
    area flat. Each method is proved to compute the function of the same name in `Tables`. */
module FileSystem {
  import opened Bytes
  import opened Scan
  import opened Directory
  import opened Tables
  import opened Safety
  import opened AbstractFs
  import opened Refinement

  // ---------- the flat data area ----------

  /** Where block `b` starts. */
  ghost function Base(b: nat, size: nat): nat {
    if b == 0 then 0 else Base(b - 1, size) + size
  }

  lemma {:induction false} BaseIsProduct(b: nat, size: nat)
    ensures Base(b, size) == b * size
  {
    if b > 0 {
      BaseIsProduct(b - 1, size);
      assert b * size == (b - 1) * size + size;
    }
  }

  /** Blocks do not overlap. */
  lemma {:induction false} BlocksApart(b: nat, c: nat, size: nat)
    requires b < c
    ensures Base(b, size) + size <= Base(c, size)
    decreases c
  {
    if b < c - 1 {
      BlocksApart(b, c - 1, size);
    }
  }

  ghost function BlockAt(d: Data, size: nat, n: nat, b: nat): (r: Data)
    requires |d| == Base(n, size) && b < n
    ensures |r| == size
  {
    BlocksApart(b, n, size);
    d[Base(b, size)..Base(b, size) + size]
  }

  /** The data area cut into its blocks. */
  ghost function Cut(d: Data, size: nat, n: nat): (r: seq<Data>)
    requires |d| == Base(n, size)
    ensures |r| == n
    ensures forall b | 0 <= b < n :: |r[b]| == size
  {
    seq(n, b requires 0 <= b < n => BlockAt(d, size, n, b))
  }

  lemma OverlayInBlock(d: Data, base: nat, size: nat, at: nat, src: Data)
    requires base + size <= |d| && at + |src| <= size
    ensures Overlay(d, base + at, src)[base..base + size] == Overlay(d[base..base + size], at, src)
  {
  }

  lemma OverlayElsewhere(d: Data, lo: nat, hi: nat, at: nat, src: Data)
    requires lo <= hi <= |d| && at + |src| <= |d| && (hi <= at || at + |src| <= lo)
    ensures Overlay(d, at, src)[lo..hi] == d[lo..hi]
  {
  }

  lemma BlockAtOverlay(d: Data, size: nat, n: nat, b: nat, at: nat, src: Data, c: nat)
    requires |d| == Base(n, size) && b < n && c < n && at + |src| <= size
    ensures Base(b, size) + at + |src| <= |d|
    ensures BlockAt(Overlay(d, Base(b, size) + at, src), size, n, c)
            == if c == b then Overlay(BlockAt(d, size, n, b), at, src) else BlockAt(d, size, n, c)
  {
    hide Overlay;
    BlocksApart(b, n, size);
    BlocksApart(c, n, size);
    var base := Base(b, size);
    if c == b {
      OverlayInBlock(d, base, size, at, src);
    } else {
      if b < c {
        BlocksApart(b, c, size);
      } else {
        BlocksApart(c, b, size);
      }
      OverlayElsewhere(d, Base(c, size), Base(c, size) + size, base + at, src);
    }
  }

  /** Bytes written inside one block reach no other block. */
  lemma CutOverlay(d: Data, size: nat, n: nat, b: nat, at: nat, src: Data)
    requires |d| == Base(n, size) && b < n && at + |src| <= size
    ensures Base(b, size) + at + |src| <= |d|
    ensures Cut(Overlay(d, Base(b, size) + at, src), size, n)
            == Cut(d, size, n)[b := Overlay(Cut(d, size, n)[b], at, src)]
  {
    hide Overlay, BlockAt, Base;
    BlockAtOverlay(d, size, n, b, at, src, b);
    forall c | 0 <= c < n
      ensures BlockAt(Overlay(d, Base(b, size) + at, src), size, n, c)
              == if c == b then Overlay(BlockAt(d, size, n, b), at, src) else BlockAt(d, size, n, c)
    {
      BlockAtOverlay(d, size, n, b, at, src, c);
    }
  }

  lemma SliceOfSlice(d: Data, base: nat, end: nat, lo: nat, hi: nat)
    requires base <= end <= |d| && lo <= hi <= end - base
    ensures d[base..end][lo..hi] == d[base + lo..base + hi]
  {
    var a, b := d[base..end][lo..hi], d[base + lo..base + hi];
    assert |a| == |b| == hi - lo;
    forall k | 0 <= k < hi - lo ensures a[k] == b[k] {
      assert a[k] == d[base..end][lo + k] == d[base + (lo + k)];
      assert b[k] == d[(base + lo) + k];
    }
  }

  /** An open handle can always be written through. */
  lemma HandleUsable(s: Fs, h: int)
    requires Safe(s) && IsOpen(s, h)
    ensures Shape(s) && Usable(s, s.open[h].inumber) && s.open[h].offset <= s.p.blockSize
  {
    hide RootOk, NamesOk, BlocksOk;
  }

  class FileSystem {
    const p: Params
    const inodeTable: array<Inode>
    const freeInodes: array<Alloc>
    const fsData: array<Byte>
    const freeBlocks: array<Alloc>
    const openFileTable: array<OpenFile>
    const freeOpenFileEntries: array<Alloc>

    /** The arrays have the sizes that `state_init` gives them and do not overlap. */
    ghost predicate Arrays() {
      && p.Ok()
      && inodeTable.Length == freeInodes.Length == p.inodes
      && fsData.Length == Base(p.blocks, p.blockSize)
      && freeBlocks.Length == p.blocks
      && openFileTable.Length == freeOpenFileEntries.Length == p.openFiles
      && freeInodes != freeBlocks && freeInodes != freeOpenFileEntries && freeBlocks != freeOpenFileEntries
    }

    ghost function Snapshot(): (s: Fs)
      reads inodeTable, freeInodes, fsData, freeBlocks, openFileTable, freeOpenFileEntries
      requires Arrays()
      ensures Shape(s)
    {
      Fs(p, inodeTable[..], freeInodes[..], Cut(fsData[..], p.blockSize, p.blocks), freeBlocks[..],
         openFileTable[..], freeOpenFileEntries[..])
    }

    ghost predicate Valid()
      reads inodeTable, freeInodes, fsData, freeBlocks, openFileTable, freeOpenFileEntries
    {
      Arrays() && Safe(Snapshot())
    }

    // ---------- fs/state.c: allocation maps ----------

    /** The scan of an allocation map that takes the first FREE entry. */
    method TakeFirstFree(ts: array<Alloc>) returns (r: int)
      modifies ts
      ensures r == FirstFree(old(ts[..]))
      ensures ts[..] == if r == -1 then old(ts[..]) else old(ts[..])[r := TAKEN]
    {
      for i := 0 to ts.Length
        invariant ts[..] == old(ts[..])
        invariant FirstFree(old(ts[..])) == FirstIndex(old(ts[..]), AVAILABLE, i)
      {
        if ts[i] == FREE {
          ts[i] := TAKEN;
          return i;
        }
      }
      return -1;
    }

    method DataBlockFree(b: int)
      requires 0 <= b < freeBlocks.Length
      modifies freeBlocks
      ensures freeBlocks[..] == old(freeBlocks[..])[b := FREE]
    {
      freeBlocks[b] := FREE;
    }

    /** The position of a block in the data area. */
    method DataBlockGet(b: int) returns (base: nat)
      requires Arrays() && 0 <= b < p.blocks
      ensures base == Base(b, p.blockSize) && base + p.blockSize <= fsData.Length
      ensures fsData[base..base + p.blockSize] == Snapshot().blocks[b]
    {
      BaseIsProduct(b, p.blockSize);
      BlocksApart(b, p.blocks, p.blockSize);
      base := b * p.blockSize;
    }

    method CopyIntoBlock(b: int, at: nat, src: Data)
      requires Arrays() && 0 <= b < p.blocks && at + |src| <= p.blockSize
      modifies fsData
      ensures var s := old(Snapshot()); Snapshot() == s.(blocks := s.blocks[b := Overlay(s.blocks[b], at, src)])
    {
      hide Cut, Overlay, Base;
      CutOverlay(fsData[..], p.blockSize, p.blocks, b, at, src);
      var base := DataBlockGet(b);
      CopyBytes(fsData, base + at, src);
    }

    // ---------- fs/state.c: the directory ----------

    /** `dir_entry[i]` of the directory block at `base`. */
    function DirEntry(base: nat, i: nat): (e: Slot)
      requires base + p.blockSize <= fsData.Length && i < MaxEntries(p.blockSize)
      reads fsData
      ensures e == Slots(fsData[base..base + p.blockSize])[i]
    {
      var at := base + ENTRY_SIZE * i;
      SliceOfSlice(fsData[..], base, base + p.blockSize, ENTRY_SIZE * i, ENTRY_SIZE * i + MAX_FILE_NAME);
      SliceOfSlice(fsData[..], base, base + p.blockSize, ENTRY_SIZE * i + MAX_FILE_NAME, ENTRY_SIZE * i + ENTRY_SIZE);
      Slot(fsData[at..at + MAX_FILE_NAME], FromInt32(fsData[at + MAX_FILE_NAME..at + ENTRY_SIZE]))
    }

    method FindInDir(name: Data) returns (r: int)
      requires Valid()
      ensures r == Directory.FindInDir(Slots(Snapshot().blocks[0]), name)
    {
      hide DirMap, DirOk, NamesOk, BlocksOk, HandlesOk;
      if inodeTable[ROOT_DIR_INUM].kind != T_DIRECTORY {
        assert false; // the root is a directory
      }
      var base := DataBlockGet(inodeTable[ROOT_DIR_INUM].block);
      ghost var slots := Slots(Snapshot().blocks[0]);
      for i := 0 to MaxEntries(p.blockSize)
        invariant FirstIndex(slots, Matching(name)) == FirstIndex(slots, Matching(name), i)
      {
        var e := DirEntry(base, i);
        assert e == slots[i];
        if e.inumber != -1 && StrnEqual(e.name, name, MAX_FILE_NAME) {
          assert Matching(name)(slots[i]);
          return e.inumber;
        }
        assert !Matching(name)(slots[i]);
      }
      return -1;
    }

    /** Writing one `dir_entry_t` of the root directory. */
    method StoreDirEntry(k: nat, e: Slot)
      requires Arrays() && k < MaxEntries(p.blockSize)
      requires |e.name| == MAX_FILE_NAME && -INT_LIMIT <= e.inumber < INT_LIMIT
      modifies fsData
      ensures var s := old(Snapshot()); Snapshot() == s.(blocks := s.blocks[0 := SetSlot(s.blocks[0], k, e)])
    {
      CopyIntoBlock(0, ENTRY_SIZE * k, SlotBytes(e));
    }

    method AddDirEntry(name: Data, inumber: int) returns (r: int)
      requires Arrays() && RootOk(Snapshot()) && -INT_LIMIT <= inumber < INT_LIMIT
      modifies fsData
      ensures (Snapshot(), r) == Tables.AddDirEntry(old(Snapshot()), name, inumber)
    {
      hide DirMap, DirOk, SetSlot, SlotBytes;
      if |name| == 0 || |name| > MAX_FILE_NAME - 1 {
        return -1;
      }
      if inodeTable[ROOT_DIR_INUM].kind != T_DIRECTORY {
        assert false; // the root is a directory
      }
      var base := DataBlockGet(inodeTable[ROOT_DIR_INUM].block);
      ghost var slots := Slots(Snapshot().blocks[0]);
      for i := 0 to MaxEntries(p.blockSize)
        invariant fsData[..] == old(fsData[..])
        invariant FirstIndex(slots, UNUSED) == FirstIndex(slots, UNUSED, i)
      {
        var e := DirEntry(base, i);
        assert e == slots[i];
        if e.inumber == -1 {
          assert UNUSED(slots[i]);
          StoreDirEntry(i, Slot(PadName(name), inumber));
          return 0;
        }
        assert !UNUSED(slots[i]);
      }
      return -1;
    }

    method ClearDirEntry(name: Data) returns (r: int)
      requires Arrays() && RootOk(Snapshot()) && |name| < MAX_FILE_NAME
      modifies fsData
      ensures (Snapshot(), r) == Tables.ClearDirEntry(old(Snapshot()), name)
    {
      hide DirMap, DirOk, SetSlot, SlotBytes;
      if inodeTable[ROOT_DIR_INUM].kind != T_DIRECTORY {
        assert false; // the root is a directory
      }
      var base := DataBlockGet(inodeTable[ROOT_DIR_INUM].block);
      ghost var slots := Slots(Snapshot().blocks[0]);
      for i := 0 to MaxEntries(p.blockSize)
        invariant fsData[..] == old(fsData[..])
        invariant FirstIndex(slots, NameEqualTo(name)) == FirstIndex(slots, NameEqualTo(name), i)
      {
        var e := DirEntry(base, i);
        assert e == slots[i];
        if StrnEqual(e.name, name, |name| + 1) {
          assert NameEqualTo(name)(slots[i]);
          StoreDirEntry(i, CLEARED);
          return 0;
        }
        assert !NameEqualTo(name)(slots[i]);
      }
      return -1;
    }

    // ---------- fs/state.c: inodes ----------

    method InodeDelete(i: int)
      requires Arrays() && 0 <= i < p.inodes && freeInodes[i] == TAKEN
      requires inodeTable[i].size > 0 ==> 0 <= inodeTable[i].block < p.blocks
      modifies freeInodes, freeBlocks
      ensures Snapshot() == Tables.InodeDelete(old(Snapshot()), i)
    {
      if inodeTable[i].size > 0 {
        DataBlockFree(inodeTable[i].block);
      }
      freeInodes[i] := FREE;
    }

    /** Filling a directory's block with empty entries. */
    method LabelEntries(b: int)
      requires Arrays() && 0 <= b < p.blocks
      modifies fsData
      ensures var s := old(Snapshot());
              Snapshot() == s.(blocks := s.blocks[b := EmptyEntries(s.blocks[b], MaxEntries(|s.blocks[b]|))])
    {
      ghost var before := Snapshot();
      ghost var block := before.blocks[b];
      for i := 0 to MaxEntries(p.blockSize)
        invariant Snapshot() == before.(blocks := before.blocks[b := EmptyEntries(block, i)])
      {
        CopyIntoBlock(b, ENTRY_SIZE * i + MAX_FILE_NAME, ToInt32(-1));
      }
    }

    method InodeCreate(kind: NodeType) returns (r: int)
      requires Arrays()
      modifies inodeTable, freeInodes, fsData, freeBlocks
      ensures (Snapshot(), r) == Tables.InodeCreate(old(Snapshot()), kind)
    {
      ghost var before := Snapshot();
      var i := TakeFirstFree(freeInodes);
      if i == -1 {
        return -1;
      }
      inodeTable[i] := inodeTable[i].(kind := kind);
      match kind {
        case T_DIRECTORY =>
          var b := TakeFirstFree(freeBlocks);
          if b == -1 {
            inodeTable[i] := inodeTable[i].(size := 0, block := -1);
            FirstFreeMeaning(before.inodeMap);
            InodeDelete(i);
            assert freeInodes[..] == before.inodeMap && freeBlocks[..] == before.blockMap;
            assert Snapshot().inodes == before.inodes[i := Inode(T_DIRECTORY, 0, -1)];
            assert Snapshot().blocks == before.blocks;
            return -1;
          }
          inodeTable[i] := inodeTable[i].(size := p.blockSize, block := b);
          assert Snapshot().blocks == before.blocks;
          LabelEntries(b);
          assert Snapshot().inodes == before.inodes[i := Inode(T_DIRECTORY, p.blockSize, b)];
          assert before.blocks[b] == old(Snapshot().blocks[b]);
        case T_FILE =>
          inodeTable[i] := inodeTable[i].(size := 0, block := -1);
          assert Snapshot().inodes == before.inodes[i := Inode(T_FILE, 0, -1)];
          assert Snapshot().blocks == before.blocks;
      }
      return i;
    }

    // ---------- fs/state.c: the open-file table ----------

    method AddToOpenFileTable(inumber: int, offset: nat) returns (r: int)
      requires Arrays()
      modifies openFileTable, freeOpenFileEntries
      ensures (Snapshot(), r) == Tables.AddToOpenFileTable(old(Snapshot()), inumber, offset)
    {
      r := TakeFirstFree(freeOpenFileEntries);
      if r != -1 {
        openFileTable[r] := OpenFile(inumber, offset);
      }
    }

    method RemoveFromOpenFileTable(h: int)
      requires 0 <= h < freeOpenFileEntries.Length && freeOpenFileEntries[h] == TAKEN
      modifies freeOpenFileEntries
      ensures freeOpenFileEntries[..] == old(freeOpenFileEntries[..])[h := FREE]
    {
      freeOpenFileEntries[h] := FREE;
    }

    /** Whether a handle has an entry: in range, and TAKEN. */
    method HasOpenFileEntry(h: int) returns (r: bool)
      requires Arrays()
      ensures r <==> IsOpen(Snapshot(), h)
    {
      r := 0 <= h < freeOpenFileEntries.Length && freeOpenFileEntries[h] == TAKEN;
    }

    // ---------- fs/operations.c ----------

    /** `tfs_init` on newly allocated memory, whose contents are arbitrary. */
    constructor (params: Params)
      requires params.Ok()
      ensures p == params && Valid()
      ensures fresh(inodeTable) && fresh(freeInodes) && fresh(fsData)
      ensures fresh(freeBlocks) && fresh(openFileTable) && fresh(freeOpenFileEntries)
      ensures exists m: Fs :: Shape(m) && m.p == params && Snapshot() == Boot(m)
      ensures Exact(Snapshot()) && Alpha(Snapshot()) == Start(params)
    {
      BaseIsProduct(params.blocks, params.blockSize);
      p := params;
      inodeTable := new Inode[params.inodes];
      freeInodes := new Alloc[params.inodes];
      fsData := new Byte[params.blocks * params.blockSize];
      freeBlocks := new Alloc[params.blocks];
      openFileTable := new OpenFile[params.openFiles];
      freeOpenFileEntries := new Alloc[params.openFiles];
      new;
      ghost var m := Snapshot();
      FillFree(freeInodes);
      FillFree(freeBlocks);
      FillFree(freeOpenFileEntries);
      assert Snapshot() == StateInit(m);
      var root := InodeCreate(T_DIRECTORY);
      InitSafe(m);
      BootRefines(m);
      assert Snapshot() == Boot(m);
    }

    method FillFree(ts: array<Alloc>)
      modifies ts
      ensures ts[..] == seq(ts.Length, _ => FREE)
    {
      for i := 0 to ts.Length
        invariant forall k | 0 <= k < i :: ts[k] == FREE
      {
        ts[i] := FREE;
      }
    }

    method TfsLookup(path: Path) returns (r: int)
      requires Valid() && PathOk(path)
      ensures r == if ValidPathname(path) then Directory.FindInDir(Slots(Snapshot().blocks[0]), path.chars[1..]) else -1
    {
      if !ValidPathname(path) {
        return -1;
      }
      r := FindInDir(path.chars[1..]);
    }

    method TfsOpen(path: Path, mode: Mode) returns (r: int)
      requires Valid() && PathOk(path)
      modifies inodeTable, freeInodes, fsData, freeBlocks, openFileTable, freeOpenFileEntries
      ensures Valid() && (Snapshot(), r) == Tables.Open(old(Snapshot()), path, mode)
    {
      hide DirMap, DirOk, BlocksOk, HandlesOk, Cut;
      ghost var s := Snapshot();
      OpenSafe(s, path, mode);
      if !ValidPathname(path) {
        return -1;
      }
      LookupUsable(s, path.chars[1..]);
      var inum := TfsLookup(path);
      var offset := 0;
      if inum >= 0 {
        if mode.truncate {
          if inodeTable[inum].size > 0 {
            DataBlockFree(inodeTable[inum].block);
            inodeTable[inum] := inodeTable[inum].(size := 0);
          }
          assert Snapshot() == Truncate(s, inum);
        }
        if mode.append {
          offset := inodeTable[inum].size;
        }
      } else if mode.create {
        inum := InodeCreate(T_FILE);
        if inum == -1 {
          return -1;
        }
        FirstFreeMeaning(s.inodeMap);
        var added := AddDirEntry(path.chars[1..], inum);
        if added == -1 {
          InodeDelete(inum);
          return -1;
        }
      } else {
        return -1;
      }
      r := AddToOpenFileTable(inum, offset);
    }

    method TfsClose(h: int) returns (r: int)
      requires Valid()
      modifies freeOpenFileEntries
      ensures Valid() && (Snapshot(), r) == Tables.Close(old(Snapshot()), h)
    {
      CloseSafe(Snapshot(), h);
      var open := HasOpenFileEntry(h);
      if !open {
        return -1;
      }
      RemoveFromOpenFileTable(h);
      return 0;
    }

    /** The second half of a write: copy into the file's block, then move the handle and the size. */
    method WriteToBlock(h: int, src: Data)
      requires Arrays() && 0 <= h < p.openFiles && 0 <= openFileTable[h].inumber < p.inodes
      requires 0 <= inodeTable[openFileTable[h].inumber].block < p.blocks
      requires openFileTable[h].offset + |src| <= p.blockSize
      modifies inodeTable, fsData, openFileTable
      ensures var s := old(Snapshot()); var f := s.open[h]; var node := s.inodes[f.inumber];
              var end := f.offset + |src|;
              var size := if end > node.size then end else node.size;
              Snapshot() == s.(blocks := s.blocks[node.block := Overlay(s.blocks[node.block], f.offset, src)],
                               open := s.open[h := f.(offset := end)],
                               inodes := s.inodes[f.inumber := node.(size := size)])
    {
      hide Overlay, Cut;
      var i := openFileTable[h].inumber;
      CopyIntoBlock(inodeTable[i].block, openFileTable[h].offset, src);
      openFileTable[h] := openFileTable[h].(offset := openFileTable[h].offset + |src|);
      if openFileTable[h].offset > inodeTable[i].size {
        inodeTable[i] := inodeTable[i].(size := openFileTable[h].offset);
      }
    }

    method TfsWrite(h: int, buffer: Data) returns (r: int)
      requires Valid()
      modifies inodeTable, fsData, freeBlocks, openFileTable
      ensures Valid() && (Snapshot(), r) == Tables.Write(old(Snapshot()), h, buffer)
    {
      hide Safe, Overlay, Cut, FirstIndex, DirMap, Slots;
      ghost var s := Snapshot();
      WriteSafe(s, h, buffer);
      var open := HasOpenFileEntry(h);
      if !open {
        return -1;
      }
      HandleUsable(s, h);
      var i := openFileTable[h].inumber;
      var offset := openFileTable[h].offset;
      var toWrite := |buffer|;
      if toWrite + offset > p.blockSize {
        toWrite := p.blockSize - offset;
      }
      if toWrite > 0 {
        if inodeTable[i].size == 0 {
          var bnum := TakeFirstFree(freeBlocks);
          if bnum == -1 {
            return -1;
          }
          inodeTable[i] := inodeTable[i].(block := bnum);
        }
        WriteToBlock(h, buffer[..toWrite]);
        assert Snapshot().inodes == Tables.Write(s, h, buffer).0.inodes;
      }
      return toWrite;
    }

    method TfsRead(h: int, len: nat) returns (r: int, data: Data)
      requires Valid() && ReadOk(Snapshot(), h, len)
      modifies openFileTable
      ensures Valid() && (Snapshot(), r, data) == Tables.Read(old(Snapshot()), h, len)
    {
      hide Safe, Cut, DirMap, Slots;
      ghost var s := Snapshot();
      ReadSafe(s, h, len);
      var open := HasOpenFileEntry(h);
      if !open {
        return -1, [];
      }
      HandleUsable(s, h);
      var i := openFileTable[h].inumber;
      var offset := openFileTable[h].offset;
      var toRead := (inodeTable[i].size - offset) % SIZE_LIMIT;
      if toRead > len {
        toRead := len;
      }
      data := [];
      if toRead > 0 {
        var base := DataBlockGet(inodeTable[i].block);
        var block := fsData[base..base + p.blockSize];
        data := block[offset..offset + toRead];
        openFileTable[h] := openFileTable[h].(offset := offset + toRead);
      }
      r := toRead;
    }

    method TfsUnlink(path: Path) returns (r: int)
      requires Valid() && PathOk(path)
      modifies freeInodes, fsData, freeBlocks
      ensures Valid() && (Snapshot(), r) == Tables.Unlink(old(Snapshot()), path)
    {
      ghost var s := Snapshot();
      UnlinkSafe(s, path);
      if !ValidPathname(path) {
        return -1;
      }
      LookupUsable(s, path.chars[1..]);
      var inum := TfsLookup(path);
      if inum == -1 {
        return -1;
      }
      InodeDelete(inum);
      r := ClearDirEntry(path.chars[1..]);
    }

    // ---------- runs ----------

    /** Any one call. */
    method PerformCall(c: Call) returns (answer: Answer)
      requires Valid() && CallOk(Snapshot(), c)
      modifies inodeTable, freeInodes, fsData, freeBlocks, openFileTable, freeOpenFileEntries
      ensures Valid() && (Snapshot(), answer) == Step(old(Snapshot()), c)
    {
      hide Safe, Tables.Open, Tables.Close, Tables.Write, Tables.Read, Tables.Unlink;
      var r: int;
      var data: Data := [];
      match c {
        case OpenCall(path, mode) => r := TfsOpen(path, mode);
        case CloseCall(h) => r := TfsClose(h);
        case WriteCall(h, buffer) => r := TfsWrite(h, buffer);
        case ReadCall(h, len) => r, data := TfsRead(h, len);
        case UnlinkCall(path) => r := TfsUnlink(path);
      }
      answer := Answer(r, data);
    }

    /** Any number of calls, one after the other. */
    method PerformCalls(calls: seq<Call>) returns (answers: seq<Answer>)
      requires Valid() && RunOk(Snapshot(), calls)
      modifies inodeTable, freeInodes, fsData, freeBlocks, openFileTable, freeOpenFileEntries
      ensures Valid() && (Snapshot(), answers) == Run(old(Snapshot()), calls)
    {
      hide Safe, Step, CallOk;
      answers := [];
      ghost var s := Snapshot();
      assert calls[0..] == calls && [] + Run(s, calls).1 == Run(s, calls).1;
      for i := 0 to |calls|
        invariant Valid() && RunOk(Snapshot(), calls[i..])
        invariant var (t, rest) := Run(Snapshot(), calls[i..]); (t, answers + rest) == Run(s, calls)
      {
        ghost var before := Snapshot();
        StepSafe(before, calls[i..][0]);
        assert calls[i..][1..] == calls[i + 1..];
        var answer := PerformCall(calls[i]);
        assert answers + ([answer] + Run(Snapshot(), calls[i + 1..]).1)
               == (answers + [answer]) + Run(Snapshot(), calls[i + 1..]).1;
        answers := answers + [answer];
      }
      assert calls[|calls|..] == [] && answers + [] == answers;
    }

    /** A new file system that performs a disciplined run answers as the abstract
        machine does, and ends in a state that represents the abstract one. */
    static method Serve(params: Params, calls: seq<Call>) returns (fs: FileSystem, answers: seq<Answer>)
      requires params.Ok() && AllowedRun(params, Start(params), calls)
      ensures fs.Valid() && Exact(fs.Snapshot())
      ensures (Alpha(fs.Snapshot()), answers) == ARun(params, Start(params), calls)
    {
      hide Safe, Exact, WellFormed, Alpha, AllowedRun, ARun, Run, RunOk;
      fs := new FileSystem(params);
      RunRefines(fs.Snapshot(), calls);
      answers := fs.PerformCalls(calls);
    }
  }
}
