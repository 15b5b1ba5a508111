/** What each call answers and does in every safe state, whatever has been unlinked
    or truncated while open: cases and numbers, without reference to the operations' own tests. */
module Answers {
  import opened Bytes
  import opened Scan
  import opened Directory
  import opened Tables
  import opened Safety
  import opened Accounting
  import opened Dangling
  import opened Streams

  ghost predicate SomeFree(ts: seq<Alloc>) {
    exists i :: 0 <= i < |ts| && ts[i] == FREE
  }

  /** The least index that is FREE. */
  ghost predicate LeastFree(ts: seq<Alloc>, i: int) {
    0 <= i < |ts| && ts[i] == FREE && forall k | 0 <= k < i :: ts[k] == TAKEN
  }

  lemma FirstFreeIsLeast(ts: seq<Alloc>)
    ensures FirstFree(ts) == -1 <==> !SomeFree(ts)
    ensures FirstFree(ts) != -1 ==> LeastFree(ts, FirstFree(ts))
  {
    FirstFreeMeaning(ts);
  }

  function Min(a: nat, b: nat): nat {
    if a < b then a else b
  }

  // ---------- close ----------

  /** Closing an open handle answers 0 and closes that handle only; any other answers -1. */
  lemma CloseAnswer(s: Fs, h: int)
    requires Safe(s)
    ensures var (t, r) := Close(s, h);
            && t == s.(openMap := t.openMap) && |t.openMap| == |s.openMap|
            && r == (if 0 <= h < |s.openMap| && s.openMap[h] == TAKEN then 0 else -1)
            && forall k | 0 <= k < |s.openMap| ::
                 t.openMap[k] == if k == h then FREE else s.openMap[k]
  {
  }

  // ---------- read ----------

  /** A read through an open handle, whatever its inode is, answers the number of
      bytes up to the size, or to where the subtraction wraps, at most as many as
      asked for; delivers those bytes of the inode's block; and moves that handle only. */
  lemma ReadAnswer(s: Fs, h: int, len: nat)
    requires Safe(s) && ReadOk(s, h, len)
    ensures !IsOpen(s, h) ==> Read(s, h, len) == (s, -1, [])
    ensures IsOpen(s, h) && h < |s.open| && 0 <= s.open[h].inumber < |s.inodes| ==>
              var (t, r, data) := Read(s, h, len);
              var offset, node := s.open[h].offset, s.inodes[s.open[h].inumber];
              && r == Min(len, if offset <= node.size then node.size - offset else SIZE_LIMIT - (offset - node.size))
              && |data| == r
              && (forall k | 0 <= k < r ::
                    && 0 <= node.block < |s.blocks| && offset + k < |s.blocks[node.block]|
                    && data[k] == s.blocks[node.block][offset + k])
              && t == s.(open := t.open) && |t.open| == |s.open|
              && forall k | 0 <= k < |s.open| ::
                   t.open[k] == if k == h then OpenFile(s.open[h].inumber, offset + r) else s.open[k]
  {
    hide DirMap, Slots, DirOk, RootOk, NamesOk, BlocksOk;
    if IsOpen(s, h) {
      var offset, size := s.open[h].offset, s.inodes[s.open[h].inumber].size;
      if offset > size {
        assert (size - offset) % SIZE_LIMIT == SIZE_LIMIT - (offset - size);
      } else {
        assert (size - offset) % SIZE_LIMIT == size - offset;
      }
    }
  }

  // ---------- write ----------

  /** The answer of a write through an open handle, whatever its inode is. */
  lemma WriteAnswer(s: Fs, h: int, buffer: Data)
    requires Safe(s)
    ensures !IsOpen(s, h) ==> Write(s, h, buffer) == (s, -1)
    ensures IsOpen(s, h) && h < |s.open| && 0 <= s.open[h].inumber < |s.inodes| ==>
              var (t, r) := Write(s, h, buffer);
              && s.open[h].offset <= s.p.blockSize
              && var n := Min(|buffer|, s.p.blockSize - s.open[h].offset);
              && (r == -1 <==> n > 0 && s.inodes[s.open[h].inumber].size == 0 && !SomeFree(s.blockMap))
              && (r != -1 ==> r == n)
              && (r <= 0 ==> t == s)
  {
    FirstFreeIsLeast(s.blockMap);
    hide DirMap, Slots, DirOk, RootOk, NamesOk, BlocksOk, FirstFree, SomeFree;
  }

  /** What a write that writes something does: the bytes go to the inode's block, or to
      the least free one if the inode is empty; the handle moves, and the size grows to
      reach it; no other block, inode or handle changes. */
  lemma WriteEffect(s: Fs, h: int, buffer: Data)
    requires Safe(s) && WritesSome(s, h, buffer)
    ensures IsOpen(s, h) && h < |s.open| && 0 <= s.open[h].inumber < |s.inodes| && s.open[h].offset <= s.p.blockSize
    ensures var (t, r) := Write(s, h, buffer);
            var i, offset := s.open[h].inumber, s.open[h].offset;
            var n := Min(|buffer|, s.p.blockSize - offset);
            var end := offset + n;
            && r == n > 0
            && (if s.inodes[i].size > 0 then t.blockMap == s.blockMap && t.inodes[i].block == s.inodes[i].block
                else LeastFree(s.blockMap, t.inodes[i].block) && t.blockMap == s.blockMap[t.inodes[i].block := TAKEN])
            && t.inodes == s.inodes[i := t.inodes[i]] && t.inodes[i].kind == s.inodes[i].kind
            && t.inodes[i].size == (if s.inodes[i].size < end then end else s.inodes[i].size)
            && t.open == s.open[h := OpenFile(i, end)]
            && t.p == s.p && t.inodeMap == s.inodeMap && t.openMap == s.openMap
            && |t.blocks| == |s.blocks| && 0 <= t.inodes[i].block < |s.blocks|
            && (forall b | 0 <= b < |s.blocks| && b != t.inodes[i].block :: t.blocks[b] == s.blocks[b])
            && |t.blocks[t.inodes[i].block]| == |s.blocks[t.inodes[i].block]| == s.p.blockSize
            && forall k | 0 <= k < s.p.blockSize ::
                 t.blocks[t.inodes[i].block][k] ==
                 if offset <= k < end then buffer[k - offset] else s.blocks[t.inodes[i].block][k]
  {
    FirstFreeIsLeast(s.blockMap);
    WritesWhen(s, h, buffer);
    hide WritesSome;
    hide DirMap, Slots, DirOk, RootOk, NamesOk, BlocksOk, FirstFree, SomeFree;
  }

  // ---------- open ----------

  /** A valid path: a slash and at least one more byte. */
  predicate Rooted(path: Path) {
    path.Path? && |path.chars| >= 2 && path.chars[0] == 47
  }

  /** From `s` to `t` the least free handle, which is `r`, was put on inode `i` at that
      offset; with no free handle `r` is -1 and the handles are as before. */
  ghost predicate HandleAdded(s: Fs, t: Fs, r: int, i: int, offset: nat) {
    if SomeFree(s.openMap) then
      && LeastFree(s.openMap, r) && r < |s.open|
      && t.openMap == s.openMap[r := TAKEN] && t.open == s.open[r := OpenFile(i, offset)]
    else r == -1 && t.openMap == s.openMap && t.open == s.open
  }

  lemma HandleIsAdded(s: Fs, i: int, offset: nat)
    requires Shape(s)
    ensures var (t, r) := AddToOpenFileTable(s, i, offset);
            && HandleAdded(s, t, r, i, offset)
            && t == s.(open := t.open, openMap := t.openMap)
  {
    FirstFreeIsLeast(s.openMap);
    hide SomeFree;
  }

  lemma ContentKept(s: Fs, t: Fs, i: int)
    requires Shape(s) && Shape(t) && Usable(s, i) && t.p == s.p && t.inodes == s.inodes && t.blocks == s.blocks
    ensures Usable(t, i) && Content(t, i) == Content(s, i)
  {
  }

  /** Files from `s` are there in `t`, the one with inode `i` empty and the others with their contents. */
  ghost predicate OthersSame(s: Fs, t: Fs, i: int)
    requires Safe(s) && Safe(t)
  {
    forall j | Live(s, j) :: Live(t, j) && Content(t, j) == if j == i then [] else Content(s, j)
  }

  lemma TruncatedFiles(s: Fs, i: int)
    requires Safe(s) && Live(s, i)
    ensures var t := Truncate(s, i);
            && Safe(t) && Dir(t) == Dir(s) && OthersSame(s, t, i) && t.p == s.p && t.inodeMap == s.inodeMap
            && t.open == s.open && t.openMap == s.openMap
            && t.blockMap == if s.inodes[i].size > 0 then s.blockMap[s.inodes[i].block := FREE] else s.blockMap
  {
    hide DirMap, Slots, DirOk;
    TruncateSafe(s, i);
    var t := Truncate(s, i);
    forall j | Live(s, j) ensures Live(t, j) && Content(t, j) == if j == i then [] else Content(s, j) {
      if j != i {
        SameInode(s, t, j);
      }
    }
  }

  /** Adding a handle changes no file. */
  lemma HandleFiles(s: Fs, i: int, offset: nat)
    requires Safe(s) && Usable(s, i) && offset <= s.p.blockSize
    ensures var t := AddToOpenFileTable(s, i, offset).0;
            Safe(t) && Dir(t) == Dir(s) && forall j | Live(s, j) :: Live(t, j) && Content(t, j) == Content(s, j)
  {
    hide DirMap, Slots, DirOk;
    AddHandleSafe(s, i, offset);
    hide RootOk, NamesOk;
    var t := AddToOpenFileTable(s, i, offset).0;
    forall j | Live(s, j) ensures Live(t, j) && Content(t, j) == Content(s, j) {
      ContentKept(s, t, j);
    }
  }

  lemma OpenExistingIs(s: Fs, path: Path, m: Mode)
    requires Safe(s) && PathOk(path) && Rooted(path) && path.chars[1..] in Dir(s)
    ensures var i := Dir(s)[path.chars[1..]];
            && Live(s, i) && Usable(s, i) && Usable(Truncate(s, i), i)
            && Open(s, path, m) ==
               var s1 := if m.truncate then Truncate(s, i) else s;
               AddToOpenFileTable(s1, i, if m.append then s1.inodes[i].size else 0)
  {
    LookupUsable(s, path.chars[1..]);
    hide DirMap, Slots, DirOk, FirstIndex, AddToOpenFileTable;
  }

  /** Opening a file that exists: it is emptied if that was asked for, and no other file,
      name or inode changes; the handle starts at the end of the file or at its start. */
  lemma OpenExisting(s: Fs, path: Path, m: Mode)
    requires Safe(s) && PathOk(path) && Rooted(path) && path.chars[1..] in Dir(s)
    ensures var (t, r) := Open(s, path, m); var i := Dir(s)[path.chars[1..]];
            && Safe(t) && t.p == s.p && Dir(t) == Dir(s) && t.inodeMap == s.inodeMap && Live(t, i) && Live(s, i)
            && (forall j | Live(s, j) ::
                  Live(t, j) && Content(t, j) == if j == i && m.truncate then [] else Content(s, j))
            && t.blockMap == (if m.truncate && s.inodes[i].size > 0 then s.blockMap[s.inodes[i].block := FREE]
                              else s.blockMap)
            && HandleAdded(s, t, r, i, if m.append then |Content(t, i)| else 0)
  {
    OpenExistingIs(s, path, m);
    hide Open, DirMap, Slots, DirOk, FirstIndex, HandleAdded;
    var i := Dir(s)[path.chars[1..]];
    TruncatedFiles(s, i);
    var s1 := if m.truncate then Truncate(s, i) else s;
    var offset := if m.append then s1.inodes[i].size else 0;
    assert |Content(s1, i)| == s1.inodes[i].size;
    hide RootOk, NamesOk, BlocksOk, HandlesOk, Truncate, Content;
    HandleFiles(s1, i, offset);
    HandleIsAdded(s1, i, offset);
    HandleOnly(s, s1, Open(s, path, m).0, Open(s, path, m).1, i, offset);
  }

  lemma HandleOnly(s: Fs, s1: Fs, t: Fs, r: int, i: int, offset: nat)
    requires s1.open == s.open && s1.openMap == s.openMap && HandleAdded(s1, t, r, i, offset)
    ensures HandleAdded(s, t, r, i, offset)
  {
  }

  /** Opening a file that does not exist. It is created, empty and with the least free
      inode, exactly when that was asked for, the name has 1 to 39 bytes (none of them
      NUL), an inode is free, and the directory has a free entry of 44 bytes. */
  lemma OpenAbsent(s: Fs, path: Path, m: Mode)
    requires Safe(s) && PathOk(path) && Rooted(path) && path.chars[1..] !in Dir(s)
    ensures var (t, r) := Open(s, path, m); var name := path.chars[1..];
            && Safe(t) && t.p == s.p && t.blockMap == s.blockMap
            && (forall j | Live(s, j) :: Live(t, j) && Content(t, j) == Content(s, j))
            && if m.create && 1 <= |name| <= 39 && SomeFree(s.inodeMap) && |Dir(s)| < s.p.blockSize / 44 then
                 && name in Dir(t)
                 && var i := Dir(t)[name];
                 && LeastFree(s.inodeMap, i) && t.inodeMap == s.inodeMap[i := TAKEN]
                 && Dir(t) == Dir(s)[name := i] && Live(t, i) && Content(t, i) == []
                 && HandleAdded(s, t, r, i, 0)
               else
                 r == -1 && Dir(t) == Dir(s) && t.inodeMap == s.inodeMap
                 && t.open == s.open && t.openMap == s.openMap
  {
    hide DirMap, Slots, DirOk, FirstIndex, MakeFile, AddToOpenFileTable, HandleAdded;
    var name := path.chars[1..];
    LookupUsable(s, name);
    if m.create {
      CreatedFile(s, name);
      var (s1, i) := MakeFile(s, name);
      hide RootOk, NamesOk, BlocksOk, HandlesOk, Content, Safe;
      if i != -1 {
        HandleFiles(s1, i, 0);
        HandleIsAdded(s1, i, 0);
        HandleOnly(s, s1, Open(s, path, m).0, Open(s, path, m).1, i, 0);
      }
    }
  }

  lemma CreatedFile(s: Fs, name: Data)
    requires Safe(s) && NulFree(name) && name !in Dir(s)
    ensures var (t, i) := MakeFile(s, name);
            && Safe(t) && t.p == s.p && t.open == s.open && t.openMap == s.openMap && t.blockMap == s.blockMap
            && (forall j | Live(s, j) :: Live(t, j) && Content(t, j) == Content(s, j))
            && (i != -1 <==> 1 <= |name| <= 39 && SomeFree(s.inodeMap) && |Dir(s)| < s.p.blockSize / 44)
            && (if i == -1 then Dir(t) == Dir(s) && t.inodeMap == s.inodeMap
                else && LeastFree(s.inodeMap, i) && t.inodeMap == s.inodeMap[i := TAKEN] && Dir(t) == Dir(s)[name := i]
                     && Live(t, i) && Usable(t, i) && Content(t, i) == [])
  {
    hide DirMap, Slots, DirOk, FirstIndex, MakeFile;
    MakeFileSafe(s, name);
    MakeFileTables(s, name);
    MakeFileCases(s, name);
    CreateCondition(s, name);
    FullIffCount(Slots(s.blocks[0]));
    FirstFreeIsLeast(s.inodeMap);
    var t := MakeFile(s, name).0;
    hide SomeFree, FirstFree, RootOk, NamesOk, BlocksOk, HandlesOk;
    forall j | Live(s, j) ensures Live(t, j) && Content(t, j) == Content(s, j) {
      SameInode(s, t, j);
    }
  }

  /** A path that is not a slash with something after it opens and unlinks nothing. */
  lemma BadPath(s: Fs, path: Path, m: Mode)
    requires Safe(s) && PathOk(path) && !Rooted(path)
    ensures Open(s, path, m) == (s, -1) && Unlink(s, path) == (s, -1)
  {
  }

  /** Opening for append, when it succeeds, leaves the handle at the end of the file:
      after the contents there were, unless they were truncated or the file is new. */
  lemma OpenForAppend(s: Fs, path: Path, m: Mode)
    requires Safe(s) && PathOk(path) && m.append && Open(s, path, m).1 != -1
    ensures var (t, h) := Open(s, path, m);
            && Safe(t) && AtEnd(t, h) && Rooted(path)
            && FileOf(t, h) == if !m.truncate && path.chars[1..] in Dir(s)
                               then Content(s, Dir(s)[path.chars[1..]]) else []
  {
    hide Open, Dir, Content, RootOk, NamesOk, BlocksOk, HandlesOk;
    if !Rooted(path) {
      BadPath(s, path, m);
    } else if path.chars[1..] in Dir(s) {
      OpenExisting(s, path, m);
    } else {
      OpenAbsent(s, path, m);
    }
  }

  // ---------- unlink ----------

  /** Unlinking an existing file answers 0, removes that name, gives back its inode and its
      block if it has one, and changes no other file and no handle; otherwise -1. */
  lemma UnlinkAnswer(s: Fs, path: Path)
    requires Safe(s) && PathOk(path) && Rooted(path)
    ensures var (t, r) := Unlink(s, path); var name := path.chars[1..];
            if name !in Dir(s) then r == -1 && t == s
            else
              && var i := Dir(s)[name];
              && r == 0 && Safe(t) && t.p == s.p && Dir(t) == Dir(s) - {name}
              && Live(s, i) && t.inodeMap == s.inodeMap[i := FREE]
              && t.blockMap == (if s.inodes[i].size > 0 then s.blockMap[s.inodes[i].block := FREE] else s.blockMap)
              && (forall j | Live(s, j) && j != i :: Live(t, j) && Content(t, j) == Content(s, j))
              && t.open == s.open && t.openMap == s.openMap && t.inodes == s.inodes
  {
    hide DirMap, Slots, DirOk, FirstIndex, Unlinked;
    var name := path.chars[1..];
    LookupUsable(s, name);
    if name in Dir(s) {
      UnlinkOfFile(s, path);
      UnlinkTables(s, name);
      var t := Unlinked(s, name);
      hide Unlink;
      forall j | Live(s, j) && j != Dir(s)[name] ensures Live(t, j) && Content(t, j) == Content(s, j) {
        SameInode(s, t, j);
      }
    }
  }

  // ---------- inodes ----------

  /** A directory inode needs a free inode and a free block, and gets the least ones, its
      entries all empty; with either missing, no inode and no block stays TAKEN for it. */
  lemma DirectoryInode(s: Fs)
    requires Shape(s)
    ensures var (t, i) := InodeCreate(s, T_DIRECTORY);
            && t.p == s.p && t.open == s.open && t.openMap == s.openMap
            && if SomeFree(s.inodeMap) && SomeFree(s.blockMap) then
                 && LeastFree(s.inodeMap, i) && t.inodeMap == s.inodeMap[i := TAKEN]
                 && t.inodes[i].kind == T_DIRECTORY && t.inodes[i].size == s.p.blockSize
                 && LeastFree(s.blockMap, t.inodes[i].block)
                 && t.blockMap == s.blockMap[t.inodes[i].block := TAKEN]
                 && (forall k | 0 <= k < s.p.blockSize / 44 :: Slots(t.blocks[t.inodes[i].block])[k].inumber == -1)
               else
                 i == -1 && t.inodeMap == s.inodeMap && t.blockMap == s.blockMap && t.blocks == s.blocks
  {
    FirstFreeIsLeast(s.inodeMap);
    FirstFreeIsLeast(s.blockMap);
    hide SomeFree, FirstFree, Slots, EmptyEntries;
    var b := FirstFree(s.blockMap);
    if b != -1 {
      EmptyEntriesSlots(s.blocks[b], MaxEntries(s.p.blockSize));
    }
  }
}
