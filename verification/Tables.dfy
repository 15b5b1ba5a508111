/** The file system as values: the three allocation maps, the inode table, the
    open-file table and the data blocks, with the operations of fs/state.c and
    fs/operations.c as functions on them. `FileSystem` implements these
    functions in place; `Refinement` proves what they mean. */
module Tables {
  import opened Bytes
  import opened Scan
  import opened Directory

  const ROOT_DIR_INUM: nat := 0

  /** Number of values of `size_t`. */
  const SIZE_LIMIT: nat := 0x1_0000_0000_0000_0000

  datatype Params = Params(inodes: nat, blocks: nat, openFiles: nat, blockSize: nat) {
    /** Room for the root directory; table sizes and the number of directory entries fit an `int`. */
    predicate Ok() {
      && 1 <= inodes < INT_LIMIT
      && 1 <= blocks < INT_LIMIT
      && openFiles < INT_LIMIT
      && ENTRY_SIZE <= blockSize < ENTRY_SIZE * INT_LIMIT
    }
  }

  datatype Alloc = FREE | TAKEN
  datatype NodeType = T_FILE | T_DIRECTORY
  datatype Inode = Inode(kind: NodeType, size: nat, block: int)
  datatype OpenFile = OpenFile(inumber: int, offset: nat)

  datatype Fs = Fs(p: Params,
                   inodes: seq<Inode>, inodeMap: seq<Alloc>,
                   blocks: seq<Data>, blockMap: seq<Alloc>,
                   open: seq<OpenFile>, openMap: seq<Alloc>)

  datatype Mode = Mode(create: bool, truncate: bool, append: bool)
  datatype Path = NullPath | Path(chars: Data)

  // ---------- invariants ----------

  ghost predicate Shape(s: Fs) {
    && s.p.Ok()
    && |s.inodes| == |s.inodeMap| == s.p.inodes
    && |s.blocks| == |s.blockMap| == s.p.blocks
    && |s.open| == |s.openMap| == s.p.openFiles
    && forall b | 0 <= b < |s.blocks| :: |s.blocks[b]| == s.p.blockSize
  }

  ghost predicate RootOk(s: Fs)
    requires Shape(s)
  {
    && s.inodes[ROOT_DIR_INUM] == Inode(T_DIRECTORY, s.p.blockSize, 0)
    && s.inodeMap[ROOT_DIR_INUM] == TAKEN
    && s.blockMap[0] == TAKEN
    && DirOk(Slots(s.blocks[0]))
  }

  /** Inodes of files that exist now. */
  predicate Live(s: Fs, i: int) {
    1 <= i < |s.inodes| && |s.inodes| == |s.inodeMap| && s.inodeMap[i] == TAKEN
  }

  /** Inodes that can be read and written without leaving their block or reaching block 0. */
  predicate Usable(s: Fs, i: int) {
    && 1 <= i < |s.inodes|
    && s.inodes[i].kind == T_FILE
    && s.inodes[i].size <= s.p.blockSize
    && (s.inodes[i].size > 0 ==> 1 <= s.inodes[i].block < |s.blocks|)
  }

  predicate IsOpen(s: Fs, h: int) {
    0 <= h < |s.openMap| && s.openMap[h] == TAKEN
  }

  ghost predicate NamesOk(s: Fs, d: map<Data, int>) {
    && (forall n | n in d :: Live(s, d[n]))
    && (forall m, n | m in d && n in d && m != n :: d[m] != d[n])
    && (forall i | Live(s, i) :: i in d.Values)
  }

  ghost predicate BlocksOk(s: Fs)
    requires Shape(s)
  {
    && (forall i | Live(s, i) :: Usable(s, i))
    && (forall i | Live(s, i) && s.inodes[i].size > 0 :: s.blockMap[s.inodes[i].block] == TAKEN)
    && (forall i, j | Live(s, i) && Live(s, j) && i != j && s.inodes[i].size > 0 && s.inodes[j].size > 0 ::
          s.inodes[i].block != s.inodes[j].block)
  }

  ghost predicate HandlesOk(s: Fs)
    requires Shape(s)
  {
    forall h | IsOpen(s, h) :: Usable(s, s.open[h].inumber) && s.open[h].offset <= s.p.blockSize
  }

  /** The root directory as a map from names to inumbers. */
  ghost function Dir(s: Fs): map<Data, int>
    requires Shape(s)
  {
    DirMap(Slots(s.blocks[0]))
  }

  /** Allocation safety. It holds on every run, whatever is unlinked or truncated while open. */
  ghost predicate Safe(s: Fs) {
    Shape(s) && RootOk(s) && NamesOk(s, Dir(s)) && BlocksOk(s) && HandlesOk(s)
  }

  // ---------- fs/state.c ----------

  const AVAILABLE: Alloc -> bool := (a: Alloc) => a == FREE

  /** The first-fit scan of the three allocation maps. */
  function FirstFree(ts: seq<Alloc>): (r: int)
    ensures r == -1 || 0 <= r < |ts|
  {
    FirstIndex(ts, AVAILABLE)
  }

  lemma FirstFreeMeaning(ts: seq<Alloc>)
    ensures FirstFree(ts) == -1 ==> forall i | 0 <= i < |ts| :: ts[i] == TAKEN
    ensures FirstFree(ts) != -1 ==>
              ts[FirstFree(ts)] == FREE && forall i | 0 <= i < FirstFree(ts) :: ts[i] == TAKEN
  {
    var k := FirstFree(ts);
    if k == -1 {
      assert forall i | 0 <= i < |ts| :: !AVAILABLE(ts[i]);
    } else {
      assert AVAILABLE(ts[k]);
      assert forall i | 0 <= i < k :: !AVAILABLE(ts[i]);
    }
  }

  /** A directory block with every entry labelled empty; the names stay as they are in memory. */
  function EmptyEntries(block: Data, n: nat): (r: Data)
    requires n <= MaxEntries(|block|)
    ensures |r| == |block|
  {
    if n == 0 then block
    else Overlay(EmptyEntries(block, n - 1), ENTRY_SIZE * (n - 1) + MAX_FILE_NAME, ToInt32(-1))
  }

  function InodeDelete(s: Fs, i: int): Fs
    requires Shape(s) && 0 <= i < |s.inodes| && s.inodeMap[i] == TAKEN
    requires s.inodes[i].size > 0 ==> 0 <= s.inodes[i].block < |s.blocks|
  {
    s.(blockMap := if s.inodes[i].size > 0 then s.blockMap[s.inodes[i].block := FREE] else s.blockMap,
       inodeMap := s.inodeMap[i := FREE])
  }

  function InodeCreate(s: Fs, kind: NodeType): (r: (Fs, int))
    requires Shape(s)
    ensures Shape(r.0)
  {
    var i := FirstFree(s.inodeMap);
    if i == -1 then (s, -1)
    else
      match kind
      case T_FILE =>
        (s.(inodeMap := s.inodeMap[i := TAKEN], inodes := s.inodes[i := Inode(T_FILE, 0, -1)]), i)
      case T_DIRECTORY =>
        var b := FirstFree(s.blockMap);
        if b == -1 then
          (s.(inodes := s.inodes[i := Inode(T_DIRECTORY, 0, -1)]), -1)
        else
          (s.(inodeMap := s.inodeMap[i := TAKEN],
              inodes := s.inodes[i := Inode(T_DIRECTORY, s.p.blockSize, b)],
              blockMap := s.blockMap[b := TAKEN],
              blocks := s.blocks[b := EmptyEntries(s.blocks[b], MaxEntries(s.p.blockSize))]), i)
  }

  /** The block of the root directory with slot `k` replaced. */
  function SetSlot(block: Data, k: nat, e: Slot): (r: Data)
    requires k < MaxEntries(|block|)
    requires |e.name| == MAX_FILE_NAME && -INT_LIMIT <= e.inumber < INT_LIMIT
    ensures |r| == |block|
  {
    Overlay(block, ENTRY_SIZE * k, SlotBytes(e))
  }

  function AddDirEntry(s: Fs, name: Data, inumber: int): (Fs, int)
    requires Shape(s) && -INT_LIMIT <= inumber < INT_LIMIT
  {
    var k := FirstIndex(Slots(s.blocks[0]), UNUSED);
    if !LegalName(name) || k == -1 then (s, -1)
    else (s.(blocks := s.blocks[0 := SetSlot(s.blocks[0], k, Slot(PadName(name), inumber))]), 0)
  }

  function ClearDirEntry(s: Fs, name: Data): (Fs, int)
    requires Shape(s) && |name| < MAX_FILE_NAME
  {
    var k := FirstIndex(Slots(s.blocks[0]), NameEqualTo(name));
    if k == -1 then (s, -1)
    else (s.(blocks := s.blocks[0 := SetSlot(s.blocks[0], k, CLEARED)]), 0)
  }

  function AddToOpenFileTable(s: Fs, inumber: int, offset: nat): (Fs, int)
    requires Shape(s)
  {
    var h := FirstFree(s.openMap);
    if h == -1 then (s, -1)
    else (s.(openMap := s.openMap[h := TAKEN], open := s.open[h := OpenFile(inumber, offset)]), h)
  }

  // ---------- fs/operations.c ----------

  predicate ValidPathname(path: Path) {
    path.Path? && |path.chars| > 1 && path.chars[0] == SLASH
  }

  /** A path as the caller passes it: a C string. */
  ghost predicate PathOk(path: Path) {
    path.Path? ==> NulFree(path.chars)
  }

  function Truncate(s: Fs, i: int): Fs
    requires Shape(s) && Usable(s, i)
  {
    if s.inodes[i].size > 0 then
      s.(blockMap := s.blockMap[s.inodes[i].block := FREE],
         inodes := s.inodes[i := s.inodes[i].(size := 0)])
    else s
  }

  /** Creating an inode and its directory entry; a failed entry deletes the inode again. */
  function MakeFile(s: Fs, name: Data): (Fs, int)
    requires Shape(s)
  {
    var (s1, i) := InodeCreate(s, T_FILE);
    if i == -1 then (s1, -1)
    else
      var (s2, r) := AddDirEntry(s1, name, i);
      if r == -1 then (InodeDelete(s2, i), -1) else (s2, i)
  }

  /** Opening a file that does not exist yet. */
  function Create(s: Fs, name: Data): (Fs, int)
    requires Shape(s)
  {
    var (s1, i) := MakeFile(s, name);
    if i == -1 then (s1, -1) else AddToOpenFileTable(s1, i, 0)
  }

  /** Every inumber in the directory names a usable inode. */
  lemma LookupUsable(s: Fs, name: Data)
    requires Safe(s) && NulFree(name)
    ensures FindInDir(Slots(s.blocks[0]), name) == if name in Dir(s) then Dir(s)[name] else -1
    ensures name in Dir(s) ==> Live(s, Dir(s)[name]) && Usable(s, Dir(s)[name]) && LegalName(name)
  {
    FindIsLookup(Slots(s.blocks[0]), name);
    if name in Dir(s) {
      ClearFindsLookup(Slots(s.blocks[0]), name);
    }
  }

  function Open(s: Fs, path: Path, m: Mode): (Fs, int)
    requires Safe(s) && PathOk(path)
  {
    if !ValidPathname(path) then (s, -1)
    else
      var name := path.chars[1..];
      LookupUsable(s, name);
      var i := FindInDir(Slots(s.blocks[0]), name);
      if i >= 0 then
        var s1 := if m.truncate then Truncate(s, i) else s;
        AddToOpenFileTable(s1, i, if m.append then s1.inodes[i].size else 0)
      else if m.create then Create(s, name)
      else (s, -1)
  }

  function Close(s: Fs, h: int): (Fs, int)
    requires Shape(s)
  {
    if IsOpen(s, h) then (s.(openMap := s.openMap[h := FREE]), 0) else (s, -1)
  }

  function WriteCount(offset: nat, length: nat, blockSize: nat): (n: nat)
    requires offset <= blockSize
    ensures offset + n <= blockSize && n <= length
  {
    if length + offset > blockSize then blockSize - offset else length
  }

  function Write(s: Fs, h: int, buffer: Data): (Fs, int)
    requires Safe(s)
  {
    if !IsOpen(s, h) then (s, -1)
    else
      var f := s.open[h];
      var node := s.inodes[f.inumber];
      var n: int := WriteCount(f.offset, |buffer|, s.p.blockSize);
      if n == 0 then (s, 0)
      else if node.size == 0 && FirstFree(s.blockMap) == -1 then (s, -1)
      else
        var b := if node.size == 0 then FirstFree(s.blockMap) else node.block;
        var end := f.offset + n;
        (s.(blockMap := if node.size == 0 then s.blockMap[b := TAKEN] else s.blockMap,
            blocks := s.blocks[b := Overlay(s.blocks[b], f.offset, buffer[..n])],
            open := s.open[h := f.(offset := end)],
            inodes := s.inodes[f.inumber := Inode(node.kind, if end > node.size then end else node.size, b)]),
         n)
  }

  /** The number of bytes a read asks for, with the unsigned subtraction of the source. */
  function ReadCount(size: nat, offset: nat, len: nat): nat {
    var left := (size - offset) % SIZE_LIMIT;
    if left > len then len else left
  }

  /** The bytes that a read copies, if any, lie in the block that the inode names. */
  predicate ReadOk(s: Fs, h: int, len: nat)
    requires Shape(s)
  {
    IsOpen(s, h) ==>
      var f := s.open[h];
      0 <= f.inumber < |s.inodes| &&
      var node := s.inodes[f.inumber];
      var n := ReadCount(node.size, f.offset, len);
      n == 0 || (0 <= node.block < |s.blocks| && f.offset + n <= s.p.blockSize)
  }

  function Read(s: Fs, h: int, len: nat): (Fs, int, Data)
    requires Safe(s) && ReadOk(s, h, len)
  {
    if !IsOpen(s, h) then (s, -1, [])
    else
      var f := s.open[h];
      var node := s.inodes[f.inumber];
      var n: int := ReadCount(node.size, f.offset, len);
      if n == 0 then (s, 0, [])
      else (s.(open := s.open[h := f.(offset := f.offset + n)]), n,
            s.blocks[node.block][f.offset..f.offset + n])
  }

  function Unlink(s: Fs, path: Path): (Fs, int)
    requires Safe(s) && PathOk(path)
  {
    if !ValidPathname(path) then (s, -1)
    else
      var name := path.chars[1..];
      LookupUsable(s, name);
      var i := FindInDir(Slots(s.blocks[0]), name);
      if i == -1 then (s, -1)
      else ClearDirEntry(InodeDelete(s, i), name)
  }

  // ---------- calls and runs ----------

  datatype Call =
    | OpenCall(path: Path, mode: Mode)
    | CloseCall(handle: int)
    | WriteCall(handle: int, buffer: Data)
    | ReadCall(handle: int, len: nat)
    | UnlinkCall(path: Path)

  /** The integer a call returns, and the bytes a read stores in the caller's buffer. */
  datatype Answer = Answer(code: int, data: Data)

  ghost predicate CallOk(s: Fs, c: Call)
    requires Shape(s)
  {
    match c
    case OpenCall(path, _) => PathOk(path)
    case UnlinkCall(path) => PathOk(path)
    case ReadCall(h, len) => ReadOk(s, h, len)
    case _ => true
  }

  ghost function Step(s: Fs, c: Call): (Fs, Answer)
    requires Safe(s) && CallOk(s, c)
  {
    match c
    case OpenCall(path, mode) => var (t, r) := Open(s, path, mode); (t, Answer(r, []))
    case CloseCall(h) => var (t, r) := Close(s, h); (t, Answer(r, []))
    case WriteCall(h, buffer) => var (t, r) := Write(s, h, buffer); (t, Answer(r, []))
    case ReadCall(h, len) => var (t, r, data) := Read(s, h, len); (t, Answer(r, data))
    case UnlinkCall(path) => var (t, r) := Unlink(s, path); (t, Answer(r, []))
  }

  // ---------- tfs_init ----------

  /** `m` is freshly allocated memory: the right sizes, arbitrary contents. */
  function StateInit(m: Fs): (r: Fs)
    requires Shape(m)
    ensures Shape(r)
  {
    m.(inodeMap := seq(m.p.inodes, _ => FREE),
       blockMap := seq(m.p.blocks, _ => FREE),
       openMap := seq(m.p.openFiles, _ => FREE))
  }

  function TfsInit(m: Fs): (Fs, int)
    requires Shape(m)
  {
    var (s, root) := InodeCreate(StateInit(m), T_DIRECTORY);
    (s, if root != ROOT_DIR_INUM then -1 else 0)
  }
}
