/** Short runs from a new file system that reach what can go wrong: a leaked block,
    a file overwritten through another file's handle, a handle beyond the end of its file. */
module DanglingRuns {
  import opened Bytes
  import opened Scan
  import opened Directory
  import opened Tables
  import opened Safety
  import opened Accounting
  import opened Dangling
  import opened Streams

  function PathOf(name: Data): Path {
    Path([SLASH] + name)
  }

  const CREATE: Mode := Mode(true, false, false)
  const TRUNCATE: Mode := Mode(false, true, false)

  lemma RunFirst(s: Fs, c: Call, rest: seq<Call>)
    requires Safe(s) && CallOk(s, c) && Safe(Step(s, c).0) && RunOk(Step(s, c).0, rest)
    ensures RunOk(s, [c] + rest) && Run(s, [c] + rest).0 == Run(Step(s, c).0, rest).0
  {
    hide Safe, Step, CallOk;
    StepSafe(s, c);
    assert ([c] + rest)[1..] == rest;
  }

  lemma RunOne(s: Fs, c: Call)
    requires Safe(s) && CallOk(s, c)
    ensures RunOk(s, [c]) && Run(s, [c]).0 == Step(s, c).0
  {
    hide Safe, Step, CallOk;
    StepSafe(s, c);
    assert [c][1..] == [];
  }

  lemma RunThree(s: Fs, a: Call, b: Call, c: Call)
    requires Safe(s) && CallOk(s, a)
    requires var t := Step(s, a).0;
             Safe(t) && CallOk(t, b) && var u := Step(t, b).0; Safe(u) && CallOk(u, c)
    ensures RunOk(s, [a, b, c]) && Run(s, [a, b, c]).0 == Step(Step(Step(s, a).0, b).0, c).0
  {
    hide Safe, Step, CallOk;
    RunOne(Step(Step(s, a).0, b).0, c);
    RunFirst(Step(s, a).0, b, [c]);
    RunFirst(s, a, [b, c]);
    assert [a] + [b, c] == [a, b, c] && [b] + [c] == [b, c];
  }

  /** Room for one more file and one more handle. */
  ghost predicate Room(s: Fs)
    requires Safe(s)
  {
    FirstFree(s.inodeMap) != -1 && |Dir(s)| < MaxEntries(s.p.blockSize) && FirstFree(s.openMap) != -1
  }

  lemma NewFile(s: Fs, name: Data)
    requires Safe(s) && NulFree(name) && LegalName(name) && name !in Dir(s) && Room(s)
    ensures var (t, i) := MakeFile(s, name);
            && Safe(t) && t.p == s.p && i == FirstFree(s.inodeMap) && Live(t, i) && Usable(t, i)
            && Dir(t) == Dir(s)[name := i] && t.inodes[i].size == 0
            && t.open == s.open && t.openMap == s.openMap
            && t.blockMap == s.blockMap && t.inodeMap == s.inodeMap[i := TAKEN]
  {
    hide DirMap, Slots, DirOk, FirstIndex, LegalName, NamesOk, BlocksOk, HandlesOk;
    FullIffCount(Slots(s.blocks[0]));
    MakeFileCases(s, name);
    MakeFileSafe(s, name);
    FirstFreeMeaning(s.inodeMap);
  }

  lemma OpenNew(s: Fs, name: Data)
    requires Safe(s) && NulFree(name) && LegalName(name) && name !in Dir(s) && MakeFile(s, name).1 != -1
    ensures Open(s, PathOf(name), CREATE) == AddToOpenFileTable(MakeFile(s, name).0, MakeFile(s, name).1, 0)
  {
    hide MakeFile, AddToOpenFileTable, DirMap, Slots, DirOk, FirstIndex;
    LookupUsable(s, name);
    assert PathOf(name).chars[1..] == name;
  }

  /** Creating a file when there is room. */
  lemma CreateFile(s: Fs, name: Data)
    requires Safe(s) && NulFree(name) && LegalName(name) && name !in Dir(s) && Room(s)
    ensures var (t, h) := Open(s, PathOf(name), CREATE); var i := FirstFree(s.inodeMap);
            && Safe(t) && t.p == s.p && OnFile(t, h) && !IsOpen(s, h) && t.open[h] == OpenFile(i, 0)
            && Dir(t) == Dir(s)[name := i] && t.inodes[i].size == 0
            && h == FirstFree(s.openMap) && t.openMap == s.openMap[h := TAKEN]
            && t.blockMap == s.blockMap && t.inodeMap == s.inodeMap[i := TAKEN]
            && forall k | IsOpen(s, k) :: IsOpen(t, k) && k < |s.open| && t.open[k] == s.open[k]
  {
    hide DirMap, Slots, DirOk, FirstIndex, LegalName, MakeFile;
    NewFile(s, name);
    OpenNew(s, name);
    var (s1, i) := MakeFile(s, name);
    FirstFreeMeaning(s1.openMap);
    AddHandleSafe(s1, i, 0);
    hide RootOk, NamesOk, BlocksOk, HandlesOk;
  }

  lemma FirstFreeIs(ts: seq<Alloc>, i: nat)
    requires i < |ts| && ts[i] == FREE && forall k | 0 <= k < i :: ts[k] == TAKEN
    ensures FirstFree(ts) == i
  {
    FirstFreeBelow(ts, i);
  }

  /** A new file system with room for a file besides the root, with contents. */
  ghost predicate Roomy(m: Fs) {
    Shape(m) && m.p.inodes >= 2 && m.p.blocks >= 2 && m.p.openFiles >= 2
  }

  /** The first file of a new file system: inode 1, handle 0. */
  lemma FirstFile(m: Fs, name: Data)
    requires Roomy(m) && NulFree(name) && LegalName(name)
    ensures var (t, h) := Open(Boot(m), PathOf(name), CREATE);
            && h == 0 && Safe(t) && t.p == m.p && OnFile(t, 0) && t.open[0] == OpenFile(1, 0)
            && Dir(t) == map[name := 1] && t.inodes[1].size == 0
            && FirstFree(t.blockMap) == 1 && FirstFree(t.openMap) == 1
            && (forall i | 2 <= i < |t.inodeMap| :: t.inodeMap[i] == FREE) && t.inodeMap[0] == TAKEN
  {
    hide DirMap, Slots, DirOk, FirstIndex, LegalName;
    InitSafe(m);
    var s := Boot(m);
    assert s.p == m.p;
    FirstFreeIs(s.inodeMap, 1);
    FirstFreeIs(s.blockMap, 1);
    FirstFreeIs(s.openMap, 0);
    CreateFile(s, name);
    var t := Open(s, PathOf(name), CREATE).0;
    FirstFreeIs(t.openMap, 1);
  }

  // ---------- a leaked block ----------

  /** The first byte of an empty file takes the first free block. */
  lemma FirstByte(s: Fs, h: int, x: Byte)
    requires Safe(s) && IsOpen(s, h) && h < |s.open|
    requires 0 <= s.open[h].inumber < |s.inodes| && s.inodes[s.open[h].inumber].size == 0 && s.open[h].offset == 0
    requires FirstFree(s.blockMap) != -1
    ensures Write(s, h, [x]).1 == 1
  {
    hide DirMap, Slots, DirOk, FirstIndex, RootOk, NamesOk, BlocksOk;
  }

  lemma UnlinkFirstFile(s: Fs, a: Data)
    requires Accounted(s) && NulFree(a) && LegalName(a) && OnFile(s, 0) && s.open[0] == OpenFile(1, 0)
    requires Dir(s) == map[a := 1] && s.inodes[1].size == 0 && s.inodeMap[0] == TAKEN
    ensures PathOk(PathOf(a)) && Unlink(s, PathOf(a)).0 == Unlinked(s, a)
    ensures var t := Unlinked(s, a);
            && Safe(t) && BlocksExact(t) && t.p == s.p && t.open == s.open && t.openMap == s.openMap
            && t.blockMap == s.blockMap && t.inodes == s.inodes && Dir(t) == map[]
            && FirstFree(t.inodeMap) == 1 && !Live(t, 1)
  {
    assert ValidPathname(PathOf(a)) && PathOf(a).chars[1..] == a;
    hide DirMap, Slots, DirOk, FirstIndex, LegalName, Unlinked;
    UnlinkOfFile(s, PathOf(a));
    UnlinkTables(s, a);
    UnlinkAccounted(s, a);
    hide RootOk, NamesOk, BlocksOk, HandlesOk, BlocksExact;
    FirstFreeIs(Unlinked(s, a).inodeMap, 1);
  }

  /** After creating a file and unlinking it at once: the handle is open on an empty inode of no file. */
  lemma CreatedAndUnlinked(m: Fs, a: Data)
    requires Roomy(m) && NulFree(a) && LegalName(a)
    ensures var s1 := Open(Boot(m), PathOf(a), CREATE).0;
            && Safe(s1) && PathOk(PathOf(a))
            && var s2 := Unlink(s1, PathOf(a)).0;
            && Safe(s2) && BlocksExact(s2) && s2.p == m.p
            && IsOpen(s2, 0) && 0 < |s2.open| && s2.open[0] == OpenFile(1, 0) && !Live(s2, 1)
            && |s2.inodes| > 1 && s2.inodes[1].size == 0
            && FirstFree(s2.blockMap) == 1 && FirstFree(s2.openMap) == 1 && Dir(s2) == map[]
            && FirstFree(s2.inodeMap) == 1
  {
    FirstFile(m, a);
    BootAccounted(m);
    OpenAccounted(Boot(m), PathOf(a), CREATE);
    hide Boot, Open, Unlink, FirstFree, LegalName, Unlinked, BlocksExact, HandlesLive;
    hide RootOk, NamesOk, BlocksOk, HandlesOk;
    UnlinkFirstFile(Open(Boot(m), PathOf(a), CREATE).0, a);
  }

  lemma PathCallsOk(s: Fs, path: Path, m: Mode)
    requires Safe(s) && PathOk(path)
    ensures CallOk(s, OpenCall(path, m)) && CallOk(s, UnlinkCall(path))
    ensures Step(s, OpenCall(path, m)).0 == Open(s, path, m).0 && Step(s, UnlinkCall(path)).0 == Unlink(s, path).0
  {
    hide Open, Unlink;
  }

  lemma WriteCallsOk(s: Fs, h: int, buffer: Data)
    requires Safe(s)
    ensures CallOk(s, WriteCall(h, buffer)) && Step(s, WriteCall(h, buffer)).0 == Write(s, h, buffer).0
  {
    hide Write;
  }

  lemma DeadFirstByteLeaks(s: Fs, x: Byte)
    requires Safe(s) && BlocksExact(s) && IsOpen(s, 0) && 0 < |s.open| && s.open[0] == OpenFile(1, 0)
    requires !Live(s, 1) && |s.inodes| > 1 && s.inodes[1].size == 0 && FirstFree(s.blockMap) == 1
    ensures var t := Write(s, 0, [x]).0; Safe(t) && !BlocksExact(t) && exists b :: Leaked(t, b)
  {
    FirstByte(s, 0, x);
    WritesWhen(s, 0, [x]);
    hide Write, WritesSome, RootOk, NamesOk, BlocksOk, HandlesOk, BlocksExact;
    WriteLeaks(s, 0, [x]);
    var b := SomeLeak(Write(s, 0, [x]).0);
  }

  /** Create a file, unlink it, and write through its handle: a block is lost, for good. */
  lemma LeakReached(m: Fs, a: Data, x: Byte)
    requires Roomy(m) && NulFree(a) && LegalName(a)
    ensures var calls := [OpenCall(PathOf(a), CREATE), UnlinkCall(PathOf(a)), WriteCall(0, [x])];
            && RunOk(Boot(m), calls)
            && var s := Run(Boot(m), calls).0;
            && Safe(s) && !BlocksExact(s) && exists b :: Leaked(s, b)
  {
    CreatedAndUnlinked(m, a);
    var s0 := Boot(m);
    var s1 := Open(s0, PathOf(a), CREATE).0;
    var s2 := Unlink(s1, PathOf(a)).0;
    DeadFirstByteLeaks(s2, x);
    hide Open, Unlink, Write, BlocksExact, Boot, PathOf, Live, Safe, FirstFree, CallOk, Step, Leaked;
    PathCallsOk(s0, PathOf(a), CREATE);
    PathCallsOk(s1, PathOf(a), CREATE);
    WriteCallsOk(s2, 0, [x]);
    RunThree(s0, OpenCall(PathOf(a), CREATE), UnlinkCall(PathOf(a)), WriteCall(0, [x]));
  }

  lemma SomeLeak(s: Fs) returns (b: int)
    requires Safe(s) && !BlocksExact(s)
    ensures Leaked(s, b)
  {
    b :| 1 <= b < |s.blockMap| && s.blockMap[b] == TAKEN && !exists i :: Owns(s, i, b);
  }

  lemma BootAccounted(m: Fs)
    requires Shape(m)
    ensures Accounted(Boot(m))
  {
    InitSafe(m);
  }

  // ---------- an overwritten file ----------

  /** Two writes through two handles at the start of one file: the second overwrites the first. */
  lemma SecondOverwrites(s: Fs, x: Byte, y: Byte)
    requires Safe(s) && OnFile(s, 0) && OnFile(s, 1) && s.open[0] == OpenFile(1, 0) && s.open[1] == OpenFile(1, 0)
    requires FileOf(s, 1) == [] && FirstFree(s.blockMap) != -1
    ensures var t := Write(s, 1, [y]).0;
            && Safe(t) && Live(t, 1) && Content(t, 1) == [y]
            && var u := Write(t, 0, [x]).0;
            Safe(u) && Live(u, 1) && Content(u, 1) == [x]
  {
    FirstByte(s, 1, y);
    WriteAppends(s, 1, [y]);
    FitsBlock(s, 1);
    hide DirMap, Slots, DirOk, FirstIndex, RootOk, NamesOk;
    var t := Write(s, 1, [y]).0;
    assert [] + [y] == [y];
    assert t.open[0] == OpenFile(1, 0);
    assert Write(t, 0, [x]).1 == 1;
    WritesWhen(t, 0, [x]);
    WriteReaches(t, 0, [x], 1);
  }

  /** Create `/a`, unlink it, create `/b` and write to it: a write through the handle
      of `/a`, which was never opened on `/b`, then overwrites what `/b` holds. */
  lemma OverwriteReached(m: Fs, a: Data, b: Data, x: Byte, y: Byte)
    requires Roomy(m) && NulFree(a) && LegalName(a) && NulFree(b) && LegalName(b)
    ensures var calls := [OpenCall(PathOf(a), CREATE), UnlinkCall(PathOf(a)), OpenCall(PathOf(b), CREATE)];
            && RunOk(Boot(m), calls)
            && var s := Run(Boot(m), calls).0;
            && Safe(s) && Dir(s) == map[b := 1]
            && var t := Write(s, 1, [y]).0;
            && Safe(t) && Live(t, 1) && Content(t, 1) == [y]
            && var u := Write(t, 0, [x]).0;
            Safe(u) && Live(u, 1) && Content(u, 1) == [x]
  {
    CreatedAndUnlinked(m, a);
    var s0 := Boot(m);
    var s1 := Open(s0, PathOf(a), CREATE).0;
    var s2 := Unlink(s1, PathOf(a)).0;
    CreateOnReused(s2, b);
    var s3 := Open(s2, PathOf(b), CREATE).0;
    SecondOverwrites(s3, x, y);
    hide Open, Unlink, Write, Boot, PathOf, Live, Safe, FirstFree, CallOk, Step, Content, Dir;
    PathCallsOk(s0, PathOf(a), CREATE);
    PathCallsOk(s1, PathOf(a), CREATE);
    PathCallsOk(s2, PathOf(b), CREATE);
    RunThree(s0, OpenCall(PathOf(a), CREATE), UnlinkCall(PathOf(a)), OpenCall(PathOf(b), CREATE));
  }

  lemma CreateOnReused(s: Fs, b: Data)
    requires Safe(s) && NulFree(b) && LegalName(b) && Dir(s) == map[]
    requires IsOpen(s, 0) && 0 < |s.open| && s.open[0] == OpenFile(1, 0)
    requires FirstFree(s.blockMap) == 1 && FirstFree(s.openMap) == 1 && FirstFree(s.inodeMap) == 1
    ensures var t := Open(s, PathOf(b), CREATE).0;
            && PathOk(PathOf(b)) && Safe(t) && Dir(t) == map[b := 1] && FirstFree(t.blockMap) == 1
            && OnFile(t, 0) && OnFile(t, 1) && t.open[0] == OpenFile(1, 0) && t.open[1] == OpenFile(1, 0)
            && FileOf(t, 1) == []
  {
    hide DirMap, Slots, DirOk, FirstIndex, LegalName, FirstFree, NamesOk, BlocksOk, HandlesOk, RootOk;
    CreateFile(s, b);
    hide Open;
  }

  // ---------- a stranded handle ----------

  /** Create a file, write to it and truncate it: the handle is beyond its end. */
  lemma StrandedReached(m: Fs, a: Data, x: Byte)
    requires Roomy(m) && NulFree(a) && LegalName(a)
    ensures var calls := [OpenCall(PathOf(a), CREATE), WriteCall(0, [x]), OpenCall(PathOf(a), TRUNCATE)];
            && RunOk(Boot(m), calls)
            && var s := Run(Boot(m), calls).0;
            && Safe(s) && IsOpen(s, 0) && !Inside(s, 0)
  {
    FirstFile(m, a);
    var s0 := Boot(m);
    var s1 := Open(s0, PathOf(a), CREATE).0;
    WriteThenTruncate(s1, a, x);
    hide Open, Write, Boot, PathOf, Live, Safe, FirstFree, CallOk, Step, Dir, Inside;
    PathCallsOk(s0, PathOf(a), CREATE);
    WriteCallsOk(s1, 0, [x]);
    PathCallsOk(Write(s1, 0, [x]).0, PathOf(a), TRUNCATE);
    RunThree(s0, OpenCall(PathOf(a), CREATE), WriteCall(0, [x]), OpenCall(PathOf(a), TRUNCATE));
  }

  lemma WriteThenTruncate(s: Fs, a: Data, x: Byte)
    requires Safe(s) && NulFree(a) && LegalName(a) && OnFile(s, 0) && s.open[0] == OpenFile(1, 0)
    requires Dir(s) == map[a := 1] && s.inodes[1].size == 0 && FirstFree(s.blockMap) == 1
    ensures var t := Write(s, 0, [x]).0;
            && PathOk(PathOf(a)) && Safe(t)
            && var u := Open(t, PathOf(a), TRUNCATE).0;
            Safe(u) && IsOpen(u, 0) && !Inside(u, 0)
  {
    FirstByte(s, 0, x);
    WriteAppends(s, 0, [x]);
    WriteSafe(s, 0, [x]);
    assert PathOf(a).chars[1..] == a;
    FitsBlock(s, 0);
    hide Write, Open, RootOk, NamesOk, BlocksOk, HandlesOk, DirMap, Slots, Inside;
    TruncateStrandsHandle(Write(s, 0, [x]).0, PathOf(a), TRUNCATE, 0);
  }
}
