/** Who owns what: every TAKEN inode and block is accounted for on every run that
    unlinks no open file, truncation of open files included. */
module Accounting {
  import opened Bytes
  import opened Scan
  import opened Directory
  import opened Tables
  import opened Safety

  predicate Owns(s: Fs, i: int, b: int) {
    Live(s, i) && s.inodes[i].size > 0 && s.inodes[i].block == b
  }

  /** Every TAKEN block other than the directory's has an owner. */
  ghost predicate BlocksExact(s: Fs)
    requires Shape(s)
  {
    forall b | 1 <= b < |s.blockMap| && s.blockMap[b] == TAKEN :: exists i :: Owns(s, i, b)
  }

  /** Every open handle is on an existing file. */
  ghost predicate HandlesLive(s: Fs)
    requires Shape(s)
  {
    forall h | IsOpen(s, h) :: Live(s, s.open[h].inumber)
  }

  /** No handle on a deleted file and no leaked block. */
  ghost predicate Accounted(s: Fs) {
    Safe(s) && HandlesLive(s) && BlocksExact(s)
  }

  function Content(s: Fs, i: int): Data
    requires Shape(s) && Usable(s, i)
  {
    if s.inodes[i].size == 0 then [] else s.blocks[s.inodes[i].block][..s.inodes[i].size]
  }

  /** What a read through a handle inside its file delivers and where it leaves the handle. */
  lemma ReadMeaning(s: Fs, h: int, len: nat)
    requires Safe(s) && IsOpen(s, h) && Live(s, s.open[h].inumber) && Inside(s, h)
    ensures ReadOk(s, h, len)
    ensures s.open[h].offset <= |Content(s, s.open[h].inumber)|
    ensures var f := s.open[h];
            var got := CutAt(Content(s, f.inumber)[f.offset..], len);
            Read(s, h, len) == (s.(open := s.open[h := f.(offset := f.offset + |got|)]), |got|, got)
  {
    hide DirMap, Slots, DirOk, FirstIndex, RootOk, NamesOk;
    var f := s.open[h];
    var node := s.inodes[f.inumber];
    assert Usable(s, f.inumber);
    var n := ReadCount(node.size, f.offset, len);
    assert n <= node.size - f.offset;
    if n == 0 {
      assert s.open[h := f] == s.open;
    } else {
      assert Content(s, f.inumber)[f.offset..][..n] == s.blocks[node.block][f.offset..f.offset + n];
    }
  }

  ghost function NameOfInode(s: Fs, i: int): (n: Data)
    requires Safe(s) && Live(s, i)
    ensures n in Dir(s) && Dir(s)[n] == i
  {
    assert i in Dir(s).Values;
    var n :| n in Dir(s) && Dir(s)[n] == i;
    n
  }

  // ---------- counting ----------

  ghost function TakenIn(ts: seq<Alloc>): set<int> {
    set i | 0 <= i < |ts| && ts[i] == TAKEN
  }

  /** The first-fit scan fails exactly when every entry is TAKEN. */
  lemma ScanFailsWhenAllTaken(ts: seq<Alloc>)
    ensures |TakenIn(ts)| <= |ts|
    ensures FirstFree(ts) == -1 <==> |TakenIn(ts)| == |ts|
  {
    FirstFreeMeaning(ts);
    SubsetSize(TakenIn(ts), UpTo(|ts|));
    var k := FirstFree(ts);
    if k != -1 {
      assert k in UpTo(|ts|) && k !in TakenIn(ts);
    }
  }

  /** An injective map has as many values as keys. */
  lemma {:induction false} InjectiveSize<K, V>(m: map<K, V>)
    requires forall x, y | x in m && y in m && x != y :: m[x] != m[y]
    ensures |m.Values| == |m|
    decreases |m|
  {
    if x :| x in m {
      var r := m - {x};
      assert m.Keys == r.Keys + {x};
      assert |m| == |m.Keys| && |r| == |r.Keys|;
      InjectiveSize(r);
      assert m.Values == r.Values + {m[x]} by {
        forall v | v in m.Values ensures v in r.Values + {m[x]} {
          var y :| y in m && m[y] == v;
          assert y != x ==> y in r && r[y] == v;
        }
        forall v | v in r.Values ensures v in m.Values {
          var y :| y in r && r[y] == v;
          assert y in m && m[y] == v;
        }
      }
      forall y | y in r ensures r[y] != m[x] {
        assert y in m && y != x;
      }
    } else {
      assert m == map[];
    }
  }

  /** An inode is TAKEN when it is the root or exactly one name has it. */
  lemma InodeAccounting(s: Fs)
    requires Safe(s)
    ensures TakenIn(s.inodeMap) == Dir(s).Values + {ROOT_DIR_INUM}
    ensures |TakenIn(s.inodeMap)| == 1 + |Dir(s)|
  {
    var d := Dir(s);
    InjectiveSize(d);
    forall i ensures i in TakenIn(s.inodeMap) <==> i in d.Values + {ROOT_DIR_INUM} {
      if i in TakenIn(s.inodeMap) && i != 0 {
        assert Live(s, i);
      }
    }
    assert ROOT_DIR_INUM !in d.Values;
  }

  /** The block of each non-empty file. */
  ghost function BlockOf(s: Fs): map<Data, int>
    requires Safe(s)
  {
    map n | n in Dir(s) && s.inodes[Dir(s)[n]].size > 0 :: s.inodes[Dir(s)[n]].block
  }

  lemma BlockOfInjective(s: Fs)
    requires Safe(s)
    ensures var m := BlockOf(s); forall x, y | x in m && y in m && x != y :: m[x] != m[y]
    ensures forall n | n in BlockOf(s) :: 1 <= BlockOf(s)[n] < |s.blockMap| && s.blockMap[BlockOf(s)[n]] == TAKEN
  {
  }

  lemma OwnerIsNamed(s: Fs, b: int)
    requires Accounted(s) && 1 <= b < |s.blockMap| && s.blockMap[b] == TAKEN
    ensures b in BlockOf(s).Values
  {
    var i :| Owns(s, i, b);
    var n := NameOfInode(s, i);
    assert n in BlockOf(s) && BlockOf(s)[n] == b;
  }

  lemma TakenBlocks(s: Fs)
    requires Accounted(s)
    ensures TakenIn(s.blockMap) == BlockOf(s).Values + {0} && 0 !in BlockOf(s).Values
  {
    hide DirMap, Slots, BlockOf;
    BlockOfInjective(s);
    forall b ensures b in TakenIn(s.blockMap) <==> b in BlockOf(s).Values + {0} {
      if b in TakenIn(s.blockMap) && b != 0 {
        OwnerIsNamed(s, b);
      }
    }
  }

  /** A block is TAKEN when it is the directory's or exactly one non-empty file has it. */
  lemma BlockAccounting(s: Fs)
    requires Accounted(s)
    ensures TakenIn(s.blockMap) == BlockOf(s).Values + {0}
    ensures |TakenIn(s.blockMap)| == 1 + |BlockOf(s)|
  {
    TakenBlocks(s);
    BlockOfInjective(s);
    hide Safe, Accounted, BlocksExact, BlockOf, TakenIn;
    InjectiveSize(BlockOf(s));
  }

  /** Creation succeeds in the tables exactly when the counts allow it. */
  lemma CreateCondition(s: Fs, name: Data)
    requires Safe(s)
    ensures (FirstFree(s.inodeMap) != -1 && LegalName(name) && FirstIndex(Slots(s.blocks[0]), UNUSED) != -1)
            <==> LegalName(name) && |Dir(s)| + 1 < s.p.inodes && |Dir(s)| < MaxEntries(s.p.blockSize)
  {
    InodeAccounting(s);
    ScanFailsWhenAllTaken(s.inodeMap);
    FullIffCount(Slots(s.blocks[0]));
  }

  // ---------- every call keeps the accounts ----------

  /** Blocks stay accounted for when none is newly TAKEN and owners keep those that stay TAKEN. */
  lemma OwnersKept(s: Fs, t: Fs)
    requires Shape(s) && Shape(t) && BlocksExact(s) && |t.blockMap| == |s.blockMap|
    requires forall b | 1 <= b < |t.blockMap| && t.blockMap[b] == TAKEN :: s.blockMap[b] == TAKEN
    requires forall i, b | 1 <= b < |t.blockMap| && t.blockMap[b] == TAKEN && Owns(s, i, b) :: Owns(t, i, b)
    ensures BlocksExact(t)
  {
    forall b | 1 <= b < |t.blockMap| && t.blockMap[b] == TAKEN ensures exists i :: Owns(t, i, b) {
      var i :| Owns(s, i, b);
      assert Owns(t, i, b);
    }
  }

  /** Truncation, under any handles: the block is freed and the file owns none. */
  lemma TruncateAccounted(s: Fs, i: int)
    requires Accounted(s) && Live(s, i)
    ensures Accounted(Truncate(s, i)) && Dir(Truncate(s, i)) == Dir(s)
  {
    TruncateSafe(s, i);
    hide Safe, DirMap, Slots, DirOk, RootOk, NamesOk;
    OwnersKept(s, Truncate(s, i));
  }

  lemma AddHandleAccounted(s: Fs, i: int, offset: nat)
    requires Accounted(s) && Live(s, i) && offset <= s.p.blockSize
    ensures Accounted(AddToOpenFileTable(s, i, offset).0)
  {
    hide DirMap, Slots, DirOk;
    AddHandleSafe(s, i, offset);
    OwnersKept(s, AddToOpenFileTable(s, i, offset).0);
  }

  lemma CloseAccounted(s: Fs, h: int)
    requires Accounted(s)
    ensures Accounted(Close(s, h).0)
  {
    hide DirMap, Slots, DirOk;
    CloseSafe(s, h);
    OwnersKept(s, Close(s, h).0);
  }

  lemma ReadAccounted(s: Fs, h: int, len: nat)
    requires Accounted(s) && ReadOk(s, h, len)
    ensures Accounted(Read(s, h, len).0)
  {
    hide DirMap, Slots, DirOk, ReadCount;
    ReadSafe(s, h, len);
    OwnersKept(s, Read(s, h, len).0);
  }

  lemma MakeFileAccounted(s: Fs, name: Data)
    requires Accounted(s) && NulFree(name) && name !in Dir(s)
    ensures Accounted(MakeFile(s, name).0)
  {
    hide DirMap, Slots, DirOk, FirstIndex, LegalName;
    MakeFileSafe(s, name);
    MakeFileCases(s, name);
    FirstFreeMeaning(s.inodeMap);
    OwnersKept(s, MakeFile(s, name).0);
  }

  lemma OpenAccounted(s: Fs, path: Path, m: Mode)
    requires Accounted(s) && PathOk(path)
    ensures Accounted(Open(s, path, m).0)
  {
    hide DirMap, Slots, DirOk, HandlesLive, BlocksExact;
    if ValidPathname(path) {
      var name := path.chars[1..];
      LookupUsable(s, name);
      if name in Dir(s) {
        var i := Dir(s)[name];
        TruncateAccounted(s, i);
        var s1 := if m.truncate then Truncate(s, i) else s;
        AddHandleAccounted(s1, i, if m.append then s1.inodes[i].size else 0);
      } else if m.create {
        MakeFileAccounted(s, name);
        MakeFileSafe(s, name);
        var (s1, i) := MakeFile(s, name);
        if i != -1 {
          AddHandleAccounted(s1, i, 0);
        }
      }
    }
  }

  /** A write through a handle on an existing file: what it takes, the file owns. */
  lemma WriteAccounted(s: Fs, h: int, buffer: Data)
    requires Safe(s) && BlocksExact(s) && (IsOpen(s, h) ==> Live(s, s.open[h].inumber))
    ensures BlocksExact(Write(s, h, buffer).0)
  {
    hide DirMap, Slots, DirOk, FirstIndex, NamesOk;
    FirstFreeMeaning(s.blockMap);
    var (t, r) := Write(s, h, buffer);
    if r > 0 {
      var i := s.open[h].inumber;
      forall b | 1 <= b < |t.blockMap| && t.blockMap[b] == TAKEN ensures exists j :: Owns(t, j, b) {
        if b == t.inodes[i].block {
          assert Owns(t, i, b);
        } else {
          assert s.blockMap[b] == TAKEN;
          var j :| Owns(s, j, b);
          assert Owns(t, j, b);
        }
      }
    }
  }

  lemma UnlinkAccounted(s: Fs, name: Data)
    requires Accounted(s) && NulFree(name) && name in Dir(s) && LegalName(name)
    ensures Safe(Unlinked(s, name)) && BlocksExact(Unlinked(s, name))
    ensures Accounted(Unlinked(s, name)) <==> forall h | IsOpen(s, h) :: s.open[h].inumber != Dir(s)[name]
  {
    hide DirMap, Slots, FirstIndex, DirOk, Unlinked;
    UnlinkTables(s, name);
    var i := Dir(s)[name];
    var t := Unlinked(s, name);
    assert forall j :: Live(t, j) <==> Live(s, j) && j != i;
    hide Safe, RootOk, NamesOk;
    OwnersKept(s, t);
  }

  /** Does a call unlink a file that is open? */
  ghost predicate UnlinksOpen(s: Fs, c: Call)
    requires Shape(s)
  {
    c.UnlinkCall? && ValidPathname(c.path) && c.path.chars[1..] in Dir(s) &&
    exists h :: IsOpen(s, h) && s.open[h].inumber == Dir(s)[c.path.chars[1..]]
  }

  /** A call keeps the accounts exactly when it does not unlink an open file. */
  lemma StepAccounted(s: Fs, c: Call)
    requires Accounted(s) && CallOk(s, c)
    ensures Accounted(Step(s, c).0) <==> !UnlinksOpen(s, c)
  {
    hide DirMap, Slots, DirOk, FirstIndex, BlocksExact;
    match c
    case OpenCall(path, mode) => OpenAccounted(s, path, mode);
    case CloseCall(h) => CloseAccounted(s, h);
    case WriteCall(h, buffer) =>
      WriteSafe(s, h, buffer);
      WriteAccounted(s, h, buffer);
    case ReadCall(h, len) => ReadAccounted(s, h, len);
    case UnlinkCall(path) =>
      if ValidPathname(path) {
        var name := path.chars[1..];
        LookupUsable(s, name);
        if name in Dir(s) {
          UnlinkAccounted(s, name);
        }
      }
  }

  /** A run that unlinks no file while it is open; it may truncate files while they are. */
  ghost predicate UnlinksClosed(s: Fs, calls: seq<Call>)
    requires Safe(s) && RunOk(s, calls)
    decreases |calls|
  {
    calls == [] ||
    (StepSafe(s, calls[0]);
     !UnlinksOpen(s, calls[0]) && UnlinksClosed(Step(s, calls[0]).0, calls[1..]))
  }

  lemma {:induction false} RunAccounted(s: Fs, calls: seq<Call>)
    requires Accounted(s) && RunOk(s, calls) && UnlinksClosed(s, calls)
    ensures Accounted(Run(s, calls).0)
    decreases |calls|
  {
    hide Safe, HandlesLive, BlocksExact, Step, CallOk, UnlinksOpen;
    if calls != [] {
      StepAccounted(s, calls[0]);
      StepSafe(s, calls[0]);
      RunAccounted(Step(s, calls[0]).0, calls[1..]);
    }
  }

  /** After any run whose reads stay in their blocks and that unlinks no open file:
      an inode is TAKEN exactly when it is the root or one name has it, a block
      exactly when it is the directory's or one non-empty file has it. */
  lemma ReachableAccounting(m: Fs, calls: seq<Call>)
    requires Shape(m) && RunOk(Boot(m), calls) && UnlinksClosed(Boot(m), calls)
    ensures var s := Run(Boot(m), calls).0;
            && Accounted(s)
            && TakenIn(s.inodeMap) == Dir(s).Values + {ROOT_DIR_INUM}
            && |TakenIn(s.inodeMap)| == 1 + |Dir(s)|
            && TakenIn(s.blockMap) == BlockOf(s).Values + {0}
            && |TakenIn(s.blockMap)| == 1 + |BlockOf(s)|
            && (forall x, y | x in BlockOf(s) && y in BlockOf(s) && x != y :: BlockOf(s)[x] != BlockOf(s)[y])
  {
    InitSafe(m);
    hide Safe, BlockOf, TakenIn, Dir, Run, RunOk, UnlinksClosed;
    RunAccounted(Boot(m), calls);
    var s := Run(Boot(m), calls).0;
    InodeAccounting(s);
    BlockAccounting(s);
    BlockOfInjective(s);
  }
}
