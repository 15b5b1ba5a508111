/** The tables refine the abstract file system: every disciplined call returns
    what the abstract call returns and has exactly its effect. */
module Refinement {
  import opened Bytes
  import opened Scan
  import opened Directory
  import opened Tables
  import opened Safety
  import opened Accounting
  import opened AbstractFs

  // ---------- the exact invariant and the abstraction ----------

  /** Handles are positions in existing files. */
  ghost predicate HandlesExact(s: Fs)
    requires Shape(s)
  {
    forall h | IsOpen(s, h) ::
      Live(s, s.open[h].inumber) && s.open[h].offset <= s.inodes[s.open[h].inumber].size
  }

  /** No dangling handle and no leaked block. */
  ghost predicate Exact(s: Fs) {
    Safe(s) && HandlesExact(s) && BlocksExact(s)
  }

  lemma ExactIsAccounted(s: Fs)
    requires Exact(s)
    ensures Accounted(s)
  {
    hide Safe, BlocksExact;
  }

  ghost function AlphaFiles(s: Fs): map<Data, Data>
    requires Safe(s)
  {
    map n | n in Dir(s) :: Content(s, Dir(s)[n])
  }

  ghost function AlphaHandles(s: Fs): map<int, Handle>
    requires Exact(s)
  {
    map h | 0 <= h < |s.openMap| && s.openMap[h] == TAKEN ::
      Handle(NameOfInode(s, s.open[h].inumber), s.open[h].offset)
  }

  ghost function Alpha(s: Fs): Abs
    requires Exact(s)
  {
    Abs(AlphaFiles(s), AlphaHandles(s))
  }

  lemma AlphaWellFormed(s: Fs)
    requires Exact(s)
    ensures WellFormed(s.p, Alpha(s))
  {
    hide DirMap, Slots, FirstIndex, LegalName, RootOk;
  }

  /** The files with a block are the non-empty ones. */
  lemma NonEmptyFiles(s: Fs)
    requires Safe(s)
    ensures BlockOf(s).Keys == NonEmpty(AlphaFiles(s)) && |BlockOf(s)| == |NonEmpty(AlphaFiles(s))|
  {
    hide DirMap, Slots, RootOk;
    assert |BlockOf(s)| == |BlockOf(s).Keys|;
  }

  /** The handle the tables give out is the least one not in use. */
  lemma SameHandleChoice(s: Fs, handles: set<int>)
    requires Shape(s) && forall h :: h in handles <==> IsOpen(s, h)
    ensures FreeHandle(handles, s.p.openFiles) == FirstFree(s.openMap)
  {
    FirstFreeMeaning(s.openMap);
    var a, b := FreeHandle(handles, s.p.openFiles), FirstFree(s.openMap);
    assert a != -1 ==> !IsOpen(s, a);
    assert b != -1 ==> b !in handles;
    assert forall h | 0 <= h < |s.openMap| && s.openMap[h] == TAKEN :: IsOpen(s, h);
  }

  // ---------- simulation, one operation at a time ----------

  /** States that agree on names, contents and handles have the same abstraction. */
  lemma SameAlpha(s: Fs, a: Abs)
    requires Exact(s)
    requires a.files.Keys == Dir(s).Keys
    requires forall n | n in Dir(s) :: a.files[n] == Content(s, Dir(s)[n])
    requires forall h :: h in a.handles <==> IsOpen(s, h)
    requires forall h | IsOpen(s, h) ::
               a.handles[h].offset == s.open[h].offset
               && a.handles[h].name in Dir(s) && Dir(s)[a.handles[h].name] == s.open[h].inumber
    ensures Alpha(s) == a
  {
    hide DirMap, Slots, FirstIndex, LegalName, RootOk, BlocksOk, BlocksExact;
    assert Alpha(s).files == a.files;
    hide Content;
    forall h | IsOpen(s, h) ensures Alpha(s).handles[h] == a.handles[h] {
      var n := NameOfInode(s, s.open[h].inumber);
      assert n == a.handles[h].name;
    }
    assert Alpha(s).handles == a.handles;
  }

  /** Changing only the open-file table keeps the files and the owners of blocks. */
  lemma HandlesOnly(s: Fs, t: Fs)
    requires Exact(s) && Safe(t) && t == s.(open := t.open, openMap := t.openMap)
    ensures Dir(t) == Dir(s) && AlphaFiles(t) == AlphaFiles(s)
    ensures BlocksExact(t)
  {
    hide DirMap, Slots, FirstIndex, LegalName, RootOk;
    OwnersKept(s, t);
  }

  lemma OpenHandleExact(s: Fs, i: int, offset: nat)
    requires Exact(s) && Live(s, i) && offset <= s.inodes[i].size && FirstFree(s.openMap) != -1
    ensures var (t, h) := AddToOpenFileTable(s, i, offset);
            && Exact(t) && Dir(t) == Dir(s) && AlphaFiles(t) == AlphaFiles(s) && !IsOpen(s, h)
            && forall k :: IsOpen(t, k) <==> k == h || IsOpen(s, k)
  {
    AddHandleSafe(s, i, offset);
    var (t, h) := AddToOpenFileTable(s, i, offset);
    HandlesOnly(s, t);
    FirstFreeMeaning(s.openMap);
    assert HandlesExact(t);
  }

  lemma SimOpenHandle(s: Fs, name: Data, offset: nat)
    requires Exact(s) && name in Dir(s) && offset <= s.inodes[Dir(s)[name]].size
    ensures var (t, h) := AddToOpenFileTable(s, Dir(s)[name], offset);
            Exact(t) && t.p == s.p && (Alpha(t), h) == AOpenHandle(s.p, Alpha(s), name, offset)
  {
    SameHandleChoice(s, Alpha(s).handles.Keys);
    if FirstFree(s.openMap) != -1 {
      var i := Dir(s)[name];
      OpenHandleExact(s, i, offset);
      var (t, h) := AddToOpenFileTable(s, i, offset);
      var a := Abs(AlphaFiles(s), AlphaHandles(s)[h := Handle(name, offset)]);
      forall k | IsOpen(t, k)
        ensures a.handles[k].offset == t.open[k].offset
                && a.handles[k].name in Dir(t) && Dir(t)[a.handles[k].name] == t.open[k].inumber
      {
        if k != h {
          assert t.open[k] == s.open[k];
        }
      }
      SameAlpha(t, a);
    }
  }

  lemma TruncateExact(s: Fs, i: int)
    requires Exact(s) && Live(s, i)
    requires forall h | IsOpen(s, h) && s.open[h].inumber == i :: s.open[h].offset == 0
    ensures Exact(Truncate(s, i))
  {
    ExactIsAccounted(s);
    TruncateAccounted(s, i);
    hide Safe, BlocksExact;
  }

  /** Handles stand for the same names when the directory still maps those names to their inodes. */
  lemma SameHandles(s: Fs, t: Fs)
    requires Exact(s) && Exact(t) && t.open == s.open && t.openMap == s.openMap
    requires forall h | IsOpen(s, h) ::
               var n := NameOfInode(s, s.open[h].inumber); n in Dir(t) && Dir(t)[n] == s.open[h].inumber
    ensures AlphaHandles(t) == AlphaHandles(s)
  {
    hide DirMap, Slots, FirstIndex, LegalName, RootOk;
    forall h | IsOpen(s, h) ensures NameOfInode(t, t.open[h].inumber) == NameOfInode(s, s.open[h].inumber) {
      assert NamesOk(t, Dir(t));
    }
  }

  lemma TruncateFiles(s: Fs, name: Data)
    requires Safe(s) && name in Dir(s) && Safe(Truncate(s, Dir(s)[name]))
    ensures Dir(Truncate(s, Dir(s)[name])) == Dir(s)
    ensures AlphaFiles(Truncate(s, Dir(s)[name])) == AlphaFiles(s)[name := []]
  {
    hide DirMap, Slots, FirstIndex, LegalName, RootOk;
    var i := Dir(s)[name];
    var t := Truncate(s, i);
    forall n | n in Dir(s) ensures Content(t, Dir(s)[n]) == if n == name then [] else Content(s, Dir(s)[n]) {
      assert n != name ==> Dir(s)[n] != i;
    }
  }

  lemma SimTruncate(s: Fs, name: Data)
    requires Exact(s) && name in Dir(s)
    requires forall h | IsOpen(s, h) && s.open[h].inumber == Dir(s)[name] :: s.open[h].offset == 0
    ensures var t := Truncate(s, Dir(s)[name]);
            Exact(t) && Dir(t) == Dir(s) && Alpha(t) == Alpha(s).(files := Alpha(s).files[name := []])
  {
    var i := Dir(s)[name];
    TruncateExact(s, i);
    TruncateFiles(s, name);
    SameHandles(s, Truncate(s, i));
  }

  // ---------- creation ----------

  lemma CreatedExact(s: Fs, name: Data)
    requires Exact(s) && NulFree(name) && name !in Dir(s) && MakeFile(s, name).1 != -1
    ensures var (t, i) := MakeFile(s, name);
            Exact(t) && Dir(t) == Dir(s)[name := i] && s.inodeMap[i] == FREE
  {
    hide DirMap, Slots, FirstIndex, LegalName, RootOk;
    MakeFileSafe(s, name);
    MakeFileCases(s, name);
    FirstFreeMeaning(s.inodeMap);
    ExactIsAccounted(s);
    MakeFileAccounted(s, name);
  }

  /** An inode that did not change, with its block as before, has the same contents. */
  lemma SameContent(s: Fs, t: Fs, j: int)
    requires Shape(s) && Shape(t) && Usable(s, j) && |t.inodes| == |s.inodes| && t.p == s.p
    requires t.inodes[j] == s.inodes[j]
    requires |t.blocks| == |s.blocks| && forall b | 1 <= b < |s.blocks| :: t.blocks[b] == s.blocks[b]
    ensures Usable(t, j) && Content(t, j) == Content(s, j)
  {
  }

  /** One more name with an empty inode, and the other inodes and blocks as before. */
  lemma FileAdded(s: Fs, t: Fs, name: Data, i: int)
    requires Safe(s) && Safe(t) && name !in Dir(s) && Dir(t) == Dir(s)[name := i] && t.p == s.p
    requires 1 <= i < |s.inodes| && s.inodeMap[i] == FREE && t.inodes == s.inodes[i := Inode(T_FILE, 0, -1)]
    requires |t.blocks| == |s.blocks| && forall b | 1 <= b < |s.blocks| :: t.blocks[b] == s.blocks[b]
    ensures AlphaFiles(t) == AlphaFiles(s)[name := []]
  {
    hide DirMap, Slots, RootOk, HandlesOk;
    assert Usable(t, i) && Content(t, i) == [];
    hide Content, Usable;
    forall n | n in Dir(s)
      ensures Usable(s, Dir(s)[n]) && Usable(t, Dir(s)[n]) && Content(t, Dir(s)[n]) == Content(s, Dir(s)[n])
    {
      assert Live(s, Dir(s)[n]);
      SameContent(s, t, Dir(s)[n]);
    }
    hide NamesOk, BlocksOk;
  }

  lemma SimMakeFile(s: Fs, name: Data)
    requires Exact(s) && NulFree(name) && name !in Dir(s)
    ensures var (t, i) := MakeFile(s, name);
            && Exact(t) && t.p == s.p
            && (i != -1 <==> CanCreate(s.p, Alpha(s), name))
            && Alpha(t) == (if i == -1 then Alpha(s) else Alpha(s).(files := Alpha(s).files[name := []]))
            && (i != -1 ==> name in Dir(t) && Dir(t)[name] == i && t.inodes[i].size == 0)
  {
    hide DirMap, Slots, FirstIndex, LegalName, RootOk;
    var (t, i) := MakeFile(s, name);
    MakeFileCases(s, name);
    CreateCondition(s, name);
    assert |Alpha(s).files| == |Dir(s)| by { assert Alpha(s).files.Keys == Dir(s).Keys; }
    if i != -1 {
      CreatedExact(s, name);
      FileAdded(s, t, name, i);
      SameHandles(s, t);
    } else {
      FailedMakeFile(s, name);
    }
  }

  lemma SameFiles(s: Fs, t: Fs)
    requires Safe(s) && Safe(t) && Dir(t) == Dir(s) && t.blocks == s.blocks
    requires forall j | Live(s, j) :: Live(t, j) && t.inodes[j] == s.inodes[j]
    ensures AlphaFiles(t) == AlphaFiles(s)
  {
    hide DirMap, Slots, RootOk, HandlesOk;
  }

  /** A failed creation touches at most the fields of a free inode. */
  lemma FailedMakeFile(s: Fs, name: Data)
    requires Exact(s) && NulFree(name) && name !in Dir(s) && MakeFile(s, name).1 == -1
    ensures var t := MakeFile(s, name).0;
            Exact(t) && Alpha(t) == Alpha(s) && t == s.(inodes := t.inodes)
  {
    hide DirMap, Slots, FirstIndex, LegalName, RootOk;
    MakeFileCases(s, name);
    MakeFileSafe(s, name);
    FirstFreeMeaning(s.inodeMap);
    var t := MakeFile(s, name).0;
    assert forall j | Live(s, j) :: Live(t, j) && t.inodes[j] == s.inodes[j];
    ExactIsAccounted(s);
    MakeFileAccounted(s, name);
    hide BlocksExact, MakeFile, NamesOk, BlocksOk, HandlesOk, AlphaFiles;
    SameHandles(s, t);
    SameFiles(s, t);
  }

  lemma SimOpenFound(s: Fs, name: Data, m: Mode)
    requires Exact(s) && name in Dir(s)
    requires m.truncate ==>
               forall h | h in AlphaHandles(s) && AlphaHandles(s)[h].name == name :: AlphaHandles(s)[h].offset == 0
    ensures var s1 := if m.truncate then Truncate(s, Dir(s)[name]) else s;
            var a1 := if m.truncate then Alpha(s).(files := Alpha(s).files[name := []]) else Alpha(s);
            && Exact(s1) && Dir(s1) == Dir(s) && Alpha(s1) == a1 && s1.p == s.p
            && name in a1.files && |a1.files[name]| == s1.inodes[Dir(s)[name]].size
  {
    hide DirMap, Slots, FirstIndex, LegalName, RootOk;
    if m.truncate {
      HandlesOn(s, name);
      hide AlphaHandles;
      SimTruncate(s, name);
    }
  }

  lemma SimOpen(s: Fs, path: Path, m: Mode)
    requires Exact(s) && Allowed(Alpha(s), OpenCall(path, m))
    ensures var (t, r) := Open(s, path, m);
            Exact(t) && t.p == s.p && (Alpha(t), r) == AOpen(s.p, Alpha(s), path, m)
  {
    hide DirMap, Slots, FirstIndex, LegalName, RootOk;
    if ValidPathname(path) {
      var name := path.chars[1..];
      LookupUsable(s, name);
      assert Alpha(s).files.Keys == Dir(s).Keys;
      if name in Dir(s) {
        var i := Dir(s)[name];
        assert Alpha(s).files[name] == Content(s, i);
        SimOpenFound(s, name, m);
        var s1 := if m.truncate then Truncate(s, i) else s;
        hide NamesOk, BlocksOk, HandlesOk, Content, Truncate, HasHandle, HandlesExact, BlocksExact;
        SimOpenHandle(s1, name, if m.append then s1.inodes[i].size else 0);
      } else if m.create {
        SimMakeFile(s, name);
        var (s1, i) := MakeFile(s, name);
        hide NamesOk, BlocksOk, HandlesOk, Content, MakeFile, CanCreate, HandlesExact, BlocksExact;
        if i != -1 {
          SimOpenHandle(s1, name, 0);
        }
      }
    }
  }

  /** The handles on a name are those on its inode, at the same offsets. */
  lemma HandlesOn(s: Fs, name: Data)
    requires Exact(s) && name in Dir(s)
    ensures forall h :: (h in AlphaHandles(s) && AlphaHandles(s)[h].name == name) <==>
                        (IsOpen(s, h) && s.open[h].inumber == Dir(s)[name])
    ensures forall h | IsOpen(s, h) :: h in AlphaHandles(s) && AlphaHandles(s)[h].offset == s.open[h].offset
    ensures HasHandle(Alpha(s), name) <==> exists h :: IsOpen(s, h) && s.open[h].inumber == Dir(s)[name]
  {
    hide DirMap, Slots, RootOk, BlocksOk, BlocksExact;
    forall h | IsOpen(s, h)
      ensures h in AlphaHandles(s) && (AlphaHandles(s)[h].name == name <==> s.open[h].inumber == Dir(s)[name])
    {
      assert NamesOk(s, Dir(s));
    }
  }

  // ---------- close, read, write, unlink ----------

  /** A change of offsets and of which handles are open, inside existing files. */
  lemma HandlesMoved(s: Fs, t: Fs, a: map<int, Handle>)
    requires Exact(s) && Safe(t) && t == s.(open := t.open, openMap := t.openMap)
    requires forall h :: IsOpen(t, h) <==> h in a
    requires forall h | IsOpen(t, h) ::
               && IsOpen(s, h)
               && t.open[h].inumber == s.open[h].inumber
               && t.open[h].offset <= s.inodes[s.open[h].inumber].size
               && a[h] == Handle(AlphaHandles(s)[h].name, t.open[h].offset)
    ensures Exact(t) && Alpha(t) == Abs(AlphaFiles(s), a)
  {
    hide DirMap, Slots, FirstIndex, LegalName;
    HandlesOnly(s, t);
    assert Exact(t);
    assert AlphaHandles(t) == a by {
      forall h | IsOpen(t, h) ensures NameOfInode(t, t.open[h].inumber) == NameOfInode(s, s.open[h].inumber) {
        assert NamesOk(s, Dir(s));
      }
    }
  }

  lemma SimClose(s: Fs, h: int)
    requires Exact(s)
    ensures var (t, r) := Close(s, h);
            Exact(t) && t.p == s.p && (Alpha(t), r) == AClose(Alpha(s), h)
  {
    hide DirMap, Slots, FirstIndex, LegalName;
    CloseSafe(s, h);
    if IsOpen(s, h) {
      HandlesMoved(s, Close(s, h).0, AlphaHandles(s) - {h});
    }
  }

  lemma OneHandleMoved(s: Fs, t: Fs, h: int, offset: nat)
    requires Exact(s) && Safe(t) && IsOpen(s, h) && offset <= s.inodes[s.open[h].inumber].size
    requires t == s.(open := s.open[h := OpenFile(s.open[h].inumber, offset)])
    ensures Exact(t)
    ensures Alpha(t) == Abs(AlphaFiles(s), AlphaHandles(s)[h := Handle(AlphaHandles(s)[h].name, offset)])
  {
    hide DirMap, Slots, FirstIndex, LegalName, RootOk, NamesOk, BlocksOk, HandlesOk;
    HandlesMoved(s, t, AlphaHandles(s)[h := Handle(AlphaHandles(s)[h].name, offset)]);
  }

  /** The abstract contents of an open file are the bytes of its block. */
  lemma OpenContent(s: Fs, h: int)
    requires Exact(s) && IsOpen(s, h)
    ensures h in AlphaHandles(s)
    ensures var i := s.open[h].inumber; var name := AlphaHandles(s)[h].name;
            && Live(s, i) && Usable(s, i) && |Content(s, i)| == s.inodes[i].size
            && name in AlphaFiles(s) && AlphaFiles(s)[name] == Content(s, i)
            && name in Dir(s) && Dir(s)[name] == i
            && AlphaHandles(s)[h] == Handle(name, s.open[h].offset) && s.open[h].offset <= |Content(s, i)|
  {
    hide DirMap, Slots, FirstIndex, LegalName, RootOk;
  }

  lemma SimRead(s: Fs, h: int, len: nat)
    requires Exact(s)
    ensures ReadOk(s, h, len)
    ensures var (t, r, data) := Read(s, h, len);
            && Exact(t) && t.p == s.p && WellFormed(s.p, Alpha(s))
            && (Alpha(t), r, data) == ARead(s.p, Alpha(s), h, len)
  {
    hide DirMap, Slots, FirstIndex, LegalName, RootOk, NamesOk, BlocksOk, HandlesOk;
    AlphaWellFormed(s);
    if IsOpen(s, h) {
      OpenContent(s, h);
      ReadMeaning(s, h, len);
      ReadSafe(s, h, len);
      hide Read, Content, Usable, AlphaFiles, AlphaHandles;
      var t := Read(s, h, len).0;
      OneHandleMoved(s, t, h, t.open[h].offset);
    }
  }

  /** Writing into a block is splicing into the file's contents. */
  lemma OverlaySplice(block: Data, size: nat, at: nat, data: Data)
    requires at <= size <= |block| && at + |data| <= |block| && data != []
    ensures var size' := if at + |data| > size then at + |data| else size;
            Overlay(block, at, data)[..size'] == Splice(block[..size], at, data)
  {
  }

  lemma WriteExact(s: Fs, h: int, buffer: Data)
    requires Exact(s)
    ensures Exact(Write(s, h, buffer).0) && Write(s, h, buffer).0.p == s.p
  {
    hide DirMap, Slots, FirstIndex, LegalName, BlocksExact;
    WriteSafe(s, h, buffer);
    WriteAccounted(s, h, buffer);
    FirstFreeMeaning(s.blockMap);
  }

  /** The written file's bytes are spliced; no other file shares its block. */
  lemma WriteContent(s: Fs, h: int, buffer: Data)
    requires Exact(s) && Write(s, h, buffer).1 > 0
    ensures var (t, n) := Write(s, h, buffer); var f := s.open[h];
            && Safe(t) && Dir(t) == Dir(s)
            && (forall j | Live(s, j) :: Live(t, j) && Content(t, j) ==
                  if j == f.inumber then Splice(Content(s, j), f.offset, buffer[..n]) else Content(s, j))
  {
    hide DirMap, Slots, FirstIndex, LegalName, RootOk, NamesOk, BlocksExact;
    WriteSafe(s, h, buffer);
    FirstFreeMeaning(s.blockMap);
    var (t, n) := Write(s, h, buffer);
    var i := s.open[h].inumber;
    var b := t.inodes[i].block;
    OverlaySplice(s.blocks[b], s.inodes[i].size, s.open[h].offset, buffer[..n]);
    forall j | Live(s, j) && j != i ensures Live(t, j) && Content(t, j) == Content(s, j) {
      assert t.inodes[j] == s.inodes[j];
      assert s.inodes[j].size > 0 ==> s.inodes[j].block != b;
    }
  }

  /** One file's contents change and no name does. */
  lemma FileUpdated(s: Fs, t: Fs, name: Data, c: Data)
    requires Safe(s) && Safe(t) && Dir(t) == Dir(s) && name in Dir(s)
    requires forall n | n in Dir(s) :: Content(t, Dir(s)[n]) == if n == name then c else Content(s, Dir(s)[n])
    ensures AlphaFiles(t) == AlphaFiles(s)[name := c]
  {
    hide DirMap, Slots, FirstIndex, LegalName, RootOk, Content, HandlesOk;
  }

  /** Only the written file changes. */
  lemma WriteFiles(s: Fs, h: int, buffer: Data)
    requires Exact(s) && Write(s, h, buffer).1 > 0
    ensures var (t, n) := Write(s, h, buffer);
            var Handle(name, offset) := AlphaHandles(s)[h];
            && Safe(t) && Dir(t) == Dir(s) && 0 <= n <= |buffer|
            && name in AlphaFiles(s) && offset <= |AlphaFiles(s)[name]|
            && AlphaFiles(t) == AlphaFiles(s)[name := Splice(AlphaFiles(s)[name], offset, buffer[..n])]
  {
    hide DirMap, Slots, FirstIndex, LegalName, RootOk, BlocksExact;
    WriteContent(s, h, buffer);
    OpenContent(s, h);
    var (t, n) := Write(s, h, buffer);
    var Handle(name, offset) := AlphaHandles(s)[h];
    assert n <= |buffer| && name in AlphaFiles(s) && offset <= |AlphaFiles(s)[name]|;
    hide Write, WriteCount, Content, HandlesOk, HandlesExact, AlphaFiles, AlphaHandles;
    forall m | m in Dir(s) && m != name ensures Live(s, Dir(s)[m]) && Dir(s)[m] != Dir(s)[name] {
    }
    FileUpdated(s, t, name, Splice(AlphaFiles(s)[name], offset, buffer[..n]));
  }

  /** The tables refuse a write exactly when the counts do. */
  lemma WriteCode(s: Fs, h: int, buffer: Data)
    requires Exact(s) && IsOpen(s, h) && WellFormed(s.p, Alpha(s))
    ensures Write(s, h, buffer).1 == AWrite(s.p, Alpha(s), h, buffer).1
    ensures Write(s, h, buffer).1 <= 0 ==> Write(s, h, buffer).0 == s
  {
    hide DirMap, Slots, FirstIndex, LegalName, RootOk, NamesOk, BlocksOk;
    ExactIsAccounted(s);
    BlockAccounting(s);
    NonEmptyFiles(s);
    ScanFailsWhenAllTaken(s.blockMap);
    OpenContent(s, h);
    hide Content, AlphaFiles, TakenIn, NonEmpty, BlockOf, BlocksExact, WellFormed;
  }

  /** An inode has the same name in states with the same directory. */
  lemma SameName(s: Fs, t: Fs, i: int)
    requires Safe(s) && Safe(t) && Live(s, i) && Live(t, i) && Dir(t) == Dir(s)
    ensures NameOfInode(t, i) == NameOfInode(s, i)
  {
    hide DirMap, Slots, RootOk, BlocksOk, HandlesOk;
    assert NamesOk(s, Dir(s));
  }

  /** Only the used handle moves. */
  lemma WriteHandles(s: Fs, h: int, buffer: Data)
    requires Exact(s) && Exact(Write(s, h, buffer).0) && Write(s, h, buffer).1 > 0
    requires Dir(Write(s, h, buffer).0) == Dir(s)
    ensures var (t, n) := Write(s, h, buffer);
            var Handle(name, offset) := AlphaHandles(s)[h];
            AlphaHandles(t) == AlphaHandles(s)[h := Handle(name, offset + n)]
  {
    hide DirMap, Slots, FirstIndex, LegalName, RootOk, BlocksOk, BlocksExact, HandlesOk;
    var (t, n) := Write(s, h, buffer);
    assert t.openMap == s.openMap && t.open == s.open[h := OpenFile(s.open[h].inumber, s.open[h].offset + n)];
    assert t.inodeMap == s.inodeMap && |t.inodes| == |s.inodes|;
    hide Write, WriteCount, Usable, Dir, NamesOk;
    forall k | IsOpen(s, k) ensures NameOfInode(t, t.open[k].inumber) == NameOfInode(s, s.open[k].inumber) {
      SameName(s, t, s.open[k].inumber);
    }
  }

  /** An abstract write, spelled out. */
  lemma AWriteResult(p: Params, a: Abs, h: int, buffer: Data)
    requires WellFormed(p, a) && h in a.handles
    ensures var Handle(name, offset) := a.handles[h]; var (b, n) := AWrite(p, a, h, buffer);
            && name in a.files && offset <= |a.files[name]| && n <= |buffer|
            && b == if n > 0 then Abs(a.files[name := Splice(a.files[name], offset, buffer[..n])],
                                      a.handles[h := Handle(name, offset + n)])
                    else a
  {
  }

  lemma SimWrite(s: Fs, h: int, buffer: Data)
    requires Exact(s)
    ensures var (t, r) := Write(s, h, buffer);
            && Exact(t) && t.p == s.p && WellFormed(s.p, Alpha(s))
            && (Alpha(t), r) == AWrite(s.p, Alpha(s), h, buffer)
  {
    AlphaWellFormed(s);
    WriteExact(s, h, buffer);
    if IsOpen(s, h) {
      hide *;
      SimOpenWrite(s, h, buffer);
    }
  }

  lemma SimOpenWrite(s: Fs, h: int, buffer: Data)
    requires Exact(s) && IsOpen(s, h) && WellFormed(s.p, Alpha(s)) && Exact(Write(s, h, buffer).0)
    ensures (Alpha(Write(s, h, buffer).0), Write(s, h, buffer).1) == AWrite(s.p, Alpha(s), h, buffer)
  {
    hide Safe, Write, AWrite, WellFormed, HandlesExact, BlocksExact, AlphaFiles, AlphaHandles, Dir, Live;
    WriteCode(s, h, buffer);
    OpenContent(s, h);
    AWriteResult(s.p, Alpha(s), h, buffer);
    if Write(s, h, buffer).1 > 0 {
      WriteFiles(s, h, buffer);
      WriteHandles(s, h, buffer);
    }
  }

  lemma UnlinkExact(s: Fs, name: Data)
    requires Exact(s) && NulFree(name) && name in Dir(s) && LegalName(name)
    requires forall h | IsOpen(s, h) :: s.open[h].inumber != Dir(s)[name]
    ensures Exact(Unlinked(s, name)) && Dir(Unlinked(s, name)) == Dir(s) - {name}
  {
    hide DirMap, Slots, FirstIndex, LegalName, Unlinked, BlocksExact, DirOk;
    ExactIsAccounted(s);
    UnlinkTables(s, name);
    UnlinkAccounted(s, name);
  }

  lemma UnlinkFiles(s: Fs, name: Data)
    requires Safe(s) && NulFree(name) && name in Dir(s) && LegalName(name)
    ensures Safe(Unlinked(s, name)) && AlphaFiles(Unlinked(s, name)) == AlphaFiles(s) - {name}
  {
    hide DirMap, Slots, FirstIndex, LegalName, Unlinked;
    UnlinkTables(s, name);
    var t := Unlinked(s, name);
    forall n | n in Dir(t) ensures Content(t, Dir(t)[n]) == Content(s, Dir(s)[n]) {
      assert Live(t, Dir(t)[n]);
    }
  }

  lemma SimUnlink(s: Fs, path: Path)
    requires Exact(s) && Allowed(Alpha(s), UnlinkCall(path))
    ensures var (t, r) := Unlink(s, path);
            Exact(t) && t.p == s.p && (Alpha(t), r) == AUnlink(Alpha(s), path)
  {
    hide DirMap, Slots, FirstIndex, LegalName;
    if ValidPathname(path) {
      var name := path.chars[1..];
      LookupUsable(s, name);
      if name in Dir(s) {
        HandlesOn(s, name);
        UnlinkedSafe(s, name);
        UnlinkTables(s, name);
        UnlinkExact(s, name);
        UnlinkFiles(s, name);
        SameHandles(s, Unlinked(s, name));
      }
    }
  }

  // ---------- runs ----------

  /** One disciplined call: same answer, same effect, invariant kept. */
  lemma StepRefines(s: Fs, c: Call)
    requires Exact(s) && Allowed(Alpha(s), c)
    ensures CallOk(s, c) && WellFormed(s.p, Alpha(s))
    ensures var (t, answer) := Step(s, c);
            Exact(t) && t.p == s.p && (Alpha(t), answer) == AStep(s.p, Alpha(s), c)
  {
    hide Safe, Open, Close, Write, Read, Unlink, HandlesExact, BlocksExact;
    hide AOpen, AClose, AWrite, ARead, AUnlink, WellFormed;
    AlphaWellFormed(s);
    match c
    case OpenCall(path, mode) => SimOpen(s, path, mode);
    case CloseCall(h) => SimClose(s, h);
    case WriteCall(h, buffer) => SimWrite(s, h, buffer);
    case ReadCall(h, len) => SimRead(s, h, len);
    case UnlinkCall(path) => SimUnlink(s, path);
  }

  lemma UndisciplinedBreaks(s: Fs, c: Call)
    requires Exact(s) && CallOk(s, c) && !Allowed(Alpha(s), c)
    ensures !Exact(Step(s, c).0)
  {
    hide Open, Unlink, Close, Read, Write, RootOk, NamesOk, BlocksOk, HandlesOk, BlocksExact;
    match c
    case OpenCall(path, mode) =>
      var h :| h in AlphaHandles(s) && Truncates(c, AlphaHandles(s)[h].name) && AlphaHandles(s)[h].offset != 0;
      OpenContent(s, h);
      TruncateStrandsHandle(s, path, mode, h);
    case UnlinkCall(path) =>
      HandlesOn(s, path.chars[1..]);
      var h :| IsOpen(s, h) && s.open[h].inumber == Dir(s)[path.chars[1..]];
      UnlinkStrandsHandle(s, path, h);
    case _ =>
  }

  /** The discipline is exactly what the invariant needs: a call keeps it if and
      only if it unlinks no open file and truncates none under a handle that has moved. */
  lemma DisciplineIsExact(s: Fs, c: Call)
    requires Exact(s) && CallOk(s, c)
    ensures Exact(Step(s, c).0) <==> Allowed(Alpha(s), c)
  {
    hide Exact, Alpha, Allowed, Step, CallOk;
    if Allowed(Alpha(s), c) {
      StepRefines(s, c);
    } else {
      UndisciplinedBreaks(s, c);
    }
  }

  /** Initialisation gives the empty file system, whatever the memory held. */
  lemma BootRefines(m: Fs)
    requires Shape(m)
    ensures Exact(Boot(m)) && Boot(m).p == m.p && Alpha(Boot(m)) == Start(m.p)
  {
    InitSafe(m);
    hide DirMap, Slots, FirstIndex, LegalName;
  }

  /** Any number of disciplined calls. */
  lemma {:induction false} RunRefines(s: Fs, calls: seq<Call>)
    requires Exact(s) && WellFormed(s.p, Alpha(s)) && AllowedRun(s.p, Alpha(s), calls)
    ensures RunOk(s, calls) && Exact(Run(s, calls).0)
    ensures (Alpha(Run(s, calls).0), Run(s, calls).1) == ARun(s.p, Alpha(s), calls)
    decreases |calls|
  {
    hide Safe, HandlesExact, BlocksExact, WellFormed, Alpha, Step, AStep, CallOk, Allowed;
    if calls != [] {
      StepRefines(s, calls[0]);
      StepSafe(s, calls[0]);
      AStepWellFormed(s.p, Alpha(s), calls[0]);
      RunRefines(Step(s, calls[0]).0, calls[1..]);
    }
  }

  /** The file system started on any memory answers every disciplined run as the
      abstract machine started empty does, and ends in a state it represents. */
  lemma FileSystemRefines(m: Fs, calls: seq<Call>)
    requires Shape(m) && AllowedRun(m.p, Start(m.p), calls)
    ensures RunOk(Boot(m), calls) && Exact(Run(Boot(m), calls).0)
    ensures (Alpha(Run(Boot(m), calls).0), Run(Boot(m), calls).1) == ARun(m.p, Start(m.p), calls)
  {
    hide Safe, HandlesExact, BlocksExact, WellFormed, Alpha, AllowedRun, ARun, Run, RunOk;
    BootRefines(m);
    RunRefines(Boot(m), calls);
  }

  /** After a disciplined run the counts are those of the abstract machine. */
  lemma DisciplinedAccounting(m: Fs, calls: seq<Call>)
    requires Shape(m) && AllowedRun(m.p, Start(m.p), calls)
    ensures RunOk(Boot(m), calls)
    ensures var s := Run(Boot(m), calls).0; var a := ARun(m.p, Start(m.p), calls).0;
            && |TakenIn(s.inodeMap)| == 1 + |a.files|
            && |TakenIn(s.blockMap)| == 1 + |NonEmpty(a.files)|
            && TakenIn(s.openMap) == a.handles.Keys
  {
    FileSystemRefines(m, calls);
    var s := Run(Boot(m), calls).0;
    hide AllowedRun, ARun, Run, RunOk, DirMap, Slots, FirstIndex, LegalName, Boot, WellFormed;
    InodeAccounting(s);
    ExactIsAccounted(s);
    BlockAccounting(s);
    NonEmptyFiles(s);
    assert AlphaFiles(s).Keys == Dir(s).Keys;
    assert |AlphaFiles(s)| == |AlphaFiles(s).Keys| && |Dir(s)| == |Dir(s).Keys|;
  }

  // ---------- calls that fail ----------

  /** A failed call leaves every table as it was, apart from the fields of a free
      inode; the exception is an open that finds the open-file table full. */
  lemma FailedCallRestores(s: Fs, c: Call)
    requires Safe(s) && CallOk(s, c) && Step(s, c).1.code == -1
    requires c.OpenCall? ==> FirstFree(s.openMap) != -1
    ensures var t := Step(s, c).0;
            && t == s.(inodes := t.inodes) && |t.inodes| == |s.inodes|
            && (forall i | 0 <= i < |s.inodes| && s.inodeMap[i] == TAKEN :: t.inodes[i] == s.inodes[i])
  {
    hide DirMap, Slots, FirstIndex, RootOk;
    match c
    case OpenCall(path, mode) =>
      if ValidPathname(path) {
        var name := path.chars[1..];
        LookupUsable(s, name);
        if name !in Dir(s) && mode.create {
          MakeFileCases(s, name);
          FirstFreeMeaning(s.inodeMap);
        }
      }
    case UnlinkCall(path) =>
      if ValidPathname(path) {
        var name := path.chars[1..];
        LookupUsable(s, name);
        if name in Dir(s) {
          UnlinkedSafe(s, name);
        }
      }
    case _ =>
  }

  /** With a full open-file table an open still creates or truncates the file before it fails. */
  lemma FullTableKeepsFile(s: Fs, path: Path, m: Mode)
    requires Exact(s) && Allowed(Alpha(s), OpenCall(path, m)) && FirstFree(s.openMap) == -1
    ensures var (t, r) := Open(s, path, m);
            r == -1 && Exact(t) && Alpha(t) == Abs(FullTableOpen(s.p, Alpha(s), path, m), Alpha(s).handles)
  {
    hide Open, RootOk, NamesOk, BlocksOk, HandlesOk, BlocksExact, DirMap, Slots, AlphaFiles;
    hide AOpen, FullTableOpen, Allowed;
    SimOpen(s, path, m);
    SameHandleChoice(s, Alpha(s).handles.Keys);
    AOpenFull(s.p, Alpha(s), path, m);
  }
}
