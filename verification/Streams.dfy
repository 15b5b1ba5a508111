/** What sequences of reads and writes through one handle add up to, whatever
    other sessions do to other files in between: unlinking files that are open included. */
module Streams {
  import opened Bytes
  import opened Scan
  import opened Directory
  import opened Tables
  import opened Safety
  import opened Accounting
  import opened Dangling

  // ---------- other sessions ----------

  /** Handle `h` is open on a file. */
  ghost predicate OnFile(s: Fs, h: int)
    requires Safe(s)
  {
    IsOpen(s, h) && h < |s.open| && Live(s, s.open[h].inumber)
  }

  /** Does a path name the file with inode `i`? */
  ghost predicate PathTo(s: Fs, path: Path, i: int)
    requires Safe(s)
  {
    ValidPathname(path) && path.chars[1..] in Dir(s) && Dir(s)[path.chars[1..]] == i
  }

  /** Would a write through `k` go into the file with inode `i`? */
  ghost predicate GoesInto(s: Fs, k: int, i: int)
    requires Safe(s)
  {
    IsOpen(s, k) &&
    (s.open[k].inumber == i ||
     (s.inodes[s.open[k].inumber].size > 0 && Owns(s, i, s.inodes[s.open[k].inumber].block)))
  }

  /** A call that does not use or close handle `h`, does not write into its file,
      unlink it, or truncate it while it has contents. */
  ghost predicate Foreign(s: Fs, c: Call, h: int)
    requires Safe(s) && OnFile(s, h)
  {
    var i := s.open[h].inumber;
    match c
    case OpenCall(path, mode) => mode.truncate && PathTo(s, path, i) ==> s.inodes[i].size == 0
    case CloseCall(k) => k != h
    case ReadCall(k, _) => k != h
    case WriteCall(k, _) => !GoesInto(s, k, i)
    case UnlinkCall(path) => !PathTo(s, path, i)
  }

  /** The contents of the file that `h` is open on. */
  function FileOf(s: Fs, h: int): (d: Data)
    requires Safe(s) && IsOpen(s, h) && Live(s, s.open[h].inumber)
    ensures |d| == s.inodes[s.open[h].inumber].size
  {
    Content(s, s.open[h].inumber)
  }

  /** From `s` to `t`, handle `h` stays on the same file, under the same name. */
  ghost predicate SameFile(s: Fs, t: Fs, h: int)
    requires Safe(s) && Safe(t) && OnFile(s, h)
  {
    OnFile(t, h) && t.open[h].inumber == s.open[h].inumber && t.p == s.p && NamesKept(s, t, s.open[h].inumber)
  }

  /** Neither the handle nor its file has changed. */
  ghost predicate Kept(s: Fs, t: Fs, h: int)
    requires Safe(s) && Safe(t) && OnFile(s, h)
  {
    SameFile(s, t, h) && t.open[h] == s.open[h] && FileOf(t, h) == FileOf(s, h)
  }

  /** The names of inode `i` are still its names. */
  ghost predicate NamesKept(s: Fs, t: Fs, i: int)
    requires Safe(s) && Safe(t)
  {
    forall n | n in Dir(s) && Dir(s)[n] == i :: n in Dir(t) && Dir(t)[n] == i
  }

  /** An inode and its block untouched. */
  lemma SameInode(s: Fs, t: Fs, i: int)
    requires Safe(s) && Safe(t) && Live(s, i) && Live(t, i) && t.inodes[i] == s.inodes[i]
    requires |t.blocks| == |s.blocks| && forall b | 1 <= b < |s.blocks| :: t.blocks[b] == s.blocks[b]
    ensures Content(t, i) == Content(s, i)
  {
    hide RootOk, NamesOk, HandlesOk;
  }

  lemma TruncateKeeps(s: Fs, j: int, h: int)
    requires Safe(s) && OnFile(s, h) && Live(s, j) && (j == s.open[h].inumber ==> s.inodes[j].size == 0)
    ensures Safe(Truncate(s, j)) && Kept(s, Truncate(s, j), h)
  {
    hide DirMap, Slots, DirOk, FirstIndex, RootOk, NamesOk, Content;
    TruncateSafe(s, j);
    SameInode(s, Truncate(s, j), s.open[h].inumber);
  }

  lemma AddHandleKeeps(s: Fs, j: int, offset: nat, h: int)
    requires Safe(s) && OnFile(s, h) && Usable(s, j) && offset <= s.p.blockSize
    ensures Safe(AddToOpenFileTable(s, j, offset).0) && Kept(s, AddToOpenFileTable(s, j, offset).0, h)
  {
    hide DirMap, Slots, DirOk, FirstIndex, Content;
    FirstFreeMeaning(s.openMap);
    AddHandleSafe(s, j, offset);
    hide NamesOk, RootOk;
    SameInode(s, AddToOpenFileTable(s, j, offset).0, s.open[h].inumber);
  }

  /** Creation, successful or not, touches no file there is. */
  lemma MakeFileTables(s: Fs, name: Data)
    requires Safe(s)
    ensures var t := MakeFile(s, name).0;
            && t.p == s.p && t.open == s.open && t.openMap == s.openMap
            && |t.inodes| == |s.inodes| && |t.inodeMap| == |s.inodeMap|
            && (forall j | Live(s, j) :: Live(t, j) && t.inodes[j] == s.inodes[j])
            && |t.blocks| == |s.blocks| && forall b | 1 <= b < |s.blocks| :: t.blocks[b] == s.blocks[b]
  {
    hide DirMap, Slots, DirOk, FirstIndex, LegalName, NamesOk, BlocksOk, HandlesOk;
    MakeFileCases(s, name);
    FirstFreeMeaning(s.inodeMap);
  }

  lemma MakeFileKeeps(s: Fs, name: Data, h: int)
    requires Safe(s) && OnFile(s, h) && NulFree(name) && name !in Dir(s)
    ensures Safe(MakeFile(s, name).0) && Kept(s, MakeFile(s, name).0, h)
  {
    hide DirMap, Slots, DirOk, FirstIndex, LegalName, Content, MakeFile, RootOk, NamesOk, HandlesOk, BlocksOk;
    MakeFileTables(s, name);
    MakeFileSafe(s, name);
    SameInode(s, MakeFile(s, name).0, s.open[h].inumber);
  }

  lemma KeptTwice(s: Fs, t: Fs, u: Fs, h: int)
    requires Safe(s) && Safe(t) && Safe(u) && OnFile(s, h) && Kept(s, t, h) && Kept(t, u, h)
    ensures Kept(s, u, h)
  {
    hide Safe, Content, Dir;
  }

  lemma OpenKeeps(s: Fs, path: Path, m: Mode, h: int)
    requires Safe(s) && PathOk(path) && OnFile(s, h)
    requires m.truncate && PathTo(s, path, s.open[h].inumber) ==> s.inodes[s.open[h].inumber].size == 0
    ensures Safe(Open(s, path, m).0) && Kept(s, Open(s, path, m).0, h)
  {
    hide DirMap, Slots, DirOk, FirstIndex, Truncate, MakeFile, Content, NamesKept;
    NothingKept(s, h);
    if ValidPathname(path) {
      var name := path.chars[1..];
      LookupUsable(s, name);
      if name in Dir(s) {
        var j := Dir(s)[name];
        if m.truncate {
          TruncateKeeps(s, j, h);
        }
        var s1 := if m.truncate then Truncate(s, j) else s;
        TruncateSafe(s, j);
        AddHandleKeeps(s1, j, if m.append then s1.inodes[j].size else 0, h);
        KeptTwice(s, s1, Open(s, path, m).0, h);
      } else if m.create {
        MakeFileKeeps(s, name, h);
        MakeFileSafe(s, name);
        var (s1, j) := MakeFile(s, name);
        if j != -1 {
          AddHandleKeeps(s1, j, 0, h);
          KeptTwice(s, s1, Open(s, path, m).0, h);
        }
      }
    }
  }

  lemma NothingKept(s: Fs, h: int)
    requires Safe(s) && OnFile(s, h)
    ensures Kept(s, s, h)
  {
    hide Safe, Content, Dir;
  }

  lemma WriteKeeps(s: Fs, k: int, buffer: Data, h: int)
    requires Safe(s) && OnFile(s, h) && !GoesInto(s, k, s.open[h].inumber)
    ensures Safe(Write(s, k, buffer).0) && Kept(s, Write(s, k, buffer).0, h)
  {
    hide DirMap, Slots, DirOk, FirstIndex, Content;
    WriteSafe(s, k, buffer);
    NothingKept(s, h);
    WritesWhen(s, k, buffer);
    hide WritesSome;
    if Write(s, k, buffer).1 > 0 {
      WriteReaches(s, k, buffer, s.open[h].inumber);
      hide RootOk, NamesOk, BlocksOk, HandlesOk, Overlay;
    }
  }

  lemma UnlinkKeeps(s: Fs, path: Path, h: int)
    requires Safe(s) && PathOk(path) && OnFile(s, h) && !PathTo(s, path, s.open[h].inumber)
    ensures Safe(Unlink(s, path).0) && Kept(s, Unlink(s, path).0, h)
  {
    hide DirMap, Slots, DirOk, FirstIndex, Unlinked, Content;
    NothingKept(s, h);
    if ValidPathname(path) {
      var name := path.chars[1..];
      LookupUsable(s, name);
      if name in Dir(s) {
        UnlinkOfFile(s, path);
        UnlinkTables(s, name);
        hide RootOk, NamesOk, BlocksOk, HandlesOk;
        SameInode(s, Unlinked(s, name), s.open[h].inumber);
      }
    }
  }

  lemma CloseKeeps(s: Fs, k: int, h: int)
    requires Safe(s) && OnFile(s, h) && k != h
    ensures Safe(Close(s, k).0) && Kept(s, Close(s, k).0, h)
  {
    hide DirMap, Slots, DirOk, FirstIndex, Content;
    CloseSafe(s, k);
    hide RootOk, NamesOk, BlocksOk, HandlesOk;
    SameInode(s, Close(s, k).0, s.open[h].inumber);
  }

  lemma ReadKeeps(s: Fs, k: int, len: nat, h: int)
    requires Safe(s) && ReadOk(s, k, len) && OnFile(s, h) && k != h
    ensures Safe(Read(s, k, len).0) && Kept(s, Read(s, k, len).0, h)
  {
    hide DirMap, Slots, DirOk, FirstIndex, Content, ReadCount;
    ReadSafe(s, k, len);
    hide RootOk, NamesOk, BlocksOk, HandlesOk;
    SameInode(s, Read(s, k, len).0, s.open[h].inumber);
  }

  /** A foreign call leaves the handle, its file's contents and its name alone. */
  lemma ForeignKeeps(s: Fs, c: Call, h: int)
    requires Safe(s) && CallOk(s, c) && OnFile(s, h) && Foreign(s, c, h)
    ensures Safe(Step(s, c).0) && Kept(s, Step(s, c).0, h)
  {
    hide Safe, Kept, Open, Close, Write, Read, Unlink, GoesInto, PathTo;
    match c
    case OpenCall(path, mode) => OpenKeeps(s, path, mode, h);
    case CloseCall(k) => CloseKeeps(s, k, h);
    case WriteCall(k, buffer) => WriteKeeps(s, k, buffer, h);
    case ReadCall(k, len) => ReadKeeps(s, k, len, h);
    case UnlinkCall(path) => UnlinkKeeps(s, path, h);
  }

  lemma SameFileTwice(s: Fs, t: Fs, u: Fs, h: int)
    requires Safe(s) && Safe(t) && Safe(u) && OnFile(s, h) && SameFile(s, t, h) && OnFile(t, h) && SameFile(t, u, h)
    ensures SameFile(s, u, h)
  {
    hide Safe, Dir;
  }

  // ---------- writing ----------

  predicate Writes(c: Call, h: int) {
    c.WriteCall? && c.handle == h
  }

  /** Every write to the file goes through `h`, and none fails. */
  ghost predicate SoleWriter(s: Fs, calls: seq<Call>, h: int)
    requires Safe(s) && RunOk(s, calls)
    decreases |calls|
  {
    calls == [] ||
    (StepSafe(s, calls[0]);
     && OnFile(s, h)
     && (if Writes(calls[0], h) then Step(s, calls[0]).1.code != -1 else Foreign(s, calls[0], h))
     && SoleWriter(Step(s, calls[0]).0, calls[1..], h))
  }

  /** All buffers passed to writes through `h`, in order. */
  function Sent(calls: seq<Call>, h: int): Data {
    if calls == [] then []
    else (if Writes(calls[0], h) then calls[0].buffer else []) + Sent(calls[1..], h)
  }

  /** Handle `h` is at the end of its file. */
  ghost predicate AtEnd(s: Fs, h: int)
    requires Safe(s)
  {
    OnFile(s, h) && s.open[h].offset == |FileOf(s, h)|
  }

  lemma OverlayAppends(block: Data, size: nat, data: Data)
    requires size + |data| <= |block|
    ensures Overlay(block, size, data)[..size + |data|] == block[..size] + data
  {
  }

  /** One successful write at the end of a file appends, up to the block size. */
  lemma WriteAppends(s: Fs, h: int, buffer: Data)
    requires Safe(s) && AtEnd(s, h) && Write(s, h, buffer).1 != -1
    ensures var t := Write(s, h, buffer).0;
            && Safe(t) && AtEnd(t, h) && SameFile(s, t, h)
            && FileOf(t, h) == CutAt(FileOf(s, h) + buffer, s.p.blockSize)
            && forall k | 0 <= k < |s.open| && k != h :: k < |t.open| && t.open[k] == s.open[k]
  {
    hide DirMap, Slots, DirOk, FirstIndex, NamesOk, RootOk;
    WriteSafe(s, h, buffer);
    var i := s.open[h].inumber;
    var (t, n) := Write(s, h, buffer);
    WritesWhen(s, h, buffer);
    hide WritesSome;
    if n > 0 {
      WriteReaches(s, h, buffer, i);
      OverlayAppends(s.blocks[WriteBlock(s, h)], s.inodes[i].size, buffer[..n]);
      hide Overlay;
      assert FileOf(t, h) == FileOf(s, h) + buffer[..n];
    }
  }

  lemma CutTwice(x: Data, y: Data, z: Data, limit: nat)
    ensures CutAt(CutAt(x + y, limit) + z, limit) == CutAt(x + (y + z), limit)
  {
    assert x + (y + z) == (x + y) + z;
  }

  lemma CutAll(d: Data, limit: nat)
    requires |d| <= limit
    ensures CutAt(d + [], limit) == d
  {
    assert d + [] == d;
  }

  /** One call of a run with a sole writer. */
  lemma AppendStep(s: Fs, c: Call, h: int)
    requires Safe(s) && CallOk(s, c) && AtEnd(s, h)
    requires if Writes(c, h) then Step(s, c).1.code != -1 else Foreign(s, c, h)
    ensures var t := Step(s, c).0;
            && Safe(t) && AtEnd(t, h) && SameFile(s, t, h)
            && FileOf(t, h) == if Writes(c, h) then CutAt(FileOf(s, h) + c.buffer, s.p.blockSize) else FileOf(s, h)
  {
    hide DirMap, Slots, DirOk, FirstIndex, Foreign, FileOf;
    if Writes(c, h) {
      WriteAppends(s, h, c.buffer);
    } else {
      hide Open, Close, Write, Read, Unlink;
      ForeignKeeps(s, c, h);
    }
  }

  lemma FitsBlock(s: Fs, h: int)
    requires Safe(s) && OnFile(s, h)
    ensures |FileOf(s, h)| <= s.p.blockSize
  {
    hide DirMap, Slots, DirOk, NamesOk;
  }

  /** A handle at the end of a file with a sole writer: the file ends as what it
      was followed by everything sent, cut at the block size. */
  lemma {:induction false} AppendStream(s: Fs, calls: seq<Call>, h: int)
    requires Safe(s) && RunOk(s, calls) && AtEnd(s, h) && SoleWriter(s, calls, h)
    ensures var t := Run(s, calls).0;
            && Safe(t) && AtEnd(t, h) && SameFile(s, t, h)
            && FileOf(t, h) == CutAt(FileOf(s, h) + Sent(calls, h), s.p.blockSize)
    decreases |calls|
  {
    var was := FileOf(s, h);
    FitsBlock(s, h);
    hide Safe, FileOf, Step, CutAt, Dir, Foreign;
    if calls == [] {
      CutAll(was, s.p.blockSize);
    } else {
      var c := calls[0];
      StepSafe(s, c);
      var t := Step(s, c).0;
      var rest := Sent(calls[1..], h);
      AppendStep(s, c, h);
      RunSafe(t, calls[1..]);
      AppendStream(t, calls[1..], h);
      SameFileTwice(s, t, Run(t, calls[1..]).0, h);
      if Writes(c, h) {
        CutTwice(was, c.buffer, rest, s.p.blockSize);
        assert Sent(calls, h) == c.buffer + rest;
      } else {
        assert Sent(calls, h) == rest;
      }
    }
  }

  // ---------- reading ----------

  predicate Reads(c: Call, h: int) {
    c.ReadCall? && c.handle == h
  }

  /** A write at the end of the file of `h`, through another handle. */
  ghost predicate AppendsTo(s: Fs, c: Call, h: int)
    requires Safe(s) && OnFile(s, h)
  {
    && c.WriteCall? && c.handle != h && IsOpen(s, c.handle)
    && s.open[c.handle].inumber == s.open[h].inumber
    && s.open[c.handle].offset == |FileOf(s, h)|
  }

  /** A read through `h`, an append to its file, or something else altogether. */
  ghost predicate Follows(s: Fs, c: Call, h: int)
    requires Safe(s) && OnFile(s, h)
  {
    Reads(c, h) || AppendsTo(s, c, h) || Foreign(s, c, h)
  }

  /** Only reads use `h`, and its file changes by appending only. */
  ghost predicate Following(s: Fs, calls: seq<Call>, h: int)
    requires Safe(s) && RunOk(s, calls)
    decreases |calls|
  {
    calls == [] ||
    (StepSafe(s, calls[0]);
     && OnFile(s, h) && Follows(s, calls[0], h)
     && Following(Step(s, calls[0]).0, calls[1..], h))
  }

  /** Everything that reads through `h` delivered, in order. */
  function Received(calls: seq<Call>, answers: seq<Answer>, h: int): Data
    requires |calls| == |answers|
  {
    if calls == [] then []
    else (if Reads(calls[0], h) then answers[0].data else [])
         + Received(calls[1..], answers[1..], h)
  }

  /** The number of bytes that reads through `h` ask for. */
  function Asked(calls: seq<Call>, h: int): nat {
    if calls == [] then 0
    else (if Reads(calls[0], h) then calls[0].len else 0) + Asked(calls[1..], h)
  }

  /** What a reader of a growing file gets: consecutive bytes of the final file
      from the handle's offset up to where it ends, no more than were asked for, and no
      fewer than that or all that was there at the start. */
  ghost predicate Delivered(was: Data, offset: nat, now: Data, end: nat, asked: nat, got: Data) {
    && offset <= |was| && offset <= end <= |now| && was <= now
    && got == now[offset..end] && |got| <= asked
    && CutAt(was[offset..], asked) <= got
  }

  /** Handle `h` is inside its file. */
  ghost predicate Within(s: Fs, h: int)
    requires Safe(s)
  {
    OnFile(s, h) && s.open[h].offset <= |FileOf(s, h)|
  }

  /** One read delivers the next bytes and moves the handle past them. */
  lemma ReadAdvances(s: Fs, c: Call, h: int)
    requires Safe(s) && Within(s, h) && Reads(c, h) && CallOk(s, c)
    ensures var (t, answer) := Step(s, c); var offset := s.open[h].offset;
            var got := CutAt(FileOf(s, h)[offset..], c.len);
            && Safe(t) && Within(t, h) && SameFile(s, t, h) && FileOf(t, h) == FileOf(s, h)
            && t.open[h].offset == offset + |got| && answer.data == got
  {
    ReadMeaning(s, h, c.len);
    ReadSafe(s, h, c.len);
    hide Read, ReadOk, DirMap, Slots, DirOk, RootOk, NamesOk, BlocksOk, HandlesOk, CutAt;
    var got := CutAt(FileOf(s, h)[s.open[h].offset..], c.len);
    CutShorter(FileOf(s, h)[s.open[h].offset..], c.len);
    var t := Step(s, c).0;
    assert t == s.(open := s.open[h := s.open[h].(offset := s.open[h].offset + |got|)]);
  }

  lemma CutShorter(d: Data, limit: nat)
    ensures |CutAt(d, limit)| <= |d|
  {
  }

  /** What any other call leaves: the handle, and a file that has only grown. */
  lemma OthersKeep(s: Fs, c: Call, h: int)
    requires Safe(s) && CallOk(s, c) && Within(s, h) && Follows(s, c, h) && !Reads(c, h)
    ensures var t := Step(s, c).0;
            && Safe(t) && Within(t, h) && SameFile(s, t, h) && t.open[h] == s.open[h]
            && FileOf(s, h) <= FileOf(t, h)
  {
    hide DirMap, Slots, DirOk, FirstIndex, Foreign, RootOk, NamesOk;
    if Foreign(s, c, h) {
      hide Open, Close, Write, Read, Unlink, Content;
      ForeignKeeps(s, c, h);
    } else {
      NothingKept(s, h);
      WriteSafe(s, c.handle, c.buffer);
      if Write(s, c.handle, c.buffer).1 != -1 {
        FitsBlock(s, h);
        WriteAppends(s, c.handle, c.buffer);
        CutGrows(FileOf(s, h), c.buffer, s.p.blockSize);
        hide Content, CutAt, Write;
      }
    }
  }

  lemma CutGrows(d: Data, more: Data, limit: nat)
    ensures |d| <= limit ==> d <= CutAt(d + more, limit)
  {
  }

  lemma {:induction false} RunAnswers(s: Fs, calls: seq<Call>)
    requires Safe(s) && RunOk(s, calls)
    ensures |Run(s, calls).1| == |calls|
    decreases |calls|
  {
    hide Step, CallOk, Safe;
    if calls != [] {
      StepSafe(s, calls[0]);
      RunAnswers(Step(s, calls[0]).0, calls[1..]);
    }
  }

  /** The first call of a run, and what it adds to the bytes received and asked for. */
  lemma FirstCall(s: Fs, calls: seq<Call>, h: int)
    requires Safe(s) && RunOk(s, calls) && calls != []
    ensures var (t, answer) := Step(s, calls[0]); var rest := calls[1..];
            && Safe(t) && RunOk(t, rest)
            && Run(s, calls).0 == Run(t, rest).0
            && |Run(s, calls).1| == |calls| && |Run(t, rest).1| == |rest|
            && Received(calls, Run(s, calls).1, h)
               == (if Reads(calls[0], h) then answer.data else []) + Received(rest, Run(t, rest).1, h)
            && Asked(calls, h) == (if Reads(calls[0], h) then calls[0].len else 0) + Asked(rest, h)
  {
    hide Step, CallOk, Safe;
    StepSafe(s, calls[0]);
    var t := Step(s, calls[0]).0;
    RunAnswers(s, calls);
    RunAnswers(t, calls[1..]);
    assert Run(s, calls).1[1..] == Run(t, calls[1..]).1;
  }

  /** The reader of `h` got what it passed in its file from `s` to `t`. */
  ghost predicate Streamed(s: Fs, t: Fs, h: int, asked: nat, got: Data)
    requires Safe(s) && Safe(t) && OnFile(s, h)
  {
    && Within(t, h) && SameFile(s, t, h)
    && Delivered(FileOf(s, h), s.open[h].offset, FileOf(t, h), t.open[h].offset, asked, got)
  }

  /** What a read delivered, followed by what was received after it. */
  lemma StreamedRead(s: Fs, t: Fs, u: Fs, h: int, len: nat, asked: nat, got: Data)
    requires Safe(s) && Safe(t) && Safe(u) && Within(s, h) && SameFile(s, t, h) && FileOf(t, h) == FileOf(s, h)
    requires t.open[h].offset == s.open[h].offset + |CutAt(FileOf(s, h)[s.open[h].offset..], len)|
    requires Streamed(t, u, h, asked, got)
    ensures Streamed(s, u, h, len + asked, CutAt(FileOf(s, h)[s.open[h].offset..], len) + got)
  {
    hide Safe, FileOf, Delivered, CutAt;
    DeliveredMore(FileOf(s, h), s.open[h].offset, FileOf(u, h), u.open[h].offset, len, asked, got);
    SameFileTwice(s, t, u, h);
  }

  /** The same bytes are received of the file before it grew. */
  lemma StreamedOther(s: Fs, t: Fs, u: Fs, h: int, asked: nat, got: Data)
    requires Safe(s) && Safe(t) && Safe(u) && Within(s, h) && SameFile(s, t, h) && FileOf(s, h) <= FileOf(t, h)
    requires t.open[h].offset == s.open[h].offset
    requires Streamed(t, u, h, asked, got)
    ensures Streamed(s, u, h, asked, got)
  {
    hide Safe, FileOf, Delivered;
    DeliveredGrown(FileOf(s, h), FileOf(t, h), s.open[h].offset, FileOf(u, h), u.open[h].offset, asked, got);
    SameFileTwice(s, t, u, h);
  }

  lemma {:induction false} StreamedRun(s: Fs, calls: seq<Call>, h: int)
    requires Safe(s) && RunOk(s, calls) && Within(s, h) && Following(s, calls, h)
    ensures var (t, answers) := Run(s, calls);
            && Safe(t) && |answers| == |calls|
            && Streamed(s, t, h, Asked(calls, h), Received(calls, answers, h))
    decreases |calls|
  {
    hide Safe, FileOf, Delivered, Dir, Step, CallOk, Follows, SameFile;
    RunSafe(s, calls);
    RunAnswers(s, calls);
    if calls == [] {
      NothingKept(s, h);
      DeliveredNothing(FileOf(s, h), s.open[h].offset);
    } else {
      var c := calls[0];
      var t := Step(s, c).0;
      FirstCall(s, calls, h);
      if Reads(c, h) {
        ReadAdvances(s, c, h);
      } else {
        OthersKeep(s, c, h);
      }
      hide OnFile, Within, Received, Asked, Run, Streamed, CutAt;
      StreamedRun(t, calls[1..], h);
      var u := Run(t, calls[1..]).0;
      var asked, got := Asked(calls[1..], h), Received(calls[1..], Run(t, calls[1..]).1, h);
      if Reads(c, h) {
        StreamedRead(s, t, u, h, c.len, asked, got);
      } else {
        StreamedOther(s, t, u, h, asked, got);
        assert [] + got == got;
      }
    }
  }

  /** Reads of any lengths through one handle, while others append to the file:
      the earlier contents are a prefix of the final ones, and what is received is
      the part of the final file that the handle has passed. */
  lemma ReadStream(s: Fs, calls: seq<Call>, h: int)
    requires Safe(s) && RunOk(s, calls) && Within(s, h) && Following(s, calls, h)
    ensures var (t, answers) := Run(s, calls);
            && Safe(t) && |answers| == |calls| && Within(t, h) && SameFile(s, t, h)
            && Delivered(FileOf(s, h), s.open[h].offset, FileOf(t, h), t.open[h].offset,
                         Asked(calls, h), Received(calls, answers, h))
  {
    hide Safe, FileOf, Delivered, SameFile, Run;
    StreamedRun(s, calls, h);
  }

  lemma DeliveredNothing(file: Data, offset: nat)
    requires offset <= |file|
    ensures Delivered(file, offset, file, offset, 0, [])
  {
  }

  /** A read of the next bytes, then the rest. */
  lemma DeliveredMore(was: Data, offset: nat, now: Data, end: nat, len: nat, asked: nat, got: Data)
    requires offset <= |was|
    requires var n := |CutAt(was[offset..], len)|; Delivered(was, offset + n, now, end, asked, got)
    ensures var first := CutAt(was[offset..], len); Delivered(was, offset, now, end, len + asked, first + got)
  {
    var rest := was[offset..];
    var n := |CutAt(rest, len)|;
    assert rest[..n] == now[offset..offset + n];
    assert rest[..n] + now[offset + n..end] == now[offset..end];
    assert was[offset + n..] == rest[n..];
    CutSum(rest, n, len, asked);
  }

  /** Delivered from a file that had grown first. */
  lemma DeliveredGrown(older: Data, was: Data, offset: nat, now: Data, end: nat, asked: nat, got: Data)
    requires older <= was && offset <= |older| && Delivered(was, offset, now, end, asked, got)
    ensures Delivered(older, offset, now, end, asked, got)
  {
    assert older[offset..] <= was[offset..];
  }

  /** When the file ends as it was, the bytes received are exactly the next ones: as
      many as were asked for, or all there are. */
  lemma QuietRead(s: Fs, calls: seq<Call>, h: int)
    requires Safe(s) && RunOk(s, calls) && Within(s, h) && Following(s, calls, h)
    requires var t := Run(s, calls).0; Safe(t) && OnFile(t, h) && FileOf(t, h) == FileOf(s, h)
    ensures |Run(s, calls).1| == |calls|
    ensures Received(calls, Run(s, calls).1, h) == CutAt(FileOf(s, h)[s.open[h].offset..], Asked(calls, h))
  {
    ReadStream(s, calls, h);
    hide Safe, FileOf, Run, Dir;
  }

  lemma CutSum(rest: Data, n: nat, asked: nat, more: nat)
    requires n == if asked < |rest| then asked else |rest|
    ensures rest[..n] + CutAt(rest[n..], more) == CutAt(rest, asked + more)
  {
  }
}
