/** What the file system is for, without tables: files are byte strings under
    names, handles are positions in files. Resources appear only as counts. */
module AbstractFs {
  import opened Bytes
  import opened Directory
  import opened Tables

  datatype Handle = Handle(name: Data, offset: nat)
  datatype Abs = Abs(files: map<Data, Data>, handles: map<int, Handle>)

  const EMPTY: Abs := Abs(map[], map[])

  ghost function NonEmpty(files: map<Data, Data>): set<Data> {
    set n | n in files && files[n] != []
  }

  /** The least handle number not in use, -1 when all are. */
  function FreeHandle(handles: set<int>, limit: nat, from: nat := 0): (h: int)
    requires from <= limit
    ensures h == -1 ==> forall k | from <= k < limit :: k in handles
    ensures h != -1 ==> from <= h < limit && h !in handles && forall k | from <= k < h :: k in handles
    decreases limit - from
  {
    if from == limit then -1 else if from !in handles then from else FreeHandle(handles, limit, from + 1)
  }

  function AOpenHandle(p: Params, a: Abs, name: Data, offset: nat): (Abs, int) {
    var h := FreeHandle(a.handles.Keys, p.openFiles);
    if h == -1 then (a, -1) else (a.(handles := a.handles[h := Handle(name, offset)]), h)
  }

  /** A new file needs a legal name, an inode besides the root's, and a directory entry. */
  predicate CanCreate(p: Params, a: Abs, name: Data) {
    LegalName(name) && |a.files| + 1 < p.inodes && |a.files| < MaxEntries(p.blockSize)
  }

  function AOpen(p: Params, a: Abs, path: Path, m: Mode): (Abs, int) {
    if !ValidPathname(path) then (a, -1)
    else
      var name := path.chars[1..];
      if name in a.files then
        var a1 := if m.truncate then a.(files := a.files[name := []]) else a;
        AOpenHandle(p, a1, name, if m.append then |a1.files[name]| else 0)
      else if m.create && CanCreate(p, a, name) then
        AOpenHandle(p, a.(files := a.files[name := []]), name, 0)
      else (a, -1)
  }

  /** What an open does when no handle is free: the file is still created or truncated. */
  ghost function FullTableOpen(p: Params, a: Abs, path: Path, m: Mode): map<Data, Data> {
    if ValidPathname(path)
       && (if path.chars[1..] in a.files then m.truncate else m.create && CanCreate(p, a, path.chars[1..]))
    then a.files[path.chars[1..] := []] else a.files
  }

  lemma AOpenFull(p: Params, a: Abs, path: Path, m: Mode)
    requires FreeHandle(a.handles.Keys, p.openFiles) == -1
    ensures AOpen(p, a, path, m) == (Abs(FullTableOpen(p, a, path, m), a.handles), -1)
  {
  }

  function AClose(a: Abs, h: int): (Abs, int) {
    if h in a.handles then (a.(handles := a.handles - {h}), 0) else (a, -1)
  }

  /** Every handle is a position inside an existing file. */
  ghost predicate WellFormed(p: Params, a: Abs) {
    && (forall h | h in a.handles ::
          a.handles[h].name in a.files && a.handles[h].offset <= |a.files[a.handles[h].name]|)
    && (forall n | n in a.files :: |a.files[n]| <= p.blockSize)
  }

  /** The contents after writing `data` at a position: overwritten, and extended if needed. */
  function Splice(file: Data, at: nat, data: Data): (r: Data)
    requires at <= |file|
    ensures |r| == if at + |data| > |file| then at + |data| else |file|
  {
    file[..at] + data + if at + |data| < |file| then file[at + |data|..] else []
  }

  /** A write is cut at the block size; the first bytes of an empty file need a block besides the root's. */
  ghost function AWrite(p: Params, a: Abs, h: int, buffer: Data): (Abs, int)
    requires WellFormed(p, a)
  {
    if h !in a.handles then (a, -1)
    else
      var Handle(name, offset) := a.handles[h];
      var file := a.files[name];
      var n: int := if |buffer| <= p.blockSize - offset then |buffer| else p.blockSize - offset;
      if n == 0 then (a, 0)
      else if file == [] && |NonEmpty(a.files)| + 1 >= p.blocks then (a, -1)
      else (Abs(a.files[name := Splice(file, offset, buffer[..n])],
                a.handles[h := Handle(name, offset + n)]), n)
  }

  function ARead(p: Params, a: Abs, h: int, len: nat): (Abs, int, Data)
    requires h in a.handles ==>
               a.handles[h].name in a.files && a.handles[h].offset <= |a.files[a.handles[h].name]|
  {
    if h !in a.handles then (a, -1, [])
    else
      var Handle(name, offset) := a.handles[h];
      var got := CutAt(a.files[name][offset..], len);
      (a.(handles := a.handles[h := Handle(name, offset + |got|)]), |got|, got)
  }

  function AUnlink(a: Abs, path: Path): (Abs, int) {
    if !ValidPathname(path) || path.chars[1..] !in a.files then (a, -1)
    else (a.(files := a.files - {path.chars[1..]}), 0)
  }

  ghost predicate HasHandle(a: Abs, name: Data) {
    exists h :: h in a.handles && a.handles[h].name == name
  }

  /** Does a call truncate this file? */
  predicate Truncates(c: Call, name: Data) {
    c.OpenCall? && c.mode.truncate && ValidPathname(c.path) && c.path.chars[1..] == name
  }

  /** The discipline: no file is unlinked while it is open, and none truncated
      while a handle on it is not at its start. */
  ghost predicate Allowed(a: Abs, c: Call) {
    match c
    case OpenCall(path, mode) =>
      PathOk(path) &&
      forall h | h in a.handles && a.handles[h].name in a.files && Truncates(c, a.handles[h].name) ::
        a.handles[h].offset == 0
    case UnlinkCall(path) =>
      PathOk(path) &&
      (ValidPathname(path) && path.chars[1..] in a.files ==> !HasHandle(a, path.chars[1..]))
    case _ => true
  }

  ghost function AStep(p: Params, a: Abs, c: Call): (Abs, Answer)
    requires WellFormed(p, a)
  {
    match c
    case OpenCall(path, mode) => var (b, r) := AOpen(p, a, path, mode); (b, Answer(r, []))
    case CloseCall(h) => var (b, r) := AClose(a, h); (b, Answer(r, []))
    case WriteCall(h, buffer) => var (b, r) := AWrite(p, a, h, buffer); (b, Answer(r, []))
    case ReadCall(h, len) => var (b, r, data) := ARead(p, a, h, len); (b, Answer(r, data))
    case UnlinkCall(path) => var (b, r) := AUnlink(a, path); (b, Answer(r, []))
  }

  /** A disciplined step keeps every handle inside an existing file, and every file within a block. */
  lemma AStepWellFormed(p: Params, a: Abs, c: Call)
    requires WellFormed(p, a) && Allowed(a, c)
    ensures WellFormed(p, AStep(p, a, c).0)
  {
    match c
    case OpenCall(path, mode) => hide AClose, AWrite, ARead, AUnlink;
    case CloseCall(h) => hide AOpen, AWrite, ARead, AUnlink;
    case WriteCall(h, buffer) => hide AOpen, AClose, ARead, AUnlink;
    case ReadCall(h, len) => hide AOpen, AClose, AWrite, AUnlink;
    case UnlinkCall(path) => hide AOpen, AClose, AWrite, ARead;
  }

  /** No files and no handles: the state after initialisation. */
  ghost function Start(p: Params): (a: Abs)
    ensures WellFormed(p, a)
  {
    EMPTY
  }

  /** A run in which every call obeys the discipline in the state it is made in. */
  ghost predicate AllowedRun(p: Params, a: Abs, calls: seq<Call>)
    requires WellFormed(p, a)
    decreases |calls|
  {
    calls == [] ||
    (Allowed(a, calls[0]) &&
     (AStepWellFormed(p, a, calls[0]); AllowedRun(p, AStep(p, a, calls[0]).0, calls[1..])))
  }

  /** The final state of a run and the answers along the way. */
  ghost function ARun(p: Params, a: Abs, calls: seq<Call>): (r: (Abs, seq<Answer>))
    requires WellFormed(p, a) && AllowedRun(p, a, calls)
    ensures WellFormed(p, r.0) && |r.1| == |calls|
    decreases |calls|
  {
    if calls == [] then (a, [])
    else
      AStepWellFormed(p, a, calls[0]);
      var (b, answer) := AStep(p, a, calls[0]);
      var (c, answers) := ARun(p, b, calls[1..]);
      (c, [answer] + answers)
  }
}
