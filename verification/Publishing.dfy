/** From a publisher's lines to what a subscriber prints: messages over the pipe,
    into a box, out of it again by the replay loop, and over the other pipe. */
module Publishing {
  import opened Bytes
  import opened Scan
  import opened Directory
  import opened Tables
  import opened Safety
  import opened Accounting
  import opened Streams
  import opened DanglingRuns
  import opened Replay
  import opened Codec

  // ---------- the publisher's writes ----------

  /** One write for each message, with its terminator. */
  function Publish(h: int, ms: seq<Data>): seq<Call> {
    if ms == [] then [] else [WriteCall(h, Record(ms[0]))] + Publish(h, ms[1..])
  }

  lemma PublishFirst(h: int, ms: seq<Data>)
    requires ms != []
    ensures Publish(h, ms) != [] && Publish(h, ms)[0] == WriteCall(h, Record(ms[0]))
    ensures Publish(h, ms)[1..] == Publish(h, ms[1..])
  {
  }

  lemma {:induction false} PublishRunOk(s: Fs, h: int, ms: seq<Data>)
    requires Safe(s)
    ensures RunOk(s, Publish(h, ms))
    decreases |ms|
  {
    hide Safe, Write;
    if ms != [] {
      PublishFirst(h, ms);
      SafeShape(s);
      StepSafe(s, Publish(h, ms)[0]);
      PublishRunOk(Step(s, Publish(h, ms)[0]).0, h, ms[1..]);
    }
  }

  lemma SafeShape(s: Fs)
    requires Safe(s)
    ensures Shape(s)
  {
  }

  lemma {:induction false} PublishSends(h: int, ms: seq<Data>)
    ensures Sent(Publish(h, ms), h) == Stored(ms)
  {
    if ms != [] {
      PublishSends(h, ms[1..]);
      PublishFirst(h, ms);
    }
  }

  /** A write of something at the end of a file fails exactly when the file is
      empty and no block is free; when it does not fail the file is not empty. */
  lemma WriteFails(s: Fs, h: int, buffer: Data)
    requires Safe(s) && AtEnd(s, h) && buffer != []
    ensures Write(s, h, buffer).1 == -1 <==> FileOf(s, h) == [] && FirstFree(s.blockMap) == -1
    ensures Write(s, h, buffer).1 != -1 ==>
              var t := Write(s, h, buffer).0; Safe(t) && AtEnd(t, h) && FileOf(t, h) != []
  {
    hide DirMap, Slots, DirOk, RootOk, NamesOk, BlocksOk, FirstIndex;
    FitsBlock(s, h);
    if Write(s, h, buffer).1 != -1 {
      WriteAppends(s, h, buffer);
      hide Write, Content;
      assert |FileOf(s, h) + buffer| > 0;
    }
  }

  /** The publisher is a sole writer that never fails exactly when there is a block for its first message. */
  lemma {:induction false} PublishSoleWriter(s: Fs, h: int, ms: seq<Data>)
    requires Safe(s) && AtEnd(s, h)
    ensures RunOk(s, Publish(h, ms))
    ensures SoleWriter(s, Publish(h, ms), h) <==> ms == [] || FileOf(s, h) != [] || FirstFree(s.blockMap) != -1
    decreases |ms|
  {
    PublishRunOk(s, h, ms);
    hide Safe, Write, FileOf, AtEnd;
    if ms != [] {
      PublishFirst(h, ms);
      var c := Publish(h, ms)[0];
      WriteFails(s, h, c.buffer);
      AtEndOnFile(s, h);
      StepSafe(s, c);
      if Step(s, c).1.code != -1 {
        PublishSoleWriter(Step(s, c).0, h, ms[1..]);
      }
    }
  }

  lemma AtEndOnFile(s: Fs, h: int)
    requires Safe(s) && AtEnd(s, h)
    ensures OnFile(s, h)
  {
  }

  // ---------- publishing, then replaying ----------

  const READ_ONLY: Mode := Mode(false, false, false)

  /** A new handle reads the file from its start. */
  lemma FreshRead(s: Fs, path: Path, i: int, len: nat)
    requires Safe(s) && PathOk(path) && Live(s, i) && PathTo(s, path, i)
    requires Open(s, path, READ_ONLY).1 != -1
    ensures var (t, g) := Open(s, path, READ_ONLY);
            && Safe(t) && ReadOk(t, g, len)
            && var (_, n, data) := Read(t, g, len);
            n == |data| && data == CutAt(Content(s, i), len)
  {
    hide DirMap, Slots, DirOk, FirstIndex, RootOk;
    LookupUsable(s, path.chars[1..]);
    FirstFreeMeaning(s.openMap);
    AddHandleSafe(s, i, 0);
    var (t, g) := Open(s, path, READ_ONLY);
    assert t.blocks == s.blocks && t.inodes == s.inodes;
    assert Within(t, g) && FileOf(t, g) == Content(s, i);
    InsideReadsOk(t, g, len);
    hide NamesOk, BlocksOk, HandlesOk, Open;
    ReadAdvances(t, ReadCall(g, len), g);
    assert FileOf(t, g)[0..] == FileOf(t, g);
    ReadLength(t, g, len);
  }

  lemma ReadLength(s: Fs, h: int, len: nat)
    requires Safe(s) && ReadOk(s, h, len) && IsOpen(s, h)
    ensures Read(s, h, len).1 == |Read(s, h, len).2|
  {
    hide DirMap, Slots, DirOk, RootOk, NamesOk, BlocksOk;
  }

  /** Messages published through one append handle into an empty box, with any
      calls of other sessions in between, then read by a new subscriber into a
      buffer with any earlier contents `mem`: the replay sends exactly the messages
      if and only if none is empty and the buffer holds a NUL right after the
      bytes that were read. */
  lemma PublishThenReplay(s: Fs, calls: seq<Call>, h: int, ms: seq<Data>, path: Path, mem: Data)
    requires Safe(s) && RunOk(s, calls) && AtEnd(s, h) && FileOf(s, h) == []
    requires SoleWriter(s, calls, h) && Sent(calls, h) == Stored(ms)
    requires PathOk(path) && PathTo(s, path, s.open[h].inumber)
    requires AllNulFree(ms) && |Stored(ms)| <= s.p.blockSize && |Stored(ms)| <= BOX_BUFFER && |mem| == BOX_BUFFER
    requires Safe(Run(s, calls).0) && Open(Run(s, calls).0, path, READ_ONLY).1 != -1
    ensures var (t, g) := Open(Run(s, calls).0, path, READ_ONLY);
            && Safe(t) && ReadOk(t, g, BOX_BUFFER)
            && var (_, n, data) := Read(t, g, BOX_BUFFER);
            && n == |data| && data == Stored(ms)
            && (Split(Overlay(mem, 0, data), 0) == Done(ms) <==>
                NoneEmpty(ms) && n < BOX_BUFFER && mem[n] == 0)
  {
    AppendStream(s, calls, h);
    assert [] + Stored(ms) == Stored(ms);
    var t := Run(s, calls).0;
    AtEndOnFile(t, h);
    hide Safe, RunOk, SoleWriter, AtEnd, Open, Read, Run, Split, Sent, Dir, ReadOk;
    FreshRead(t, path, s.open[h].inumber, BOX_BUFFER);
    var data := Stored(ms);
    assert Overlay(mem, 0, data) == data + mem[|data|..];
    ReplayIdentity(Overlay(mem, 0, data), ms, mem[|data|..]);
  }

  /** When the publisher's writes are the only calls, it is enough that there is a block. */
  lemma PublishAloneThenReplay(s: Fs, h: int, ms: seq<Data>, path: Path, mem: Data)
    requires Safe(s) && AtEnd(s, h) && FileOf(s, h) == [] && (ms == [] || FirstFree(s.blockMap) != -1)
    requires PathOk(path) && PathTo(s, path, s.open[h].inumber)
    requires AllNulFree(ms) && |Stored(ms)| <= s.p.blockSize && |Stored(ms)| <= BOX_BUFFER && |mem| == BOX_BUFFER
    ensures RunOk(s, Publish(h, ms)) && Safe(Run(s, Publish(h, ms)).0)
    ensures var (t, g) := Open(Run(s, Publish(h, ms)).0, path, READ_ONLY);
            g != -1 ==>
              && Safe(t) && ReadOk(t, g, BOX_BUFFER)
              && (Split(Overlay(mem, 0, Stored(ms)), 0) == Done(ms) <==>
                  NoneEmpty(ms) && |Stored(ms)| < BOX_BUFFER && mem[|Stored(ms)|] == 0)
              && Read(t, g, BOX_BUFFER).2 == Stored(ms)
  {
    PublishSoleWriter(s, h, ms);
    PublishSends(h, ms);
    RunSafe(s, Publish(h, ms));
    hide Safe, SoleWriter, AtEnd, Open, Read, Run, Split, Sent, Publish, Overlay, FirstFree, ReadOk;
    if Open(Run(s, Publish(h, ms)).0, path, READ_ONLY).1 != -1 {
      PublishThenReplay(s, Publish(h, ms), h, ms, path, mem);
    }
  }

  // ---------- over both pipes ----------

  /** The buffer that carries a text over a pipe, with code 9 from a publisher and 10 to a
      subscriber, and the text that is read from it. */
  function OnPipe(code: Byte): Data -> Data {
    (text: Data) => EncodeMessage(Message(code, text))
  }

  const TEXT_OF: Data -> Data := (d: Data) => if |d| == MESSAGE_SIZE then DecodeMessage(d).text else []

  /** What the subscriber prints of a buffer: its text, if its code is 10. */
  const SHOWN_TEXT: Data -> Data :=
    (d: Data) => if |d| == MESSAGE_SIZE && DecodeMessage(d).code == 10 then DecodeMessage(d).text else []

  /** Texts shorter than the message field come out of a pipe as they went in. */
  lemma OverPipe(code: Byte, texts: seq<Data>)
    requires forall m | m in texts :: NulFree(m) && |m| <= MAX_MESSAGE
    ensures MapSeq(TEXT_OF, MapSeq(OnPipe(code), texts)) == texts
    ensures code == 10 ==> MapSeq(SHOWN_TEXT, MapSeq(OnPipe(code), texts)) == texts
  {
    hide EncodeMessage, DecodeMessage;
    forall i | 0 <= i < |texts|
      ensures TEXT_OF(OnPipe(code)(texts[i])) == texts[i]
      ensures code == 10 ==> SHOWN_TEXT(OnPipe(code)(texts[i])) == texts[i]
    {
      assert texts[i] in texts;
      MessageRoundTrip(Message(code, texts[i]));
    }
  }

  /** What a subscriber gets from the texts that the replay sends. */
  function Printed(r: Replayed): seq<Data> {
    MapSeq(SHOWN_TEXT, MapSeq(OnPipe(10), r.messages))
  }

  /** From the publisher's lines to the subscriber's: the lines go over the pipe,
      the broker writes what it reads into an empty box, other sessions calling in
      between, and a new subscriber's replay goes over its pipe. It ends with exactly the
      publisher's lines if and only if none is empty and the broker's buffer holds
      a NUL right after the bytes that it read. */
  lemma LinesDelivered(s: Fs, calls: seq<Call>, h: int, lines: seq<Data>, path: Path, mem: Data)
    requires forall l | l in lines :: NulFree(l) && |l| <= MAX_MESSAGE
    requires Safe(s) && RunOk(s, calls) && AtEnd(s, h) && FileOf(s, h) == [] && SoleWriter(s, calls, h)
    requires Sent(calls, h) == Stored(MapSeq(TEXT_OF, MapSeq(OnPipe(9), lines)))
    requires PathOk(path) && PathTo(s, path, s.open[h].inumber)
    requires |Stored(lines)| <= s.p.blockSize && |Stored(lines)| <= BOX_BUFFER && |mem| == BOX_BUFFER
    requires Safe(Run(s, calls).0) && Open(Run(s, calls).0, path, READ_ONLY).1 != -1
    ensures var (t, g) := Open(Run(s, calls).0, path, READ_ONLY);
            && Safe(t) && ReadOk(t, g, BOX_BUFFER)
            && var data := Read(t, g, BOX_BUFFER).2;
            && |data| == |Stored(lines)|
            && var r := Split(Overlay(mem, 0, data), 0);
            (r.Done? && Printed(r) == lines <==>
             NoneEmpty(lines) && |data| < BOX_BUFFER && mem[|data|] == 0)
  {
    OverPipe(9, lines);
    assert AllNulFree(lines) by {
      forall i | 0 <= i < |lines| ensures NulFree(lines[i]) {
        assert lines[i] in lines;
      }
    }
    hide Safe, RunOk, SoleWriter, AtEnd, FileOf, Open, Read, Run, Split, Sent, Dir, ReadOk, Overlay, Stored, PathTo;
    PublishThenReplay(s, calls, h, lines, path, mem);
    var r := Split(Overlay(mem, 0, Stored(lines)), 0);
    SplitShort(Overlay(mem, 0, Stored(lines)), 0);
    OverPipe(10, r.messages);
  }

  // ---------- from a new file system ----------

  lemma WriteKeepsHandles(s: Fs, h: int, buffer: Data)
    requires Safe(s)
    ensures Write(s, h, buffer).0.openMap == s.openMap
  {
    hide Overlay, DirMap, Slots, FirstIndex;
  }

  lemma {:induction false} PublishKeepsHandles(s: Fs, h: int, ms: seq<Data>)
    requires Safe(s) && RunOk(s, Publish(h, ms))
    ensures Run(s, Publish(h, ms)).0.openMap == s.openMap
    decreases |ms|
  {
    hide Safe, Write;
    if ms != [] {
      PublishFirst(h, ms);
      WriteKeepsHandles(s, h, Record(ms[0]));
      StepSafe(s, Publish(h, ms)[0]);
      PublishKeepsHandles(Step(s, Publish(h, ms)[0]).0, h, ms[1..]);
    }
  }

  /** A free entry of the open-file table is found for a file there is. */
  lemma OpensFile(s: Fs, path: Path, i: int)
    requires Safe(s) && PathOk(path) && Live(s, i) && PathTo(s, path, i) && FirstFree(s.openMap) != -1
    ensures Open(s, path, READ_ONLY).1 != -1
  {
    hide DirMap, Slots, DirOk, FirstIndex, RootOk, BlocksOk, HandlesOk;
    LookupUsable(s, path.chars[1..]);
  }

  /** A new box in a new file system is empty, with its handle at the end and a block to write to. */
  lemma NewBox(m: Fs, a: Data)
    requires Roomy(m) && NulFree(a) && LegalName(a)
    ensures var s := Open(Boot(m), PathOf(a), CREATE).0;
            && Safe(s) && s.p == m.p && AtEnd(s, 0) && FileOf(s, 0) == []
            && PathOk(PathOf(a)) && PathTo(s, PathOf(a), s.open[0].inumber)
            && FirstFree(s.blockMap) != -1 && FirstFree(s.openMap) != -1
  {
    FirstFile(m, a);
    hide Boot, Open, FirstFree, DirMap, Slots, RootOk, NamesOk, BlocksOk, HandlesOk;
    assert PathOf(a).chars[1..] == a;
  }

  /** A new file system after creating a box. */
  ghost function WithBox(m: Fs, a: Data): (s: Fs)
    requires Roomy(m) && NulFree(a) && LegalName(a)
    ensures Safe(s) && s.p == m.p && AtEnd(s, 0) && FileOf(s, 0) == []
    ensures PathOk(PathOf(a)) && PathTo(s, PathOf(a), s.open[0].inumber)
    ensures FirstFree(s.blockMap) != -1 && FirstFree(s.openMap) != -1
  {
    NewBox(m, a);
    Open(Boot(m), PathOf(a), CREATE).0
  }

  /** Create a box in a new file system, publish lines to it and subscribe: the
      subscriber gets exactly those lines if and only if none is empty and the
      broker's buffer holds a NUL right after the bytes that it read. */
  lemma LinesFromScratch(m: Fs, a: Data, lines: seq<Data>, mem: Data)
    requires Roomy(m) && NulFree(a) && LegalName(a)
    requires forall l | l in lines :: NulFree(l) && |l| <= 1023
    requires |Stored(lines)| <= m.p.blockSize && |Stored(lines)| <= 1024 && |mem| == 1024
    ensures var s := WithBox(m, a); var calls := Publish(0, lines);
            && RunOk(s, calls) && Safe(Run(s, calls).0)
            && var (t, g) := Open(Run(s, calls).0, PathOf(a), READ_ONLY);
            && g != -1 && Safe(t) && ReadOk(t, g, 1024)
            && var data := Read(t, g, 1024).2;
            && |data| == |Stored(lines)|
            && var r := Split(Overlay(mem, 0, data), 0);
            (r.Done? && Printed(r) == lines <==>
             NoneEmpty(lines) && |Stored(lines)| < 1024 && mem[|Stored(lines)|] == 0)
  {
    hide WithBox;
    var s := WithBox(m, a);
    var calls := Publish(0, lines);
    PublishSoleWriter(s, 0, lines);
    RunSafe(s, calls);
    PublishSends(0, lines);
    PublishKeepsHandles(s, 0, lines);
    OverPipe(9, lines);
    StillNamed(s, calls, 0, PathOf(a));
    hide Open, Read, Run, Publish, FirstFree, Safe, RunOk, SoleWriter, AtEnd, FileOf, PathTo, PathOf;
    hide Stored, Sent, Split, Overlay, ReadOk, Printed;
    OpensFile(Run(s, calls).0, PathOf(a), s.open[0].inumber);
    LinesDelivered(s, calls, 0, lines, PathOf(a), mem);
  }

  lemma StillNamed(s: Fs, calls: seq<Call>, h: int, path: Path)
    requires Safe(s) && RunOk(s, calls) && AtEnd(s, h) && SoleWriter(s, calls, h)
    requires PathTo(s, path, s.open[h].inumber)
    ensures var t := Run(s, calls).0;
            Safe(t) && h < |s.open| && Live(t, s.open[h].inumber) && PathTo(t, path, s.open[h].inumber)
  {
    AppendStream(s, calls, h);
    hide Safe, Run, FileOf, Dir;
  }
}
