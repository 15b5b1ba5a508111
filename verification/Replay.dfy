/** The broker's replay of a box: messages stored as NUL-terminated strings are
    cut apart again from a fixed buffer. */
module Replay {
  import opened Bytes

  /** sizeof(full_box_buffer), and the longest string the loop asks for. */
  const BOX_BUFFER: nat := 1024
  const MAX_MESSAGE: nat := BOX_BUFFER - 1

  // ---------- one string from a buffer ----------

  /** Scanning at most `max` bytes from `at` stays inside the buffer. */
  predicate ScanInside(buf: Data, at: nat, max: nat) {
    at <= |buf| && (at + max <= |buf| || StrLen(buf[at..]) < |buf| - at)
  }

  /** The string at `at`: up to a NUL, or `max` bytes. */
  function FirstString(buf: Data, at: nat, max: nat): (s: Data)
    requires ScanInside(buf, at, max)
    ensures |s| <= max && NulFree(s) && at + |s| <= |buf|
  {
    var n := StrLen(buf[at..]);
    buf[at..][..if n < max then n else max]
  }

  lemma FirstStringStops(buf: Data, at: nat, max: nat, n: nat)
    requires ScanInside(buf, at, max) && n <= max && at + n <= |buf|
    requires NulFree(buf[at..at + n])
    requires n < max ==> at + n < |buf| && buf[at + n] == 0
    ensures FirstString(buf, at, max) == buf[at..at + n]
  {
    assert buf[at..][..n] == buf[at..at + n];
    StrLenAtLeast(buf[at..], n);
    if n < max {
      assert buf[at..][n] == buf[at + n];
      StrLenUnique(buf[at..], n);
    }
  }

  /** `remove_first_string_from_buffer` */
  method RemoveFirstString(buf: array<Byte>, at: nat, str: array<Byte>, max: nat) returns (used: nat)
    requires buf != str && ScanInside(buf[..], at, max)
    requires |FirstString(buf[..], at, max)| < str.Length
    modifies str
    ensures CString(str[..]) == FirstString(buf[..], at, max)
    ensures used == |FirstString(buf[..], at, max)| + 1
    ensures forall k | used <= k < str.Length :: str[k] == old(str[k])
  {
    ghost var b := buf[..];
    var i := 0;
    while i < max
      invariant 0 <= i <= max && at + i <= |b|
      invariant NulFree(b[at..at + i])
      invariant i <= |FirstString(b, at, max)|
      invariant forall k | 0 <= k < i :: str[k] == b[at + k]
      invariant forall k | i <= k < str.Length :: str[k] == old(str[k])
    {
      ScanGoesOn(b, at, max, i);
      if buf[at + i] == 0 {
        break;
      }
      str[i] := buf[at + i];
      i := i + 1;
    }
    FirstStringStops(b, at, max, i);
    str[i] := 0;
    assert str[..][..i] == b[at..at + i];
    StrLenUnique(str[..], i);
    return i + 1;
  }

  lemma ScanGoesOn(buf: Data, at: nat, max: nat, i: nat)
    requires ScanInside(buf, at, max) && i < max && at + i <= |buf|
    requires NulFree(buf[at..at + i])
    ensures at + i < |buf|
    ensures buf[at + i] != 0 ==> i < |FirstString(buf, at, max)| && NulFree(buf[at..at + i + 1])
  {
    assert buf[at..][..i] == buf[at..at + i];
    StrLenAtLeast(buf[at..], i);
    assert at + i < |buf|;
    assert buf[at..][i] == buf[at + i];
    if buf[at + i] != 0 {
      assert buf[at..at + i + 1] == buf[at..at + i] + [buf[at + i]];
      assert buf[at..][..i + 1] == buf[at..at + i + 1];
      StrLenAtLeast(buf[at..], i + 1);
    }
  }

  // ---------- the loop ----------

  /** What the loop sends: all of it, or what it sent before its scan would leave the buffer. */
  datatype Replayed = Done(messages: seq<Data>) | Overrun(messages: seq<Data>)

  function Prepend(m: seq<Data>, r: Replayed): Replayed {
    match r
    case Done(ms) => Done(m + ms)
    case Overrun(ms) => Overrun(m + ms)
  }

  function Split(buf: Data, at: nat): Replayed
    decreases |buf| + 1 - at
  {
    if at > |buf| then Done([])
    else if !ScanInside(buf, at, MAX_MESSAGE) then Overrun([])
    else
      var s := FirstString(buf, at, MAX_MESSAGE);
      if s == [] then Done([]) else Prepend([s], Split(buf, at + |s| + 1))
  }

  /** The loop of mbroker.c; `str` is `message.message`. It stops where the source's next scan would be undefined. */
  method ReplayLoop(buf: array<Byte>, str: array<Byte>) returns (r: Replayed)
    requires buf != str && buf.Length == BOX_BUFFER && str.Length == BOX_BUFFER
    modifies str
    ensures r == Split(buf[..], 0)
  {
    var offset := 0;
    var sent: seq<Data> := [];
    while offset <= buf.Length
      invariant buf[..] == old(buf[..])
      invariant Prepend(sent, Split(buf[..], offset)) == Split(buf[..], 0)
      decreases buf.Length + 1 - offset
    {
      if !ScanInside(buf[..], offset, MAX_MESSAGE) {
        return Overrun(sent);
      }
      ghost var rest := Split(buf[..], offset);
      var used := RemoveFirstString(buf, offset, str, MAX_MESSAGE);
      if used == 1 {
        return Done(sent);
      }
      var message := CString(str[..]);
      PrependTwice(sent, [message], Split(buf[..], offset + used));
      sent := sent + [message];
      offset := offset + used;
    }
    return Done(sent);
  }

  lemma PrependTwice(x: seq<Data>, y: seq<Data>, r: Replayed)
    ensures Prepend(x, Prepend(y, r)) == Prepend(x + y, r)
  {
    assert x + (y + r.messages) == (x + y) + r.messages;
  }

  // ---------- storing and replaying ----------

  /** A message as the publisher stores it. */
  function Record(m: Data): Data {
    m + [0]
  }

  function Stored(ms: seq<Data>): Data {
    if ms == [] then [] else Record(ms[0]) + Stored(ms[1..])
  }

  ghost predicate AllNulFree(ms: seq<Data>) {
    forall i | 0 <= i < |ms| :: NulFree(ms[i])
  }

  ghost predicate NoneEmpty(ms: seq<Data>) {
    forall i | 0 <= i < |ms| :: ms[i] != []
  }

  /** The messages before the first empty one. */
  function BeforeEmpty(ms: seq<Data>): seq<Data> {
    if ms == [] || ms[0] == [] then [] else [ms[0]] + BeforeEmpty(ms[1..])
  }

  lemma {:induction false} BeforeEmptyAll(ms: seq<Data>)
    ensures BeforeEmpty(ms) == ms <==> NoneEmpty(ms)
    ensures |BeforeEmpty(ms)| <= |ms|
  {
    if ms != [] {
      BeforeEmptyAll(ms[1..]);
      assert ms == [ms[0]] + ms[1..];
      if ms[0] != [] {
        assert BeforeEmpty(ms)[1..] == BeforeEmpty(ms[1..]);
        assert NoneEmpty(ms) <==> NoneEmpty(ms[1..]);
      }
    }
  }

  /** The first stored message is the string found at its position. */
  lemma FirstStored(buf: Data, at: nat, m: Data, tail: Data)
    requires at <= |buf| && buf[at..] == Record(m) + tail && NulFree(m) && |m| <= MAX_MESSAGE
    ensures ScanInside(buf, at, MAX_MESSAGE) && FirstString(buf, at, MAX_MESSAGE) == m
    ensures at + |m| + 1 <= |buf| && buf[at + |m| + 1..] == tail
  {
    StrLenUnique(buf[at..], |m|);
    assert buf[at..][..|m|] == m;
    assert buf[at + |m| + 1..] == buf[at..][|m| + 1..];
  }

  /** From stored messages the loop sends those before the first empty one, and
      only then looks at the rest of the buffer. */
  lemma {:induction false} SplitStored(buf: Data, at: nat, ms: seq<Data>, tail: Data)
    requires |buf| == BOX_BUFFER && at <= |buf| && buf[at..] == Stored(ms) + tail
    requires AllNulFree(ms) && forall i | 0 <= i < |ms| :: |ms[i]| <= MAX_MESSAGE
    ensures Split(buf, at) ==
            Prepend(BeforeEmpty(ms), if NoneEmpty(ms) then Split(buf, |buf| - |tail|) else Done([]))
    decreases |ms|
  {
    if ms == [] {
      assert at == |buf| - |tail|;
      PrependNone(Split(buf, at));
    } else {
      assert Stored(ms) + tail == Record(ms[0]) + (Stored(ms[1..]) + tail);
      FirstStored(buf, at, ms[0], Stored(ms[1..]) + tail);
      if ms[0] != [] {
        SplitStored(buf, at + |ms[0]| + 1, ms[1..], tail);
        assert NoneEmpty(ms) <==> NoneEmpty(ms[1..]);
        PrependTwice([ms[0]], BeforeEmpty(ms[1..]), if NoneEmpty(ms) then Split(buf, |buf| - |tail|) else Done([]));
      }
    }
  }

  lemma PrependNone(r: Replayed)
    ensures Prepend([], r) == r
  {
  }

  /** After the stored messages the loop ends at once exactly when a NUL follows inside the buffer. */
  lemma SplitEnd(buf: Data, tail: Data)
    requires |buf| == BOX_BUFFER && |tail| <= |buf| && buf[|buf| - |tail|..] == tail
    ensures Split(buf, |buf| - |tail|) == Done([]) <==> tail != [] && tail[0] == 0
  {
    var at := |buf| - |tail|;
    assert buf[at..] == tail;
    if tail != [] && tail[0] == 0 {
      StrLenUnique(buf[at..], 0);
    }
  }

  lemma {:induction false} StoredLengths(ms: seq<Data>, limit: nat)
    requires |Stored(ms)| <= limit
    ensures forall i | 0 <= i < |ms| :: |ms[i]| < limit
  {
    if ms != [] {
      StoredLengths(ms[1..], limit);
    }
  }

  /** The loop gives back exactly the stored messages if and only if none of them
      is empty and the buffer holds a NUL right after them. */
  lemma ReplayIdentity(buf: Data, ms: seq<Data>, tail: Data)
    requires |buf| == BOX_BUFFER && buf == Stored(ms) + tail && AllNulFree(ms)
    ensures Split(buf, 0) == Done(ms) <==> NoneEmpty(ms) && tail != [] && tail[0] == 0
  {
    assert buf[0..] == buf;
    StoredLengths(ms, BOX_BUFFER);
    SplitStored(buf, 0, ms, tail);
    BeforeEmptyAll(ms);
    assert buf[|buf| - |tail|..] == tail;
    SplitEnd(buf, tail);
    if NoneEmpty(ms) && Split(buf, 0) == Done(ms) {
      var r := Split(buf, |buf| - |tail|);
      assert ms + r.messages == ms;
      assert r.messages == [];
    }
  }

  /** A message of the loop: the bytes from `p` up to a NUL, or 1023 of them. */
  ghost predicate MessageAt(buf: Data, p: nat, m: Data) {
    && m != [] && NulFree(m) && |m| <= 1023 && p + |m| <= |buf| && buf[p..p + |m|] == m
    && (|m| < 1023 ==> p + |m| < |buf| && buf[p + |m|] == 0)
  }

  lemma FirstIsMessage(buf: Data, at: nat)
    requires ScanInside(buf, at, MAX_MESSAGE)
    ensures var s := FirstString(buf, at, MAX_MESSAGE);
            if s == [] then at < |buf| && buf[at] == 0 else MessageAt(buf, at, s)
  {
    var s := FirstString(buf, at, MAX_MESSAGE);
    assert buf[at..][..|s|] == buf[at..at + |s|];
    assert |s| < MAX_MESSAGE ==> StrLen(buf[at..]) == |s| && buf[at..][|s|] == buf[at + |s|];
  }

  /** From place `ps[i]` on there is message `i`, and the byte after it is skipped. */
  ghost predicate Placed(buf: Data, ps: seq<nat>, ms: seq<Data>) {
    && |ps| == |ms| + 1
    && forall i | 0 <= i < |ms| :: MessageAt(buf, ps[i], ms[i]) && ps[i + 1] == ps[i] + |ms[i]| + 1
  }

  lemma PlacedFirst(buf: Data, p: nat, m: Data, ps: seq<nat>, ms: seq<Data>)
    requires Placed(buf, ps, ms) && MessageAt(buf, p, m) && ps[0] == p + |m| + 1
    ensures Placed(buf, [p] + ps, [m] + ms)
  {
    hide MessageAt;
    forall i | 0 <= i < |ms| + 1
      ensures MessageAt(buf, ([p] + ps)[i], ([m] + ms)[i])
      ensures ([p] + ps)[i + 1] == ([p] + ps)[i] + |([m] + ms)[i]| + 1
    {
      if i > 0 {
        assert ([m] + ms)[i] == ms[i - 1] && ([p] + ps)[i + 1] == ps[i];
      }
    }
  }

  /** There is a next message. */
  predicate Goes(buf: Data, at: nat) {
    at <= |buf| && ScanInside(buf, at, MAX_MESSAGE) && FirstString(buf, at, MAX_MESSAGE) != []
  }

  lemma SplitGoes(buf: Data, at: nat)
    requires Goes(buf, at)
    ensures var m := FirstString(buf, at, MAX_MESSAGE);
            MessageAt(buf, at, m) && Split(buf, at) == Prepend([m], Split(buf, at + |m| + 1))
  {
    FirstIsMessage(buf, at);
  }

  lemma SplitStops(buf: Data, at: nat)
    requires !Goes(buf, at)
    ensures var r := Split(buf, at);
            && Placed(buf, [at], r.messages)
            && (r.Done? <==> at > |buf| || (at < |buf| && buf[at] == 0))
            && (r.Overrun? <==> at <= |buf| < at + 1023 && NulFree(buf[at..]))
  {
    if at <= |buf| {
      if ScanInside(buf, at, MAX_MESSAGE) {
        FirstIsMessage(buf, at);
        assert buf[at..][0] == buf[at];
      } else {
        assert buf[at..][..|buf| - at] == buf[at..];
      }
    }
  }

  /** What the loop sends from any buffer: one message after the other. It is done when it
      is past the buffer or on a NUL, and overruns when there is no NUL left and fewer
      than 1023 bytes. */
  lemma {:induction false} SplitMeaning(buf: Data, at: nat) returns (ps: seq<nat>)
    ensures var r := Split(buf, at);
            && Placed(buf, ps, r.messages) && ps[0] == at
            && var p := ps[|r.messages|];
            && (r.Done? <==> p > |buf| || (p < |buf| && buf[p] == 0))
            && (r.Overrun? <==> p <= |buf| < p + 1023 && NulFree(buf[p..]))
    decreases |buf| + 1 - at
  {
    hide MessageAt, FirstString, ScanInside, Placed;
    if Goes(buf, at) {
      var m := FirstString(buf, at, MAX_MESSAGE);
      SplitGoes(buf, at);
      hide Split;
      var rest := SplitMeaning(buf, at + |m| + 1);
      PlacedFirst(buf, at, m, rest, Split(buf, at + |m| + 1).messages);
      ps := [at] + rest;
    } else {
      SplitStops(buf, at);
      ps := [at];
    }
  }

  /** What the loop sends are strings that fit a message with their terminator. */
  lemma SplitShort(buf: Data, at: nat)
    ensures forall m | m in Split(buf, at).messages :: NulFree(m) && |m| <= MAX_MESSAGE
  {
    var ps := SplitMeaning(buf, at);
    hide Split;
  }
}
