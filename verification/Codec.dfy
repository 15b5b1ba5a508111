/** The fixed-field messages on the pipes: strings stored in fields of fixed
    size, integers copied byte by byte, read back by the other side. */
module Codec {
  import opened Bytes

  /** Sizes of the string fields (protocol/protocol.h). */
  const PIPE_PATH: nat := 256
  const BOX_NAME: nat := 32
  const ERROR_MESSAGE: nat := 1024

  /** sizeof the message structs, padding included. */
  const REQUEST_SIZE: nat := 289
  const RESPONSE_SIZE: nat := 1032
  const LISTING_SIZE: nat := 64

  // ---------- one field ----------

  /** The bytes of a string field: the string cut to `space`, or filled up with NULs. */
  function Field(str: Data, space: nat): (r: Data)
    ensures |r| == space
  {
    if |str| < space then str + Zeros(space - |str|) else str[..space]
  }

  /** `store_string_in_buffer` */
  method StoreString(buf: array<Byte>, at: nat, str: Data, space: nat)
    requires at + space <= buf.Length
    modifies buf
    ensures buf[..] == Overlay(old(buf[..]), at, Field(str, space))
  {
    var len := if |str| > space then space else |str|;
    forall i | 0 <= i < len {
      buf[at + i] := str[i];
    }
    if |str| < space {
      forall i | |str| <= i < space {
        buf[at + i] := 0;
      }
    }
  }

  /** A string with its terminator, copied into memory, is the string found there. */
  lemma StringStored(d: Data, at: nat, str: Data)
    requires NulFree(str) && at + |str| < |d|
    ensures var e := Overlay(d, at, str + [0]);
            CString(e[at..]) == str && forall i | at + |str| < i < |d| :: e[i] == d[i]
  {
    var e := Overlay(d, at, str + [0]);
    assert e[at..][..|str|] == str;
    StrLenUnique(e[at..], |str|);
  }

  /** `remove_strings_from_buffer`: the destination, from `to` on, needs room for the
      terminator as well. */
  method RemoveString(buf: array<Byte>, at: nat, space: nat, dst: array<Byte>, to: nat := 0)
    requires buf != dst && at + space <= buf.Length
    requires to + StrLen(buf[at..at + space]) < dst.Length
    modifies dst
    ensures dst[..] == Overlay(old(dst[..]), to, CString(buf[at..at + space]) + [0])
  {
    ghost var field := buf[at..at + space];
    ghost var n := StrLen(field);
    var i := 0;
    while i < space
      invariant 0 <= i <= n
      invariant forall k | 0 <= k < i :: dst[to + k] == field[k]
      invariant forall k | 0 <= k < dst.Length && !(to <= k < to + i) :: dst[k] == old(dst[k])
    {
      assert buf[at + i] == field[i];
      assert i < n ==> field[..n][i] != 0;
      if buf[at + i] == 0 {
        break;
      }
      dst[to + i] := buf[at + i];
      i := i + 1;
    }
    assert i == n;
    dst[to + i] := 0;
    assert buf[at..at + space] == field;
  }

  /** What a field gives back: the string, cut to the field. The terminator fits
      inside the field exactly when the string is strictly shorter. */
  lemma FieldMeaning(str: Data, space: nat)
    requires NulFree(str)
    ensures CString(Field(str, space)) == CutAt(str, space)
    ensures StrLen(Field(str, space)) < space <==> |str| < space
  {
    var n := |CutAt(str, space)|;
    assert Field(str, space)[..n] == str[..n];
    StrLenUnique(Field(str, space), n);
  }

  /** The bytes of `str` from place `at` on, cut after `space`, with NULs up to there. */
  ghost predicate Holds(d: Data, at: nat, str: Data, space: nat)
    requires at + space <= |d|
  {
    forall k | 0 <= k < space :: d[at + k] == if k < |str| then str[k] else 0
  }

  // ---------- requests ----------

  datatype Request = Request(code: Byte, pipePath: Data, boxName: Data)

  function EncodeRequest(r: Request): (d: Data)
    ensures |d| == REQUEST_SIZE
  {
    [r.code] + Field(r.pipePath, PIPE_PATH) + Field(r.boxName, BOX_NAME)
  }

  function DecodeRequest(d: Data): Request
    requires |d| == REQUEST_SIZE
  {
    Request(d[0], CString(d[1..1 + PIPE_PATH]), CString(d[1 + PIPE_PATH..REQUEST_SIZE]))
  }

  /** The buffer that `send_request` writes to the pipe. */
  method SendRequest(r: Request) returns (buf: array<Byte>)
    ensures fresh(buf) && buf[..] == EncodeRequest(r)
  {
    buf := new Byte[REQUEST_SIZE];
    buf[0] := r.code;
    var offset := 1;
    StoreString(buf, offset, r.pipePath, PIPE_PATH);
    offset := offset + PIPE_PATH;
    StoreString(buf, offset, r.boxName, BOX_NAME);
  }

  /** Where everything is in a request. */
  lemma RequestLayout(r: Request)
    ensures var d := EncodeRequest(r);
            |d| == 289 && d[0] == r.code && Holds(d, 1, r.pipePath, 256) && Holds(d, 257, r.boxName, 32)
  {
  }

  /** What the broker makes of a request: a path that fills its field has no
      terminator there, and runs on into the box name behind it. */
  function BrokerReads(d: Data): Request
    requires |d| == REQUEST_SIZE
  {
    var r := DecodeRequest(d);
    if |r.pipePath| < PIPE_PATH then r else r.(pipePath := r.pipePath + r.boxName)
  }

  /** The broker's reading of a request, field by field into a struct; the box name
      must hold its terminator. */
  method ReceiveRequest(buf: array<Byte>) returns (r: Request)
    requires buf.Length == REQUEST_SIZE
    requires StrLen(buf[1 + PIPE_PATH..REQUEST_SIZE]) < BOX_NAME
    ensures r == BrokerReads(buf[..])
  {
    var request := new Byte[REQUEST_SIZE];
    request[0] := buf[0];
    var offset := 1;
    ghost var s0 := request[..];
    RemoveString(buf, offset, PIPE_PATH, request, offset);
    offset := offset + PIPE_PATH;
    RemoveString(buf, offset, BOX_NAME, request, offset);
    r := Request(request[0], CString(request[1..]), CString(request[offset..]));
    ghost var d := buf[..];
    assert d[1..1 + PIPE_PATH] == buf[1..1 + PIPE_PATH];
    assert d[1 + PIPE_PATH..REQUEST_SIZE] == buf[offset..offset + BOX_NAME];
    StructStrings(s0, CString(d[1..1 + PIPE_PATH]), CString(d[1 + PIPE_PATH..REQUEST_SIZE]));
  }

  /** The two strings of the struct after both were stored, the path first. */
  lemma StructStrings(s: Data, path: Data, name: Data)
    requires |s| == REQUEST_SIZE && NulFree(path) && NulFree(name) && |path| <= PIPE_PATH && |name| < BOX_NAME
    ensures var t := Overlay(Overlay(s, 1, path + [0]), 1 + PIPE_PATH, name + [0]);
            && t[0] == s[0] && CString(t[1 + PIPE_PATH..]) == name
            && CString(t[1..]) == if |path| < PIPE_PATH then path else path + name
  {
    var u := Overlay(s, 1, path + [0]);
    var t := Overlay(u, 1 + PIPE_PATH, name + [0]);
    StringStored(u, 1 + PIPE_PATH, name);
    if |path| < PIPE_PATH {
      assert t[1..][..|path|] == path;
      StrLenUnique(t[1..], |path|);
    } else {
      assert t[1..][..|path + name|] == path + name;
      StrLenUnique(t[1..], |path + name|);
    }
  }

  /** A request comes back with each string cut to its field, so unchanged exactly
      when no string is longer than its field; the fields hold their terminators
      exactly when each string is strictly shorter. The broker sees the request as it was
      sent exactly when the box name fits and the path is shorter than its field, or
      goes on beyond it with the box name. */
  lemma RequestRoundTrip(r: Request)
    requires NulFree(r.pipePath) && NulFree(r.boxName)
    ensures var d := EncodeRequest(r);
            && DecodeRequest(d) == Request(r.code, CutAt(r.pipePath, PIPE_PATH), CutAt(r.boxName, BOX_NAME))
            && (DecodeRequest(d) == r <==> |r.pipePath| <= PIPE_PATH && |r.boxName| <= BOX_NAME)
            && (StrLen(d[1..1 + PIPE_PATH]) < PIPE_PATH <==> |r.pipePath| < PIPE_PATH)
            && (StrLen(d[1 + PIPE_PATH..REQUEST_SIZE]) < BOX_NAME <==> |r.boxName| < BOX_NAME)
            && (BrokerReads(d) == r <==>
                |r.boxName| <= BOX_NAME && (|r.pipePath| < PIPE_PATH || r.pipePath[PIPE_PATH..] == r.boxName))
  {
    var d := EncodeRequest(r);
    FieldMeaning(r.pipePath, PIPE_PATH);
    FieldMeaning(r.boxName, BOX_NAME);
    assert d[1..1 + PIPE_PATH] == Field(r.pipePath, PIPE_PATH);
    assert d[1 + PIPE_PATH..REQUEST_SIZE] == Field(r.boxName, BOX_NAME);
    if |r.pipePath| >= PIPE_PATH {
      assert r.pipePath == r.pipePath[..PIPE_PATH] + r.pipePath[PIPE_PATH..];
    }
  }

  /** The name that the broker gives to a box, '/' and the requested name, fits
      a list node with its terminator exactly when at most 30 characters are requested. */
  lemma NodeNameFits(r: Request)
    requires NulFree(r.pipePath) && NulFree(r.boxName)
    ensures |[SLASH] + DecodeRequest(EncodeRequest(r)).boxName| < BOX_NAME <==> |r.boxName| <= 30
  {
    RequestRoundTrip(r);
  }

  // ---------- responses ----------

  datatype Response = Response(code: Byte, returnCode: int, errorMessage: Data)

  const RESPONSE_USED: nat := 5 + ERROR_MESSAGE

  function EncodeResponse(r: Response): (d: Data)
    requires -INT_LIMIT <= r.returnCode < INT_LIMIT
    ensures |d| == RESPONSE_USED
  {
    [r.code] + ToInt32(r.returnCode) + Field(r.errorMessage, ERROR_MESSAGE)
  }

  function DecodeResponse(d: Data): Response
    requires |d| >= RESPONSE_USED
  {
    Response(d[0], FromInt32(d[1..5]), CString(d[5..RESPONSE_USED]))
  }

  /** The buffer that `send_box_response` writes: the fields without gaps, then
      three bytes that were never set. */
  method SendBoxResponse(r: Response) returns (buf: array<Byte>)
    requires -INT_LIMIT <= r.returnCode < INT_LIMIT
    ensures fresh(buf) && buf.Length == RESPONSE_SIZE && buf[..RESPONSE_USED] == EncodeResponse(r)
  {
    buf := new Byte[RESPONSE_SIZE];
    buf[0] := r.code;
    var offset := 1;
    CopyBytes(buf, offset, ToInt32(r.returnCode));
    offset := offset + 4;
    StoreString(buf, offset, r.errorMessage, ERROR_MESSAGE);
  }

  /** Where everything is in a response. */
  lemma ResponseLayout(r: Response)
    requires -INT_LIMIT <= r.returnCode < INT_LIMIT
    ensures var d := EncodeResponse(r);
            |d| == 1029 && d[0] == r.code && FromInt32(d[1..5]) == r.returnCode && Holds(d, 5, r.errorMessage, 1024)
  {
    Int32RoundTrip(r.returnCode);
    assert EncodeResponse(r)[1..5] == ToInt32(r.returnCode);
  }

  /** What the manager tells its user. */
  datatype Report = Silent | Success | Failure(message: Data) | UnknownReturn

  /** The manager's reading of a response: the message is looked at only after a failure,
      and then has to hold its terminator. */
  method ReceiveResponse(buf: array<Byte>) returns (report: Report)
    requires buf.Length == RESPONSE_SIZE
    requires (buf[0] == 4 || buf[0] == 6) && FromInt32(buf[1..5]) == -1 ==>
               StrLen(buf[5..RESPONSE_USED]) < ERROR_MESSAGE
    ensures buf[0] != 4 && buf[0] != 6 ==> report == Silent
    ensures buf[0] == 4 || buf[0] == 6 ==>
              var returnCode := FromInt32(buf[1..5]);
              && (returnCode == 0 ==> report == Success)
              && (returnCode == -1 ==> report == Failure(CString(buf[5..1029])))
              && (returnCode != 0 && returnCode != -1 ==> report == UnknownReturn)
  {
    var code := buf[0];
    var offset := 1;
    if code == 4 || code == 6 {
      var returnCode := FromInt32(buf[offset..offset + 4]);
      if returnCode == 0 {
        return Success;
      } else if returnCode == -1 {
        offset := offset + 4;
        var message := new Byte[ERROR_MESSAGE];
        ghost var m0 := message[..];
        RemoveString(buf, offset, ERROR_MESSAGE, message);
        StringStored(m0, 0, CString(buf[offset..offset + ERROR_MESSAGE]));
        assert message[0..] == message[..];
        return Failure(CString(message[..]));
      } else {
        return UnknownReturn;
      }
    }
    return Silent;
  }

  /** Whatever the unset bytes are, a response comes back with its message cut to
      the field, so unchanged exactly when the message is not longer than the field. */
  lemma ResponseRoundTrip(r: Response, unset: Data)
    requires -INT_LIMIT <= r.returnCode < INT_LIMIT && NulFree(r.errorMessage)
    ensures var d := EncodeResponse(r) + unset;
            && DecodeResponse(d) == r.(errorMessage := CutAt(r.errorMessage, ERROR_MESSAGE))
            && (DecodeResponse(d) == r <==> |r.errorMessage| <= ERROR_MESSAGE)
            && (StrLen(d[5..RESPONSE_USED]) < ERROR_MESSAGE <==> |r.errorMessage| < ERROR_MESSAGE)
  {
    var d := EncodeResponse(r) + unset;
    FieldMeaning(r.errorMessage, ERROR_MESSAGE);
    Int32RoundTrip(r.returnCode);
    assert d[1..5] == ToInt32(r.returnCode);
    assert d[5..RESPONSE_USED] == Field(r.errorMessage, ERROR_MESSAGE);
  }

  /** A response from the broker to the manager's user: of a creation or a removal, 0 is told
      as success and -1 as failure with the message; any other code is not told. */
  method Respond(r: Response) returns (report: Report)
    requires -INT_LIMIT <= r.returnCode < INT_LIMIT && NulFree(r.errorMessage)
    requires (r.code == 4 || r.code == 6) && r.returnCode == -1 ==> |r.errorMessage| < ERROR_MESSAGE
    ensures r.code != 4 && r.code != 6 ==> report == Silent
    ensures r.code == 4 || r.code == 6 ==>
              && (r.returnCode == 0 ==> report == Success)
              && (r.returnCode == -1 ==> report == Failure(r.errorMessage))
              && (r.returnCode != 0 && r.returnCode != -1 ==> report == UnknownReturn)
  {
    var buf := SendBoxResponse(r);
    ghost var d := buf[..];
    assert d == EncodeResponse(r) + d[RESPONSE_USED..];
    ResponseRoundTrip(r, d[RESPONSE_USED..]);
    hide EncodeResponse;
    assert buf[1..5] == d[1..5] && buf[5..RESPONSE_USED] == d[5..RESPONSE_USED];
    report := ReceiveResponse(buf);
  }

  // ---------- messages ----------

  datatype Message = Message(code: Byte, text: Data)

  const MESSAGE_TEXT: nat := 1024
  const MESSAGE_SIZE: nat := 1 + MESSAGE_TEXT

  function EncodeMessage(m: Message): (d: Data)
    ensures |d| == MESSAGE_SIZE
  {
    [m.code] + Field(m.text, MESSAGE_TEXT)
  }

  function DecodeMessage(d: Data): Message
    requires |d| == MESSAGE_SIZE
  {
    Message(d[0], CString(d[1..MESSAGE_SIZE]))
  }

  /** Where everything is in a message. */
  lemma MessageLayout(m: Message)
    ensures var d := EncodeMessage(m); |d| == 1025 && d[0] == m.code && Holds(d, 1, m.text, 1024)
  {
  }

  /** The next message in a buffer whose code was set before, by the publisher or the broker. */
  method FillMessage(buf: array<Byte>, text: Data)
    requires buf.Length == MESSAGE_SIZE
    modifies buf
    ensures buf[..] == EncodeMessage(Message(old(buf[0]), text))
  {
    StoreString(buf, 1, text, MESSAGE_TEXT);
  }

  /** The reading of a message, by the broker or the subscriber; the text must hold its terminator. */
  method ReceiveMessage(buf: array<Byte>) returns (m: Message)
    requires buf.Length == MESSAGE_SIZE && StrLen(buf[1..MESSAGE_SIZE]) < MESSAGE_TEXT
    ensures m == DecodeMessage(buf[..])
  {
    var code := buf[0];
    var offset := 1;
    var text := new Byte[MESSAGE_TEXT];
    ghost var t0 := text[..];
    assert buf[..][1..MESSAGE_SIZE] == buf[offset..offset + MESSAGE_TEXT];
    RemoveString(buf, offset, MESSAGE_TEXT, text);
    StringStored(t0, 0, CString(buf[offset..offset + MESSAGE_TEXT]));
    assert text[0..] == text[..];
    m := Message(code, CString(text[..]));
  }

  /** A message comes back with its text cut to the field; the field holds its
      terminator exactly when the text is strictly shorter. */
  lemma MessageRoundTrip(m: Message)
    requires NulFree(m.text)
    ensures var d := EncodeMessage(m);
            && DecodeMessage(d) == m.(text := CutAt(m.text, MESSAGE_TEXT))
            && (DecodeMessage(d) == m <==> |m.text| <= MESSAGE_TEXT)
            && (StrLen(d[1..MESSAGE_SIZE]) < MESSAGE_TEXT <==> |m.text| < MESSAGE_TEXT)
  {
    var d := EncodeMessage(m);
    FieldMeaning(m.text, MESSAGE_TEXT);
    assert d[1..MESSAGE_SIZE] == Field(m.text, MESSAGE_TEXT);
  }

  // ---------- listing records ----------

  datatype Listing = Listing(code: Byte, last: Byte, boxName: Data, boxSize: nat, publishers: nat, subscribers: nat)

  const LISTING_USED: nat := 2 + BOX_NAME + 24

  function EncodeListing(l: Listing): (d: Data)
    ensures |d| == LISTING_USED
  {
    [l.code, l.last] + Field(l.boxName, BOX_NAME) + ToLE(l.boxSize, 8) + ToLE(l.publishers, 8) + ToLE(l.subscribers, 8)
  }

  function DecodeListing(d: Data): Listing
    requires |d| >= LISTING_USED
  {
    Listing(d[0], d[1], CString(d[2..34]), FromLE(d[34..42]), FromLE(d[42..50]), FromLE(d[50..58]))
  }

  predicate FitsUint64(l: Listing) {
    l.boxSize < Pow256(8) && l.publishers < Pow256(8) && l.subscribers < Pow256(8)
  }

  /** Where everything is in a listing record. */
  lemma ListingLayout(l: Listing)
    requires FitsUint64(l)
    ensures var d := EncodeListing(l);
            && |d| == 58 && d[0] == l.code && d[1] == l.last && Holds(d, 2, l.boxName, 32)
            && FromLE(d[34..42]) == l.boxSize && FromLE(d[42..50]) == l.publishers && FromLE(d[50..58]) == l.subscribers
  {
    var d := EncodeListing(l);
    assert d[34..42] == ToLE(l.boxSize, 8) && d[42..50] == ToLE(l.publishers, 8) && d[50..58] == ToLE(l.subscribers, 8);
    LERoundTrip(l.boxSize, 8);
    LERoundTrip(l.publishers, 8);
    LERoundTrip(l.subscribers, 8);
  }

  /** The same for a listing record. */
  lemma ListingRoundTrip(l: Listing, unset: Data)
    requires NulFree(l.boxName) && FitsUint64(l)
    ensures var d := EncodeListing(l) + unset;
            && DecodeListing(d) == l.(boxName := CutAt(l.boxName, BOX_NAME))
            && (DecodeListing(d) == l <==> |l.boxName| <= BOX_NAME)
            && (StrLen(d[2..34]) < BOX_NAME <==> |l.boxName| < BOX_NAME)
  {
    var d := EncodeListing(l) + unset;
    FieldMeaning(l.boxName, BOX_NAME);
    LERoundTrip(l.boxSize, 8);
    LERoundTrip(l.publishers, 8);
    LERoundTrip(l.subscribers, 8);
    assert d[2..34] == Field(l.boxName, BOX_NAME);
    assert d[34..42] == ToLE(l.boxSize, 8);
    assert d[42..50] == ToLE(l.publishers, 8);
    assert d[50..58] == ToLE(l.subscribers, 8);
  }
}
