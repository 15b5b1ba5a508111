/** Listing the boxes: the broker turns its list into records, the manager turns
    the records into lines sorted by name. */
module Listing {
  import opened Bytes
  import opened Scan
  import opened StableSort
  import opened Codec
  import opened BoxList

  /** A printed line, and what a node has to say about its box. */
  datatype Line = Line(name: Data, boxSize: nat, publishers: nat, subscribers: nat)

  const LINE_NAME: Line -> Data := (l: Line) => l.name

  function LineOf(b: BoxData): Line
    reads b
  {
    Line(b.name, b.boxSize, b.publishers, b.subscribers)
  }

  ghost function LinesOf(ns: seq<BoxData>): (r: seq<Line>)
    reads Nodes(ns)
    ensures |r| == |ns| && forall i | 0 <= i < |ns| :: r[i] == LineOf(ns[i])
  {
    seq(|ns|, i requires 0 <= i < |ns| reads Nodes(ns) => LineOf(ns[i]))
  }

  // ---------- the broker's side ----------

  /** A box of the broker: '/' and a name, short enough for its field; counters are 64-bit. */
  ghost predicate BoxOk(b: BoxData)
    reads b
  {
    && 1 <= |b.name| < BOX_NAME && b.name[0] == SLASH && NulFree(b.name)
    && FitsUint64(RecordOf(b, 0))
  }

  /** The record of a box: its name without the leading '/'. */
  function RecordOf(b: BoxData, last: Byte): Listing
    requires b.name != []
    reads b
  {
    Listing(8, last, b.name[1..], b.boxSize, b.publishers, b.subscribers)
  }

  /** The bytes of one record in the reused listing buffer. */
  method FillListing(buf: array<Byte>, l: Listing)
    requires buf.Length == LISTING_SIZE
    modifies buf
    ensures buf[..LISTING_USED] == EncodeListing(l)
  {
    buf[0] := l.code;
    var offset := 1;
    buf[offset] := l.last;
    offset := offset + 1;
    StoreString(buf, offset, l.boxName, BOX_NAME);
    offset := offset + BOX_NAME;
    CopyBytes(buf, offset, ToLE(l.boxSize, 8));
    offset := offset + 8;
    CopyBytes(buf, offset, ToLE(l.publishers, 8));
    offset := offset + 8;
    CopyBytes(buf, offset, ToLE(l.subscribers, 8));
  }

  /** The record of a box in a listing: marked last when `tail` is on its node. */
  function Shown(b: BoxData, tail: nat): Listing
    requires b.name != []
    reads b
  {
    RecordOf(b, if b.address == tail then 1 else 0)
  }

  lemma EncodedMark(d: Data, l: Listing)
    requires |d| == LISTING_SIZE && d[..LISTING_USED] == EncodeListing(l)
    ensures d[1] == l.last
  {
    assert d[1] == d[..LISTING_USED][1];
  }

  /** The listing loop: one record a box, from the head on; the record of the
      node that `tail` is on is marked last. */
  method SendListing(list: BoxList) returns (records: seq<Data>)
    requires list.Valid() && forall b | b in Nodes(list.nodes) :: BoxOk(b)
    ensures |records| == |list.nodes|
    ensures forall i | 0 <= i < |records| ::
              && |records[i]| == LISTING_SIZE && list.nodes[i].name != []
              && records[i][..LISTING_USED] == EncodeListing(Shown(list.nodes[i], list.tail))
              && records[i][1] == if list.nodes[i].address == list.tail then 1 else 0
  {
    hide EncodeListing, Allocated, CellsOf, FitsUint64;
    records := [];
    var buf := new Byte[LISTING_SIZE];
    var current := list.head;
    ghost var ns := list.nodes;
    while current != null
      invariant |records| <= |ns| && current == if |records| < |ns| then ns[|records|] else null
      invariant forall i | 0 <= i < |records| ::
                  && |records[i]| == LISTING_SIZE && ns[i].name != []
                  && records[i][..LISTING_USED] == EncodeListing(Shown(ns[i], list.tail))
      decreases |ns| - |records|
    {
      ghost var i := |records|;
      assert current in Nodes(ns);
      FillListing(buf, Shown(current, list.tail));
      records := records + [buf[..]];
      NextOf(list.head, ns, i);
      current := current.next;
    }
    forall i | 0 <= i < |records| ensures records[i][1] == if ns[i].address == list.tail then 1 else 0 {
      EncodedMark(records[i], Shown(ns[i], list.tail));
    }
  }

  // ---------- the manager's side ----------

  /** A record whose box name holds its terminator. */
  ghost predicate RecordOk(d: Data) {
    |d| == LISTING_SIZE && StrLen(d[2..2 + BOX_NAME]) < BOX_NAME
  }

  function LineIn(d: Data): Line
    requires |d| >= LISTING_USED
  {
    var l := DecodeListing(d);
    Line(l.boxName, l.boxSize, l.publishers, l.subscribers)
  }

  /** The lines of the code-8 records, in arrival order. */
  function Arrived(records: seq<Data>): seq<Line>
    requires forall i | 0 <= i < |records| :: |records[i]| == LISTING_SIZE
  {
    if records == [] then []
    else
      var n := |records| - 1;
      Arrived(records[..n]) + (if records[n][0] == 8 then [LineIn(records[n])] else [])
  }

  /** What arrived: a line for each record with code 8, in order, and for no other. */
  lemma {:induction false} ArrivedMeaning(records: seq<Data>) returns (at: seq<nat>)
    requires forall i | 0 <= i < |records| :: |records[i]| == LISTING_SIZE
    ensures |at| == |Arrived(records)|
    ensures forall i, j | 0 <= i < j < |at| :: at[i] < at[j]
    ensures forall i | 0 <= i < |at| ::
              at[i] < |records| && records[at[i]][0] == 8 && Arrived(records)[i] == LineIn(records[at[i]])
    ensures forall i | 0 <= i < |records| && records[i][0] == 8 :: i in at
  {
    hide LineIn;
    at := [];
    if records != [] {
      var n := |records| - 1;
      var front := ArrivedMeaning(records[..n]);
      at := front + if records[n][0] == 8 then [n] else [];
      assert Arrived(records) == Arrived(records[..n]) + if records[n][0] == 8 then [LineIn(records[n])] else [];
      hide Arrived;
      forall i | 0 <= i < |records| && records[i][0] == 8 ensures i in at {
        if i < n {
          assert records[..n][i] == records[i];
          assert i in front;
        } else {
          assert at[|front|] == n;
        }
      }
    }
  }

  /** The line of a node, as remembered in `m`. */
  function Recall(m: map<BoxData, Line>): BoxData -> Line {
    (b: BoxData) => if b in m && m[b].name == b.name then m[b] else Line(b.name, 0, 0, 0)
  }

  lemma Recalled(m: map<BoxData, Line>, ns: seq<BoxData>)
    requires forall b | b in Nodes(ns) :: b in m && m[b] == LineOf(b)
    ensures LinesOf(ns) == MapSeq(Recall(m), ns)
  {
    forall i | 0 <= i < |ns| ensures LineOf(ns[i]) == Recall(m)(ns[i]) {
      assert ns[i] in Nodes(ns);
    }
  }

  /** Nodes inserted at the head as their records arrive, then sorted anti-stably,
      carry the arrived lines in stable order. */
  lemma SortedLines(m: map<BoxData, Line>, ns: seq<BoxData>, out: seq<BoxData>, arrived: seq<Line>)
    requires AntiStable(ns, out, BY_NAME) && MapSeq(Recall(m), ns) == Reverse(arrived)
    ensures MapSeq(Recall(m), out) == Stable(arrived, LINE_NAME)
  {
    var f := Recall(m);
    AntiStableMapped(ns, out, f, BY_NAME, LINE_NAME);
    ReversalsCancel(arrived, MapSeq(f, out), LINE_NAME);
  }

  /** The fields of one record, read from the buffer. */
  method ReadRecord(d: Data) returns (l: Line)
    requires |d| == LISTING_SIZE && RecordOk(d)
    ensures l == LineIn(d) && |l.name| < BOX_NAME
  {
    var buf := new Byte[LISTING_SIZE];
    CopyBytes(buf, 0, d);
    assert buf[..] == d;
    var offset := 2;
    var name := new Byte[BOX_NAME];
    assert buf[2..2 + BOX_NAME] == d[2..2 + BOX_NAME];
    ghost var n0 := name[..];
    RemoveString(buf, offset, BOX_NAME, name);
    StringStored(n0, 0, CString(d[2..2 + BOX_NAME]));
    assert name[0..] == name[..];
    offset := offset + BOX_NAME;
    var boxSize := FromLE(buf[offset..offset + 8]);
    offset := offset + 8;
    var publishers := FromLE(buf[offset..offset + 8]);
    offset := offset + 8;
    var subscribers := FromLE(buf[offset..offset + 8]);
    assert buf[34..42] == d[34..42] && buf[42..50] == d[42..50] && buf[50..58] == d[50..58];
    l := Line(CString(name[..]), boxSize, publishers, subscribers);
  }

  /** What the manager does with a record of code 8: its line goes to the front. */
  method InsertRecord(list: BoxList, d: Data, address: nat)
    requires list.Valid() && |d| == LISTING_SIZE && RecordOk(d) && Unallocated(CellsOf(list.nodes), address)
    modifies list
    ensures list.Valid() && list.head != null && fresh(list.head)
    ensures Nodes(list.nodes) == old(Nodes(list.nodes)) + {list.head}
    ensures LinesOf(list.nodes) == [LineIn(d)] + old(LinesOf(list.nodes))
    ensures CellsOf(list.nodes) == [Cell(list.head.name, address)] + old(CellsOf(list.nodes))
  {
    hide LineIn, RecordOk, Unallocated, Allocated;
    var l := ReadRecord(d);
    list.InsertAtBeginning(address, l.name, l.boxSize, l.publishers, l.subscribers);
    ghost var ns := list.nodes;
    assert LineOf(ns[0]) == l;
    assert forall i | 1 <= i < |ns| :: ns[i] == old(list.nodes)[i - 1];
  }

  /** The manager's loop over the records, the sort, and the printing loop: the
      printed lines are the arrived records, sorted by name, same names in arrival order. */
  method PrintListing(records: seq<Data>) returns (lines: seq<Line>)
    requires forall i | 0 <= i < |records| :: |records[i]| == LISTING_SIZE
    requires forall i | 0 <= i < |records| && records[i][0] == 8 :: RecordOk(records[i])
    ensures lines == Stable(Arrived(records), LINE_NAME) && multiset(lines) == multiset(Arrived(records))
    ensures InByteOrder(lines, LINE_NAME)
  {
    hide Stable, Arrived, Linked, Reverse, InByteOrder, LinesOf, Allocated, CellsOf;
    var list := CollectRecords(records);
    StableMeaning(Arrived(records), LINE_NAME);
    list.head, lines := SortAndPrint(list.head, list.nodes, Arrived(records));
  }

  /** The sort, and the printing loop. */
  method SortAndPrint(first: BoxData?, ghost ns: seq<BoxData>, ghost arrived: seq<Line>)
    returns (head: BoxData?, lines: seq<Line>)
    requires Linked(first, ns) && LinesOf(ns) == Reverse(arrived)
    modifies Nodes(ns)`next
    ensures lines == Stable(arrived, LINE_NAME)
  {
    hide Stable, AntiStable, Linked, Reverse, InByteOrder;
    ghost var m := map b | b in Nodes(ns) :: LineOf(b);
    Recalled(m, ns);
    ghost var out;
    head, out := MergeSort(first, ns);
    SortedLines(m, ns, out, arrived);
    SameNodes(ns, out);
    Recalled(m, out);
    lines := PrintBoxes(head, out);
  }

  lemma NothingYet(ns: seq<BoxData>, records: seq<Data>)
    requires ns == []
    requires forall i | 0 <= i < |records| :: |records[i]| == LISTING_SIZE
    ensures Nodes(ns) == {} && LinesOf(ns) == Reverse(Arrived(records[..0]))
  {
  }

  /** One more record puts its line, if it has one, in front. */
  lemma ArrivedNext(records: seq<Data>, i: nat)
    requires i < |records| && forall i | 0 <= i < |records| :: |records[i]| == LISTING_SIZE
    ensures Reverse(Arrived(records[..i + 1])) ==
            (if records[i][0] == 8 then [LineIn(records[i])] else []) + Reverse(Arrived(records[..i]))
  {
    hide LineIn;
    assert records[..i + 1][..i] == records[..i];
    var one: seq<Line> := if records[i][0] == 8 then [LineIn(records[i])] else [];
    ReverseConcat(Arrived(records[..i]), one);
    assert Arrived(records[..i + 1]) == Arrived(records[..i]) + one;
    assert Reverse(one) == one by {
      assert one != [] ==> one[1..] == [];
    }
  }

  /** The manager's loop over the records. Any addresses will do for its nodes. */
  method CollectRecords(records: seq<Data>) returns (list: BoxList)
    requires forall i | 0 <= i < |records| :: |records[i]| == LISTING_SIZE
    requires forall i | 0 <= i < |records| && records[i][0] == 8 :: RecordOk(records[i])
    ensures fresh(list) && list.Valid() && fresh(Nodes(list.nodes))
    ensures LinesOf(list.nodes) == Reverse(Arrived(records))
  {
    hide Arrived, Reverse, LineIn, LinesOf, Nodes;
    list := new BoxList();
    NothingYet(list.nodes, records);
    for i := 0 to |records|
      invariant fresh(list) && list.Valid() && fresh(Nodes(list.nodes))
      invariant LinesOf(list.nodes) == Reverse(Arrived(records[..i]))
      invariant forall k | 0 <= k < |list.nodes| :: CellsOf(list.nodes)[k].address <= i
    {
      ArrivedNext(records, i);
      if records[i][0] == 8 {
        InsertRecord(list, records[i], i + 1);
      }
    }
    assert records[..|records|] == records;
  }

  method PrintBoxes(head: BoxData?, ghost ns: seq<BoxData>) returns (lines: seq<Line>)
    requires Linked(head, ns)
    ensures lines == LinesOf(ns)
  {
    lines := [];
    var current := head;
    while current != null
      invariant |lines| <= |ns| && current == if |lines| < |ns| then ns[|lines|] else null
      invariant lines == LinesOf(ns)[..|lines|]
      decreases |ns| - |lines|
    {
      ghost var i := |lines|;
      lines := lines + [LineOf(current)];
      assert i < |ns| - 1 ==> ns[i].next == ns[i + 1];
      current := current.next;
    }
  }

  // ---------- broker to manager ----------

  /** A record arrives as it was sent, whatever follows its used bytes. */
  lemma RecordArrives(d: Data, l: Listing)
    requires |d| == LISTING_SIZE && d[..LISTING_USED] == EncodeListing(l)
    requires NulFree(l.boxName) && FitsUint64(l) && |l.boxName| < BOX_NAME
    ensures RecordOk(d) && DecodeListing(d) == l
  {
    ListingRoundTrip(l, d[LISTING_USED..]);
    assert d == EncodeListing(l) + d[LISTING_USED..];
  }

  /** The line that a box should appear as: its name without the leading '/'. */
  function ListedAs(b: BoxData): Line
    requires b.name != []
    reads b
  {
    Line(b.name[1..], b.boxSize, b.publishers, b.subscribers)
  }

  /** The record of a box arrives as the line that the box should appear as. */
  lemma ListedArrives(b: BoxData, d: Data, last: Byte)
    requires BoxOk(b) && |d| == LISTING_SIZE && d[..LISTING_USED] == EncodeListing(RecordOf(b, last))
    ensures b.name != [] && RecordOk(d) && d[0] == 8 && LineIn(d) == ListedAs(b)
  {
    RecordArrives(d, RecordOf(b, last));
    assert d[0] == d[..LISTING_USED][0];
  }

  lemma {:induction false} AllArrive(records: seq<Data>, lines: seq<Line>)
    requires |records| == |lines| && forall i | 0 <= i < |records| :: |records[i]| == LISTING_SIZE
    requires forall i | 0 <= i < |records| :: records[i][0] == 8 && LineIn(records[i]) == lines[i]
    ensures Arrived(records) == lines
  {
    if records != [] {
      var n := |records| - 1;
      AllArrive(records[..n], lines[..n]);
      assert lines == lines[..n] + [lines[n]];
    }
  }

  /** A listing over the pipe: every box of the broker is printed once, sorted by
      name, boxes of one name in the order of the broker's list. */
  method ListBoxes(list: BoxList) returns (lines: seq<Line>, ghost boxes: seq<Line>)
    requires list.Valid() && forall b | b in Nodes(list.nodes) :: BoxOk(b)
    ensures |boxes| == |list.nodes|
    ensures forall i | 0 <= i < |boxes| ::
              var b := list.nodes[i];
              b.name != [] && boxes[i] == Line(b.name[1..], b.boxSize, b.publishers, b.subscribers)
    ensures lines == Stable(boxes, LINE_NAME) && multiset(lines) == multiset(boxes)
    ensures InByteOrder(lines, LINE_NAME)
  {
    var records := SendListing(list);
    ghost var ns := list.nodes;
    forall i | 0 <= i < |ns| ensures ns[i] in Nodes(ns) && BoxOk(ns[i]) {
    }
    hide RecordOk, BoxOk, LineIn, ListedAs, EncodeListing, RecordOf, Stable, Linked, StrLess, InByteOrder, Nodes;
    boxes := seq(|ns|, i requires 0 <= i < |ns| => LineIn(records[i]));
    forall i | 0 <= i < |ns|
      ensures RecordOk(records[i]) && records[i][0] == 8 && boxes[i] == ListedAs(ns[i])
    {
      ListedArrives(ns[i], records[i], if ns[i].address == list.tail then 1 else 0);
    }
    AllArrive(records, boxes);
    lines := PrintListing(records);
  }
}
