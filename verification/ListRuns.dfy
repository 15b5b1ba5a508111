/** The broker's box list over whole runs: creations insert, removals delete, and a
    listing shows what is there. */
module ListRuns {
  import opened Bytes
  import opened Scan
  import opened Codec
  import opened BoxList
  import opened Listing

  datatype ListOp =
    | Insert(name: Data, boxSize: nat, publishers: nat, subscribers: nat)
    | Delete(name: Data)

  // ---------- runs on names ----------

  function Is(name: Data): Data -> bool {
    (n: Data) => n == name
  }

  /** The names in the list after one operation. */
  function NamesAfter(names: seq<Data>, op: ListOp): seq<Data> {
    match op
    case Insert(name, _, _, _) => [name] + names
    case Delete(name) =>
      var k := FirstIndex(names, Is(name));
      if k == -1 then names else names[..k] + names[k + 1..]
  }

  function NamesAfterAll(names: seq<Data>, ops: seq<ListOp>): seq<Data>
    decreases |ops|
  {
    if ops == [] then names else NamesAfterAll(NamesAfter(names, ops[0]), ops[1..])
  }

  // ---------- runs on insertions ----------

  function Inserts(name: Data): ListOp -> bool {
    (op: ListOp) => op.Insert? && op.name == name
  }

  /** The insertions whose boxes are in the list after one operation, newest first. */
  function LeftAfter(left: seq<ListOp>, op: ListOp): seq<ListOp> {
    if op.Insert? then [op] + left
    else
      var k := FirstIndex(left, Inserts(op.name));
      if k == -1 then left else left[..k] + left[k + 1..]
  }

  function LeftAfterAll(left: seq<ListOp>, ops: seq<ListOp>): seq<ListOp>
    decreases |ops|
  {
    if ops == [] then left else LeftAfterAll(LeftAfter(left, ops[0]), ops[1..])
  }

  /** Insertions of different names. */
  ghost predicate Different(left: seq<ListOp>) {
    && (forall i | 0 <= i < |left| :: left[i].Insert?)
    && forall i, j | 0 <= i < j < |left| :: left[i].name != left[j].name
  }

  /** No box is created while there is one of its name. */
  predicate CreatesNew(left: seq<ListOp>, ops: seq<ListOp>)
    decreases |ops|
  {
    ops == [] ||
    ((ops[0].Insert? ==> FirstIndex(left, Inserts(ops[0].name)) == -1) && CreatesNew(LeftAfter(left, ops[0]), ops[1..]))
  }

  /** `op` is the insertion at place `k`, and its box is not removed afterwards. */
  ghost predicate NotRemovedSince(ops: seq<ListOp>, k: int, op: ListOp) {
    0 <= k < |ops| && ops[k] == op && op.Insert? && Delete(op.name) !in ops[k + 1..]
  }

  ghost predicate StillThere(ops: seq<ListOp>, op: ListOp) {
    exists k :: NotRemovedSince(ops, k, op)
  }

  lemma WithoutOne(left: seq<ListOp>, k: nat, x: ListOp)
    requires Different(left) && k < |left|
    ensures Different(left[..k] + left[k + 1..])
    ensures x in left[..k] + left[k + 1..] <==> x in left && x != left[k]
  {
    assert left == left[..k] + [left[k]] + left[k + 1..];
  }

  lemma OnlyOne(left: seq<ListOp>, k: nat, x: ListOp)
    requires Different(left) && k < |left| && x in left
    ensures x.Insert? && (x == left[k] <==> x.name == left[k].name)
  {
  }

  lemma LeftStep(left: seq<ListOp>, op: ListOp, x: ListOp)
    requires Different(left) && (op.Insert? ==> FirstIndex(left, Inserts(op.name)) == -1)
    ensures Different(LeftAfter(left, op))
    ensures x in LeftAfter(left, op) <==> x.Insert? && (x == op || (x in left && op != Delete(x.name)))
  {
    var k := FirstIndex(left, Inserts(op.name));
    if k == -1 {
      assert forall i | 0 <= i < |left| :: !Inserts(op.name)(left[i]);
      hide FirstIndex;
    } else {
      assert Inserts(op.name)(left[k]);
      hide FirstIndex, Different;
      WithoutOne(left, k, x);
      if x in left {
        OnlyOne(left, k, x);
      }
    }
  }

  lemma SinceLater(ops: seq<ListOp>, x: ListOp)
    requires ops != []
    ensures StillThere(ops, x) <==>
            (x == ops[0] && x.Insert? && Delete(x.name) !in ops[1..]) || StillThere(ops[1..], x)
    ensures Delete(x.name) in ops <==> Delete(x.name) == ops[0] || Delete(x.name) in ops[1..]
  {
    var rest := ops[1..];
    assert ops == [ops[0]] + rest;
    if k :| NotRemovedSince(rest, k, x) {
      assert ops[k + 1 + 1..] == rest[k + 1..];
      assert NotRemovedSince(ops, k + 1, x);
    }
    if k :| NotRemovedSince(ops, k, x) {
      assert k > 0 ==> ops[k + 1..] == rest[k..] && NotRemovedSince(rest, k - 1, x);
    }
    assert NotRemovedSince(ops, 0, x) <==> x == ops[0] && x.Insert? && Delete(x.name) !in rest;
  }

  /** When no box is created while there is one of its name: the insertions left in the
      end are those whose boxes were not removed since. */
  lemma {:induction false} ListedUntilRemoved(left: seq<ListOp>, ops: seq<ListOp>, x: ListOp)
    requires Different(left) && CreatesNew(left, ops)
    ensures Different(LeftAfterAll(left, ops))
    ensures x in LeftAfterAll(left, ops) <==>
            StillThere(ops, x) || (x in left && Delete(x.name) !in ops)
    decreases |ops|
  {
    if ops != [] {
      hide FirstIndex, LeftAfter, Different, StillThere;
      var next, rest := LeftAfter(left, ops[0]), ops[1..];
      LeftStep(left, ops[0], x);
      ListedUntilRemoved(next, rest, x);
      SinceLater(ops, x);
      assert x in left ==> x.Insert? by { OnlyInserts(left); }
    } else {
      assert !exists k :: NotRemovedSince(ops, k, x);
    }
  }

  lemma OnlyInserts(left: seq<ListOp>)
    requires Different(left)
    ensures forall x | x in left :: x.Insert?
  {
  }

  /** A box that is created twice, which the broker allows, and removed once is still listed. */
  lemma TwiceCreatedStays(name: Data)
    ensures var once := Insert(name, 0, 0, 0);
            LeftAfterAll([], [once, once, Delete(name)]) == [once] && !CreatesNew([], [once, once, Delete(name)])
  {
    var once := Insert(name, 0, 0, 0);
    assert Inserts(name)([once][0]) && Inserts(name)([once, once][0]);
    assert LeftAfter([], once) == [once] && LeftAfter([once], once) == [once, once];
    assert LeftAfter([once, once], Delete(name)) == [once];
    assert [once, once, Delete(name)][1..] == [once, Delete(name)] && [once, Delete(name)][1..] == [Delete(name)];
    assert [Delete(name)][1..] == [];
    assert LeftAfterAll([once, once], [Delete(name)]) == LeftAfterAll([once], []);
    assert LeftAfterAll([once], [once, Delete(name)]) == LeftAfterAll([once, once], [Delete(name)]);
  }

  /** The nodes hold what their insertions passed. */
  ghost predicate Hold(ns: seq<BoxData>, left: seq<ListOp>)
    reads Nodes(ns)
  {
    && |ns| == |left|
    && forall i | 0 <= i < |ns| ::
         left[i] == Insert(ns[i].name, ns[i].boxSize, ns[i].publishers, ns[i].subscribers)
  }

  lemma FirstHeld(ns: seq<BoxData>, left: seq<ListOp>, name: Data)
    requires Hold(ns, left)
    ensures FirstIndex(ns, HasName(name)) == FirstIndex(left, Inserts(name))
  {
    var k, m := FirstIndex(ns, HasName(name)), FirstIndex(left, Inserts(name));
    assert forall i | 0 <= i < |ns| :: HasName(name)(ns[i]) <==> Inserts(name)(left[i]);
    hide FirstIndex;
    assert k >= 0 ==> HasName(name)(ns[k]);
    assert m >= 0 ==> Inserts(name)(left[m]);
  }

  lemma HoldMore(node: BoxData, ns: seq<BoxData>, left: seq<ListOp>)
    requires Hold(ns, left)
    ensures Hold([node] + ns, LeftAfter(left, Insert(node.name, node.boxSize, node.publishers, node.subscribers)))
    ensures Nodes([node] + ns) == {node} + Nodes(ns)
  {
  }

  lemma HoldWithout(ns: seq<BoxData>, left: seq<ListOp>, k: nat)
    requires Hold(ns, left) && k < |ns|
    ensures Hold(ns[..k] + ns[k + 1..], left[..k] + left[k + 1..])
    ensures Nodes(ns[..k] + ns[k + 1..]) <= Nodes(ns)
  {
  }

  lemma HoldRest(ns: seq<BoxData>, left: seq<ListOp>, name: Data) returns (rest: seq<BoxData>)
    requires Hold(ns, left)
    ensures var k := FirstIndex(ns, HasName(name)); rest == if k == -1 then ns else ns[..k] + ns[k + 1..]
    ensures Hold(rest, LeftAfter(left, Delete(name))) && Nodes(rest) <= Nodes(ns)
  {
    FirstHeld(ns, left, name);
    var k := FirstIndex(ns, HasName(name));
    hide FirstIndex, HasName, Inserts, Hold, Nodes;
    if k == -1 {
      rest := ns;
    } else {
      rest := ns[..k] + ns[k + 1..];
      HoldWithout(ns, left, k);
    }
  }

  /** Does some operation remove the only box there is? */
  predicate RemovesOnlyBox(names: seq<Data>, ops: seq<ListOp>)
    decreases |ops|
  {
    ops != [] &&
    ((ops[0].Delete? && names == [ops[0].name]) || RemovesOnlyBox(NamesAfter(names, ops[0]), ops[1..]))
  }

  // ---------- runs on names and addresses ----------

  const EMPTY_LIST: Cells := Cells([], NULL)

  /** One operation; `address` is what `malloc` returns if it inserts. */
  function After(c: Cells, op: ListOp, address: nat): Cells {
    match op
    case Insert(name, _, _, _) => Inserted(c, Cell(name, address))
    case Delete(name) => Deleted(c, name)
  }

  function AfterAll(c: Cells, ops: seq<ListOp>, addresses: seq<nat>): Cells
    requires |addresses| == |ops|
    decreases |ops|
  {
    if ops == [] then c else AfterAll(After(c, ops[0], addresses[0]), ops[1..], addresses[1..])
  }

  /** Every insertion gets an address that no node has at the time. */
  predicate MallocOk(c: Cells, ops: seq<ListOp>, addresses: seq<nat>)
    decreases |ops|
  {
    |addresses| == |ops| &&
    (ops == [] ||
     ((ops[0].Insert? ==> Unallocated(c.boxes, addresses[0])) &&
      MallocOk(After(c, ops[0], addresses[0]), ops[1..], addresses[1..])))
  }

  function NamesOf(boxes: seq<Cell>): (r: seq<Data>)
    ensures |r| == |boxes| && forall i | 0 <= i < |boxes| :: r[i] == boxes[i].name
  {
    seq(|boxes|, i requires 0 <= i < |boxes| => boxes[i].name)
  }

  lemma FirstNamed(boxes: seq<Cell>, name: Data)
    ensures FirstIndex(boxes, CellNamed(name)) == FirstIndex(NamesOf(boxes), Is(name))
  {
    var k, m := FirstIndex(boxes, CellNamed(name)), FirstIndex(NamesOf(boxes), Is(name));
    assert forall i | 0 <= i < |boxes| :: CellNamed(name)(boxes[i]) <==> Is(name)(NamesOf(boxes)[i]);
    hide FirstIndex;
    assert k >= 0 ==> CellNamed(name)(boxes[k]);
    assert m >= 0 ==> Is(name)(NamesOf(boxes)[m]);
  }

  lemma NamesOfRest(boxes: seq<Cell>, k: nat)
    requires k < |boxes|
    ensures NamesOf(boxes[..k] + boxes[k + 1..]) == NamesOf(boxes)[..k] + NamesOf(boxes)[k + 1..]
  {
  }

  /** The names change by name, whatever the addresses. */
  lemma NamesStep(c: Cells, op: ListOp, address: nat)
    ensures NamesOf(After(c, op, address).boxes) == NamesAfter(NamesOf(c.boxes), op)
  {
    hide FirstIndex;
    match op
    case Insert(name, _, _, _) =>
      assert NamesOf([Cell(name, address)] + c.boxes) == [name] + NamesOf(c.boxes);
    case Delete(name) =>
      FirstNamed(c.boxes, name);
      var k := FirstIndex(c.boxes, CellNamed(name));
      if k != -1 {
        NamesOfRest(c.boxes, k);
      }
  }

  lemma {:induction false} NamesRun(c: Cells, ops: seq<ListOp>, addresses: seq<nat>)
    requires |addresses| == |ops|
    ensures NamesOf(AfterAll(c, ops, addresses).boxes) == NamesAfterAll(NamesOf(c.boxes), ops)
    decreases |ops|
  {
    hide After, NamesAfter;
    if ops != [] {
      NamesStep(c, ops[0], addresses[0]);
      NamesRun(After(c, ops[0], addresses[0]), ops[1..], addresses[1..]);
    }
  }

  // ---------- when `tail` is the last node ----------

  lemma InsertKeepsOrder(c: Cells, x: Cell)
    requires Allocated(c.boxes) && InOrder(c) && Unallocated(c.boxes, x.address)
    ensures Allocated(Inserted(c, x).boxes) && InOrder(Inserted(c, x))
  {
  }

  lemma DeleteKeepsOrder(c: Cells, name: Data)
    requires Allocated(c.boxes) && InOrder(c)
    ensures Allocated(Deleted(c, name).boxes)
    ensures if NamesOf(c.boxes) == [name] then Deleted(c, name) == Cells([], c.tail) && c.tail != NULL
            else InOrder(Deleted(c, name))
  {
    hide FirstIndex;
    var k := FirstIndex(c.boxes, CellNamed(name));
    if k != -1 {
      assert CellNamed(name)(c.boxes[k]);
      var last := |c.boxes| - 1;
      assert c.boxes[k].address == c.tail <==> k == last;
      assert |c.boxes| == 1 ==> NamesOf(c.boxes) == [name];
    }
  }

  /** Whatever addresses insertions get, `tail` is the last node unless a deletion removed the only box. */
  lemma {:induction false} OrderKept(c: Cells, ops: seq<ListOp>, addresses: seq<nat>)
    requires Allocated(c.boxes) && InOrder(c) && MallocOk(c, ops, addresses)
    requires !RemovesOnlyBox(NamesOf(c.boxes), ops)
    ensures var d := AfterAll(c, ops, addresses); Allocated(d.boxes) && InOrder(d)
    decreases |ops|
  {
    hide Inserted, Deleted, Allocated, InOrder, Unallocated, NamesAfter;
    if ops != [] {
      match ops[0] {
        case Insert(name, _, _, _) => InsertKeepsOrder(c, Cell(name, addresses[0]));
        case Delete(name) => DeleteKeepsOrder(c, name);
      }
      NamesStep(c, ops[0], addresses[0]);
      OrderKept(After(c, ops[0], addresses[0]), ops[1..], addresses[1..]);
    }
  }

  // ---------- addresses that are never used again ----------

  /** Addresses counted up, so that a deleted node's is never used again. */
  function CountingUp(from: nat, n: nat): (r: seq<nat>)
    ensures |r| == n
    decreases n
  {
    if n == 0 then [] else [from] + CountingUp(from + 1, n - 1)
  }

  /** All addresses in use, and the one in `tail`, are below `next`. */
  ghost predicate UsedBelow(c: Cells, next: nat) {
    c.tail < next && forall i | 0 <= i < |c.boxes| :: NULL < c.boxes[i].address < next
  }

  lemma StepUsedBelow(c: Cells, op: ListOp, next: nat)
    requires Allocated(c.boxes) && UsedBelow(c, next)
    ensures op.Insert? ==> Unallocated(c.boxes, next)
    ensures Allocated(After(c, op, next).boxes) && UsedBelow(After(c, op, next), next + 1)
    ensures Stale(c) ==> Stale(After(c, op, next))
  {
    hide FirstIndex;
  }

  lemma CountingFirst(from: nat, n: nat)
    requires n > 0
    ensures CountingUp(from, n)[0] == from && CountingUp(from, n)[1..] == CountingUp(from + 1, n - 1)
  {
  }

  lemma {:induction false} CountingIsMallocOk(c: Cells, ops: seq<ListOp>, next: nat)
    requires Allocated(c.boxes) && UsedBelow(c, next)
    ensures MallocOk(c, ops, CountingUp(next, |ops|))
    decreases |ops|
  {
    hide After, Allocated, UsedBelow, Unallocated, Stale;
    if ops != [] {
      StepUsedBelow(c, ops[0], next);
      CountingFirst(next, |ops|);
      CountingIsMallocOk(After(c, ops[0], next), ops[1..], next + 1);
    }
  }

  /** Once stale, `tail` stays so when no address is used again. */
  lemma {:induction false} StaysStale(c: Cells, ops: seq<ListOp>, next: nat)
    requires Allocated(c.boxes) && UsedBelow(c, next) && Stale(c)
    ensures Stale(AfterAll(c, ops, CountingUp(next, |ops|)))
    decreases |ops|
  {
    hide After, Allocated, UsedBelow, Unallocated, Stale;
    if ops != [] {
      StepUsedBelow(c, ops[0], next);
      CountingFirst(next, |ops|);
      StaysStale(After(c, ops[0], next), ops[1..], next + 1);
    }
  }

  lemma {:induction false} GoesStale(c: Cells, ops: seq<ListOp>, next: nat)
    requires Allocated(c.boxes) && UsedBelow(c, next) && InOrder(c) && RemovesOnlyBox(NamesOf(c.boxes), ops)
    ensures Stale(AfterAll(c, ops, CountingUp(next, |ops|)))
    decreases |ops|
  {
    hide Inserted, Deleted, Allocated, UsedBelow, Unallocated, InOrder, NamesAfter;
    StepUsedBelow(c, ops[0], next);
    CountingFirst(next, |ops|);
    NamesStep(c, ops[0], next);
    var d := After(c, ops[0], next);
    match ops[0]
    case Insert(name, _, _, _) =>
      InsertKeepsOrder(c, Cell(name, next));
      GoesStale(d, ops[1..], next + 1);
    case Delete(name) =>
      DeleteKeepsOrder(c, name);
      if NamesOf(c.boxes) == [name] {
        StaysStale(d, ops[1..], next + 1);
      } else {
        GoesStale(d, ops[1..], next + 1);
      }
  }

  lemma StaleNotInOrder(c: Cells)
    requires Stale(c)
    ensures !InOrder(c)
  {
  }

  lemma NothingListed()
    ensures Allocated(EMPTY_LIST.boxes) && InOrder(EMPTY_LIST) && UsedBelow(EMPTY_LIST, 1)
    ensures NamesOf(EMPTY_LIST.boxes) == []
  {
  }

  /** It is guaranteed that `tail` is the last node after a run from the empty list,
      whatever addresses insertions get, if and only if no deletion removed the only box. */
  lemma TailGuaranteed(ops: seq<ListOp>)
    ensures (forall addresses | MallocOk(EMPTY_LIST, ops, addresses) :: InOrder(AfterAll(EMPTY_LIST, ops, addresses)))
            <==> !RemovesOnlyBox([], ops)
  {
    NothingListed();
    hide Allocated, InOrder, UsedBelow, RemovesOnlyBox, Stale, AfterAll;
    if RemovesOnlyBox([], ops) {
      var addresses := CountingUp(1, |ops|);
      CountingIsMallocOk(EMPTY_LIST, ops, 1);
      GoesStale(EMPTY_LIST, ops, 1);
      StaleNotInOrder(AfterAll(EMPTY_LIST, ops, addresses));
    } else {
      forall addresses | MallocOk(EMPTY_LIST, ops, addresses) ensures InOrder(AfterAll(EMPTY_LIST, ops, addresses)) {
        OrderKept(EMPTY_LIST, ops, addresses);
      }
    }
  }

  lemma AfterTwo(c: Cells, a: ListOp, b: ListOp, x: nat, y: nat)
    ensures AfterAll(c, [a, b], [x, y]) == After(After(c, a, x), b, y)
    ensures MallocOk(c, [a, b], [x, y]) <==>
            && (a.Insert? ==> Unallocated(c.boxes, x))
            && (b.Insert? ==> Unallocated(After(c, a, x).boxes, y))
  {
    hide After, Unallocated;
    var d := After(c, a, x);
    assert [a, b][1..] == [b] && [x, y][1..] == [y] && [b][1..] == [] && [y][1..] == [];
    assert AfterAll(d, [b], [y]) == AfterAll(After(d, b, y), [], []);
    assert MallocOk(d, [b], [y]) <==>
           (b.Insert? ==> Unallocated(d.boxes, y)) && MallocOk(After(d, b, y), [], []);
  }

  /** Remove the only box, then create two: if the second gets the memory of the
      deleted node, `tail` is on it, and the first record of the listing is marked last. */
  lemma ReusedAddressMisleads(a: Data, b: Data, c: Data)
    ensures var empty := After(After(EMPTY_LIST, Insert(a, 0, 0, 0), 1), Delete(a), 0);
            var two := After(After(empty, Insert(b, 0, 0, 0), 2), Insert(c, 0, 0, 0), 1);
            && MallocOk(EMPTY_LIST, [Insert(a, 0, 0, 0), Delete(a)], [1, 0])
            && MallocOk(empty, [Insert(b, 0, 0, 0), Insert(c, 0, 0, 0)], [2, 1])
            && two == Cells([Cell(c, 1), Cell(b, 2)], 1) && !InOrder(two)
  {
    var one := After(EMPTY_LIST, Insert(a, 0, 0, 0), 1);
    assert one == Cells([Cell(a, 1)], 1);
    assert CellNamed(a)(one.boxes[0]);
    var empty := After(one, Delete(a), 0);
    assert empty == Cells([], 1);
    AfterTwo(EMPTY_LIST, Insert(a, 0, 0, 0), Delete(a), 1, 0);
    AfterTwo(empty, Insert(b, 0, 0, 0), Insert(c, 0, 0, 0), 2, 1);
    assert After(empty, Insert(b, 0, 0, 0), 2) == Cells([Cell(b, 2)], 1);
    assert [Cell(c, 1)] + [Cell(b, 2)] == [Cell(c, 1), Cell(b, 2)];
  }

  // ---------- runs on the list ----------

  /** What the broker's requests put into a node. */
  ghost predicate OpOk(op: ListOp) {
    op.Insert? ==>
      && 1 <= |op.name| < BOX_NAME && op.name[0] == SLASH && NulFree(op.name)
      && op.boxSize < Pow256(8) && op.publishers < Pow256(8) && op.subscribers < Pow256(8)
  }

  /** Nodes whose insertions passed fit values are boxes of the broker. */
  lemma HeldOk(ns: seq<BoxData>, left: seq<ListOp>)
    requires Hold(ns, left) && forall i | 0 <= i < |left| :: OpOk(left[i])
    ensures forall b | b in Nodes(ns) :: BoxOk(b)
  {
  }

  /** One operation on the list object. */
  method Perform(list: BoxList, op: ListOp, address: nat, ghost left: seq<ListOp>)
    requires list.Valid() && OpOk(op) && (op.Insert? ==> Unallocated(list.State().boxes, address))
    requires Hold(list.nodes, left)
    modifies list, Nodes(list.nodes)`next
    ensures Hold(list.nodes, LeftAfter(left, op))
    ensures list.Valid() && forall b | b in Nodes(list.nodes) :: b in old(Nodes(list.nodes)) || fresh(b)
    ensures list.State() == After(old(list.State()), op, address)
  {
    ghost var ns := list.nodes;
    hide FirstIndex, HasName, LeftAfter, Hold, Nodes, Linked, Allocated, Unallocated, CellsOf, Inserted, Deleted;
    match op {
      case Insert(name, boxSize, publishers, subscribers) =>
        list.InsertAtBeginning(address, name, boxSize, publishers, subscribers);
        HoldMore(list.head, ns, left);
      case Delete(name) =>
        PerformDelete(list, name, left);
    }
  }

  method PerformDelete(list: BoxList, name: Data, ghost left: seq<ListOp>)
    requires list.Valid() && Hold(list.nodes, left)
    modifies list, Nodes(list.nodes)`next
    ensures Hold(list.nodes, LeftAfter(left, Delete(name)))
    ensures list.Valid() && Nodes(list.nodes) <= old(Nodes(list.nodes))
    ensures list.State() == Deleted(old(list.State()), name)
  {
    ghost var rest := HoldRest(list.nodes, left, name);
    hide FirstIndex, HasName, LeftAfter, Hold, Nodes, Linked, Allocated, Unallocated, CellsOf, Deleted;
    list.DeleteBox(name);
    assert list.nodes == rest;
  }

  /** What is left was among the insertions. */
  lemma LeftOk(left: seq<ListOp>, op: ListOp)
    requires OpOk(op) && forall i | 0 <= i < |left| :: OpOk(left[i])
    ensures var next := LeftAfter(left, op); forall i | 0 <= i < |next| :: OpOk(next[i])
  {
    hide OpOk, FirstIndex;
  }

  lemma RunNext(c: Cells, left: seq<ListOp>, ops: seq<ListOp>, addresses: seq<nat>, i: nat)
    requires i < |ops| == |addresses| && MallocOk(c, ops[i..], addresses[i..])
    ensures ops[i].Insert? ==> Unallocated(c.boxes, addresses[i])
    ensures var next := After(c, ops[i], addresses[i]);
            && MallocOk(next, ops[i + 1..], addresses[i + 1..])
            && AfterAll(next, ops[i + 1..], addresses[i + 1..]) == AfterAll(c, ops[i..], addresses[i..])
    ensures LeftAfterAll(LeftAfter(left, ops[i]), ops[i + 1..]) == LeftAfterAll(left, ops[i..])
  {
    hide After, LeftAfter, Unallocated;
    assert ops[i..][1..] == ops[i + 1..] && addresses[i..][1..] == addresses[i + 1..];
  }

  lemma RunEnds(c: Cells, left: seq<ListOp>, ops: seq<ListOp>, addresses: seq<nat>)
    requires |ops| == |addresses|
    ensures AfterAll(c, ops[|ops|..], addresses[|ops|..]) == c && LeftAfterAll(left, ops[|ops|..]) == left
  {
    assert ops[|ops|..] == [];
  }

  /** Any run from the empty list. */
  method PerformAll(ops: seq<ListOp>, addresses: seq<nat>) returns (list: BoxList)
    requires MallocOk(EMPTY_LIST, ops, addresses) && forall i | 0 <= i < |ops| :: OpOk(ops[i])
    ensures fresh(list) && list.Valid() && forall b | b in Nodes(list.nodes) :: BoxOk(b)
    ensures list.State() == AfterAll(EMPTY_LIST, ops, addresses) && Hold(list.nodes, LeftAfterAll([], ops))
  {
    list := new BoxList();
    ghost var left := [];
    assert Hold(list.nodes, left);
    assert list.State() == EMPTY_LIST;
    assert ops[0..] == ops && addresses[0..] == addresses;
    hide OpOk, BoxOk, After, Linked, Allocated, Unallocated, LeftAfter, Hold, Nodes, CellsOf;
    hide AfterAll, LeftAfterAll, MallocOk;
    for i := 0 to |ops|
      invariant fresh(list) && fresh(Nodes(list.nodes)) && list.Valid()
      invariant Hold(list.nodes, left) && forall k | 0 <= k < |left| :: OpOk(left[k])
      invariant LeftAfterAll(left, ops[i..]) == LeftAfterAll([], ops)
      invariant MallocOk(list.State(), ops[i..], addresses[i..])
      invariant AfterAll(list.State(), ops[i..], addresses[i..]) == AfterAll(EMPTY_LIST, ops, addresses)
    {
      RunNext(list.State(), left, ops, addresses, i);
      LeftOk(left, ops[i]);
      Perform(list, ops[i], addresses[i], left);
      left := LeftAfter(left, ops[i]);
    }
    RunEnds(list.State(), left, ops, addresses);
    HeldOk(list.nodes, left);
  }

  /** With `tail` in order it is on the final box and no other. */
  lemma LastMarked(c: Cells)
    requires Allocated(c.boxes) && InOrder(c)
    ensures forall i | 0 <= i < |c.boxes| :: c.boxes[i].address == c.tail <==> i == |c.boxes| - 1
  {
  }

  /** The listing after any run: one record for each insertion left, which decodes to
      its name and counters, marked last when `tail` is on its box; and exactly the
      final one is, if no deletion removed the only box. */
  method ListAfter(ops: seq<ListOp>, addresses: seq<nat>) returns (records: seq<Data>)
    requires MallocOk(EMPTY_LIST, ops, addresses) && forall i | 0 <= i < |ops| :: OpOk(ops[i])
    ensures var left := LeftAfterAll([], ops);
            var names := NamesAfterAll([], ops);
            var c := AfterAll(EMPTY_LIST, ops, addresses);
            && |records| == |left| == |names| == |c.boxes|
            && forall i | 0 <= i < |records| ::
                 && |records[i]| == LISTING_SIZE && left[i].Insert? && left[i].name == names[i] != []
                 && DecodeListing(records[i]) ==
                    Listing(8, if c.boxes[i].address == c.tail then 1 else 0, left[i].name[1..],
                            left[i].boxSize, left[i].publishers, left[i].subscribers)
                 && (!RemovesOnlyBox([], ops) ==> records[i][1] == if i == |records| - 1 then 1 else 0)
  {
    var list := PerformAll(ops, addresses);
    records := SendHeld(list, LeftAfterAll([], ops));
    hide NamesAfterAll, LeftAfterAll, RemovesOnlyBox, DecodeListing, Linked, AfterAll, MallocOk, Allocated, InOrder;
    hide Hold, BoxOk;
    NamesRun(EMPTY_LIST, ops, addresses);
    NothingListed();
    if !RemovesOnlyBox([], ops) {
      OrderKept(EMPTY_LIST, ops, addresses);
      LastMarked(AfterAll(EMPTY_LIST, ops, addresses));
    }
  }

  /** The records of a list whose nodes hold what these insertions passed. */
  method SendHeld(list: BoxList, ghost left: seq<ListOp>) returns (records: seq<Data>)
    requires list.Valid() && Hold(list.nodes, left) && forall b | b in Nodes(list.nodes) :: BoxOk(b)
    ensures |records| == |left| == |list.nodes|
    ensures forall i | 0 <= i < |records| ::
              && |records[i]| == LISTING_SIZE && left[i].Insert? && left[i].name == list.nodes[i].name != []
              && records[i][1] == (if list.nodes[i].address == list.tail then 1 else 0)
              && DecodeListing(records[i]) ==
                 Listing(8, records[i][1], left[i].name[1..], left[i].boxSize, left[i].publishers, left[i].subscribers)
  {
    records := SendListing(list);
    ghost var ns := list.nodes;
    hide EncodeListing, DecodeListing, Linked, Allocated, FitsUint64;
    forall i | 0 <= i < |records| ensures DecodeListing(records[i]) == Shown(ns[i], list.tail) {
      assert ns[i] in Nodes(ns);
      RecordArrives(records[i], Shown(ns[i], list.tail));
    }
  }
}
