/** The list of boxes: heap nodes linked through `next`, changed in place. */
module BoxList {
  import opened Bytes
  import opened Scan
  import opened StableSort
  import Codec

  /** A node, at the address that `malloc` gave it. */
  class BoxData {
    const address: nat
    const name: Data
    var boxSize: nat
    var publishers: nat
    var subscribers: nat
    var next: BoxData?

    constructor (address: nat, name: Data, boxSize: nat, publishers: nat, subscribers: nat, next: BoxData?)
      ensures this.address == address && this.name == name && this.next == next
      ensures this.boxSize == boxSize && this.publishers == publishers && this.subscribers == subscribers
    {
      this.address, this.name, this.next := address, name, next;
      this.boxSize, this.publishers, this.subscribers := boxSize, publishers, subscribers;
    }
  }

  const BY_NAME: BoxData -> Data := (b: BoxData) => b.name

  function HasName(name: Data): BoxData -> bool {
    (b: BoxData) => b.name == name
  }

  ghost function Nodes(ns: seq<BoxData>): set<BoxData> {
    set x | x in ns
  }

  /** The chain from `head` visits exactly `ns`, in order, and ends. */
  ghost predicate Linked(head: BoxData?, ns: seq<BoxData>)
    reads Nodes(ns)
  {
    if ns == [] then head == null
    else
      && head == ns[0]
      && (forall i {:trigger ns[i].next} | 0 <= i < |ns| - 1 :: ns[i].next == ns[i + 1])
      && ns[|ns| - 1].next == null
  }

  /** A chain that ends visits no node twice. */
  lemma LinkedDistinct(head: BoxData?, ns: seq<BoxData>, i: nat, j: nat)
    requires Linked(head, ns) && i < j < |ns|
    ensures ns[i] != ns[j]
    decreases |ns| - j
  {
    if j < |ns| - 1 {
      LinkedDistinct(head, ns, i + 1, j + 1);
      assert ns[i].next == ns[i + 1] && ns[j].next == ns[j + 1];
    } else {
      assert ns[i].next == ns[i + 1];
    }
  }

  ghost predicate Distinct(ns: seq<BoxData>) {
    forall i, j | 0 <= i < j < |ns| :: ns[i] != ns[j]
  }

  lemma LinkedIsDistinct(head: BoxData?, ns: seq<BoxData>)
    requires Linked(head, ns)
    ensures Distinct(ns)
  {
    forall i, j | 0 <= i < j < |ns| ensures ns[i] != ns[j] {
      LinkedDistinct(head, ns, i, j);
    }
  }

  // ---------- merge sort ----------

  /** Nodes linked one to the next, `tail` being the last; where the last one links to is open. */
  ghost predicate Trail(path: seq<BoxData>, tail: BoxData)
    reads Nodes(path)
  {
    && path != [] && tail == path[|path| - 1] && tail !in path[..|path| - 1]
    && forall k {:trigger path[k].next} | 0 <= k < |path| - 1 :: path[k].next == path[k + 1]
  }

  ghost predicate Apart(a: seq<BoxData>, b: seq<BoxData>) {
    forall x | x in a :: x !in b
  }

  /** `tail->next = node` at the end of a path, for the first node of a chain. */
  method LinkAfter(tail: BoxData, node: BoxData, other: BoxData?,
                   ghost path: seq<BoxData>, ghost ns: seq<BoxData>, ghost os: seq<BoxData>)
    requires Trail(path, tail) && Linked(node, ns) && Linked(other, os)
    requires Apart(ns, path) && Apart(os, path)
    modifies tail`next
    ensures tail.next == node && Trail(path + [node], node)
    ensures Linked(node, ns) && Linked(node.next, ns[1..]) && Linked(other, os)
  {
    AwayFrom(ns, path, tail);
    AwayFrom(os, path, tail);
    tail.next := node;
    assert node == ns[0];
  }

  lemma AwayFrom(ns: seq<BoxData>, path: seq<BoxData>, tail: BoxData)
    requires Apart(ns, path) && path != [] && tail == path[|path| - 1]
    ensures forall k | 0 <= k < |ns| :: ns[k] != tail
  {
    assert tail in path;
  }

  /** The last link: the rest of a chain is appended to a path. */
  method LinkRest(tail: BoxData, rest: BoxData?, ghost path: seq<BoxData>, ghost ns: seq<BoxData>)
    requires Trail(path, tail) && Linked(rest, ns) && Apart(ns, path)
    modifies tail`next
    ensures Linked(path[0], path + ns)
  {
    AwayFrom(ns, path, tail);
    tail.next := rest;
    ghost var all := path + ns;
    forall k {:trigger all[k].next} | 0 <= k < |all| - 1 ensures all[k].next == all[k + 1] {
      if k < |path| - 1 {
        assert path[k].next == path[k + 1];
      } else if k >= |path| {
        assert ns[k - |path|].next == ns[k - |path| + 1];
      }
    }
  }

  lemma LinkedHead(head: BoxData?, ns: seq<BoxData>)
    requires Linked(head, ns)
    ensures if head == null then ns == [] else ns != [] && head == ns[0] && Distinct(ns)
  {
    LinkedIsDistinct(head, ns);
  }

  /** How far a merge of `l` and `r` has come: `done` is merged, `ls` and `rs` are left. */
  ghost predicate Merging(dummy: BoxData, done: seq<BoxData>, ls: seq<BoxData>, rs: seq<BoxData>,
                          l: seq<BoxData>, r: seq<BoxData>)
  {
    && (forall x | x in done :: x in l + r) && (forall x | x in ls :: x in l + r) && (forall x | x in rs :: x in l + r)
    && Apart(ls, [dummy] + done) && Apart(rs, [dummy] + done) && Apart(ls, rs)
    && done + Merge(ls, rs, BY_NAME) == Merge(l, r, BY_NAME)
  }

  lemma MergingStarts(dummy: BoxData, l: seq<BoxData>, r: seq<BoxData>)
    requires Apart(l, r) && dummy !in l && dummy !in r
    ensures Merging(dummy, [], l, r, l, r)
  {
    assert [] + Merge(l, r, BY_NAME) == Merge(l, r, BY_NAME);
  }

  /** The first node of a chain, once moved to the path, is in no rest. */
  lemma FirstApart(path: seq<BoxData>, ns: seq<BoxData>, os: seq<BoxData>)
    requires ns != [] && Distinct(ns) && Apart(ns, path) && Apart(os, path) && Apart(ns, os)
    ensures Apart(ns[1..], path + [ns[0]]) && Apart(os, path + [ns[0]]) && Apart(ns[1..], os)
  {
    forall x | x in ns[1..] ensures x !in path + [ns[0]] {
      var k :| 0 <= k < |ns| - 1 && ns[1..][k] == x;
      assert ns[k + 1] == x;
    }
    assert ns[0] in ns;
  }

  lemma Regroup<T>(a: seq<T>, b: seq<T>, c: seq<T>)
    ensures a + b + c == a + (b + c)
  {
  }

  lemma ApartSwaps(a: seq<BoxData>, b: seq<BoxData>)
    ensures Apart(a, b) ==> Apart(b, a)
  {
  }

  lemma TakeLeft(dummy: BoxData, done: seq<BoxData>, ls: seq<BoxData>, rs: seq<BoxData>,
                 l: seq<BoxData>, r: seq<BoxData>)
    requires Merging(dummy, done, ls, rs, l, r) && ls != [] && rs != [] && Distinct(ls)
    requires StrLess(ls[0].name, rs[0].name)
    ensures Merging(dummy, done + [ls[0]], ls[1..], rs, l, r)
    ensures [dummy] + done + [ls[0]] == [dummy] + (done + [ls[0]])
  {
    hide StrLess, Apart, Distinct;
    FirstApart([dummy] + done, ls, rs);
    assert Merge(ls, rs, BY_NAME) == [ls[0]] + Merge(ls[1..], rs, BY_NAME);
    hide Merge;
    Regroup([dummy], done, [ls[0]]);
    Regroup(done, [ls[0]], Merge(ls[1..], rs, BY_NAME));
    assert ls[0] in ls;
  }

  lemma TakeRight(dummy: BoxData, done: seq<BoxData>, ls: seq<BoxData>, rs: seq<BoxData>,
                  l: seq<BoxData>, r: seq<BoxData>)
    requires Merging(dummy, done, ls, rs, l, r) && ls != [] && rs != [] && Distinct(rs)
    requires !StrLess(ls[0].name, rs[0].name)
    ensures Merging(dummy, done + [rs[0]], ls, rs[1..], l, r)
    ensures [dummy] + done + [rs[0]] == [dummy] + (done + [rs[0]])
  {
    hide StrLess, Apart, Distinct;
    ApartSwaps(ls, rs);
    FirstApart([dummy] + done, rs, ls);
    ApartSwaps(rs[1..], ls);
    assert Merge(ls, rs, BY_NAME) == [rs[0]] + Merge(ls, rs[1..], BY_NAME);
    hide Merge;
    Regroup([dummy], done, [rs[0]]);
    Regroup(done, [rs[0]], Merge(ls, rs[1..], BY_NAME));
    assert rs[0] in rs;
  }

  lemma MergingEnds(dummy: BoxData, done: seq<BoxData>, ls: seq<BoxData>, rs: seq<BoxData>,
                    l: seq<BoxData>, r: seq<BoxData>)
    requires Merging(dummy, done, ls, rs, l, r) && (ls == [] || rs == [])
    ensures done + (if ls == [] then rs else ls) == Merge(l, r, BY_NAME)
    ensures forall rest: seq<BoxData> :: [dummy] + done + rest == [dummy] + (done + rest)
  {
  }

  /** Where the links of a merge are made: on the dummy or on a node of the two chains. */
  lemma TailInside(dummy: BoxData, done: seq<BoxData>, ls: seq<BoxData>, rs: seq<BoxData>,
                   l: seq<BoxData>, r: seq<BoxData>, tail: BoxData)
    requires Merging(dummy, done, ls, rs, l, r) && Trail([dummy] + done, tail)
    ensures tail == dummy || tail in l || tail in r
    ensures Apart(ls, [dummy] + done) && Apart(rs, [dummy] + done)
  {
    var path := [dummy] + done;
    assert |path| > 1 ==> tail == done[|done| - 1] && tail in done && tail in l + r;
  }

  /** The merge loop: the nodes of both chains, relinked into one. */
  method MergeChains(first: BoxData?, second: BoxData?, ghost l: seq<BoxData>, ghost r: seq<BoxData>)
    returns (head: BoxData?, ghost out: seq<BoxData>)
    requires Linked(first, l) && Linked(second, r) && Apart(l, r)
    modifies Nodes(l)`next, Nodes(r)`next
    ensures Linked(head, out) && out == Merge(l, r, BY_NAME)
  {
    hide Merge, StrLess, Merging, Distinct, Linked, Apart;
    var dummy := new BoxData(NULL, [], 0, 0, 0, null);
    var left, right := first, second;
    var tail: BoxData := dummy;
    ghost var done, ls, rs := [], l, r;
    MergingStarts(dummy, l, r);
    while left != null && right != null
      invariant Trail([dummy] + done, tail) && Linked(left, ls) && Linked(right, rs)
      invariant Merging(dummy, done, ls, rs, l, r)
      decreases |ls| + |rs|
    {
      LinkedHead(left, ls);
      LinkedHead(right, rs);
      TailInside(dummy, done, ls, rs, l, r, tail);
      if StrLess(left.name, right.name) {
        TakeLeft(dummy, done, ls, rs, l, r);
        LinkAfter(tail, left, right, [dummy] + done, ls, rs);
        tail, left := left, left.next;
        done, ls := done + [ls[0]], ls[1..];
      } else {
        TakeRight(dummy, done, ls, rs, l, r);
        LinkAfter(tail, right, left, [dummy] + done, rs, ls);
        tail, right := right, right.next;
        done, rs := done + [rs[0]], rs[1..];
      }
    }
    LinkedHead(left, ls);
    LinkedHead(right, rs);
    TailInside(dummy, done, ls, rs, l, r, tail);
    MergingEnds(dummy, done, ls, rs, l, r);
    if left != null {
      LinkRest(tail, left, [dummy] + done, ls);
    } else {
      LinkRest(tail, right, [dummy] + done, rs);
    }
    out := done + (if ls == [] then rs else ls);
    head := dummy.next;
    LinkedTail(dummy, [dummy] + out);
  }

  lemma LinkedTail(head: BoxData, ns: seq<BoxData>)
    requires Linked(head, ns)
    ensures Linked(head.next, ns[1..])
  {
    assert forall i {:trigger ns[1..][i].next} | 0 <= i < |ns| - 1 :: ns[1..][i].next == ns[i + 1].next;
  }

  /** Cutting a chain after its first nodes gives two chains. */
  lemma CutChain(ns: seq<BoxData>, m: nat)
    requires 1 <= m < |ns| && Distinct(ns)
    requires forall i {:trigger ns[i].next} | 0 <= i < |ns| - 1 && i != m - 1 :: ns[i].next == ns[i + 1]
    requires ns[m - 1].next == null && ns[|ns| - 1].next == null
    ensures Linked(ns[0], ns[..m]) && Linked(ns[m], ns[m..])
    ensures Apart(ns[..m], ns[m..])
  {
    var a, b := ns[..m], ns[m..];
    assert forall i {:trigger a[i].next} | 0 <= i < m - 1 :: a[i].next == ns[i].next == a[i + 1];
    assert forall i {:trigger b[i].next} | 0 <= i < |b| - 1 :: b[i].next == ns[m + i].next == b[i + 1];
  }

  /** The slow pointer ends in the middle: both halves are non-empty, the second not longer. */
  method Halve(head: BoxData, ghost ns: seq<BoxData>) returns (second: BoxData, ghost m: nat)
    requires Linked(head, ns) && |ns| >= 2
    modifies Nodes(ns)`next
    ensures m == (|ns| + 1) / 2 && 1 <= m < |ns|
    ensures Linked(head, ns[..m]) && Linked(second, ns[m..]) && Apart(ns[..m], ns[m..])
  {
    LinkedIsDistinct(head, ns);
    var slow: BoxData := head;
    var fast := head.next;
    ghost var i := 0;
    while fast != null && fast.next != null
      invariant 0 <= i && 2 * i + 1 <= |ns| && slow == ns[i]
      invariant fast == if 2 * i + 1 < |ns| then ns[2 * i + 1] else null
      decreases |ns| - i
    {
      assert ns[2 * i + 1].next == if 2 * i + 2 < |ns| then ns[2 * i + 2] else null;
      assert ns[2 * i + 2].next == if 2 * i + 3 < |ns| then ns[2 * i + 3] else null;
      assert ns[i].next == ns[i + 1];
      slow := slow.next;
      fast := fast.next.next;
      i := i + 1;
    }
    m := i + 1;
    assert ns[i].next == ns[i + 1];
    second := slow.next;
    slow.next := null;
    CutChain(ns, m);
  }

  /** `merge_sort_boxdata_list`: the same nodes, relinked in place, sorted by name,
      equal names in exactly the reverse of their order. */
  method MergeSort(head: BoxData?, ghost ns: seq<BoxData>) returns (sorted: BoxData?, ghost out: seq<BoxData>)
    requires Linked(head, ns)
    modifies Nodes(ns)`next
    ensures Linked(sorted, out) && multiset(out) == multiset(ns)
    ensures AntiStable(ns, out, BY_NAME) && InByteOrder(out, BY_NAME)
    decreases |ns|
  {
    if head == null || head.next == null {
      SingleAntiStable(ns);
      return head, ns;
    }
    assert |ns| >= 2;
    hide Linked, AntiStable, Merge, StrLess, InByteOrder, Apart, Nodes;
    ghost var m: nat;
    var head2: BoxData;
    head2, m := Halve(head, ns);
    ghost var xs, ys := ns[..m], ns[m..];
    Halves(ns, xs, ys);
    ghost var l, r;
    var left, right;
    left, l := MergeSort(head, xs);
    right, r := MergeSort(head2, ys);
    SameNodes(xs, l);
    SameNodes(ys, r);
    DisjointNodes(l, r);
    MergeAntiStable(xs, ys, l, r, BY_NAME);
    MergeMultiset(l, r, BY_NAME);
    sorted, out := MergeChains(left, right, l, r);
    AntiStableOrder(ns, out, BY_NAME);
  }

  lemma Halves(ns: seq<BoxData>, xs: seq<BoxData>, ys: seq<BoxData>)
    requires ns == xs + ys && Apart(xs, ys)
    ensures multiset(ns) == multiset(xs) + multiset(ys)
    ensures Nodes(ns) == Nodes(xs) + Nodes(ys) && Nodes(xs) !! Nodes(ys)
  {
  }

  lemma DisjointNodes(l: seq<BoxData>, r: seq<BoxData>)
    requires Nodes(l) !! Nodes(r)
    ensures Apart(l, r)
  {
    forall x | x in l ensures x !in r {
      assert x in Nodes(l);
    }
  }

  lemma SingleAntiStable(ns: seq<BoxData>)
    requires |ns| <= 1
    ensures AntiStable(ns, ns, BY_NAME)
  {
    forall k ensures Named(ns, k, BY_NAME) == Reverse(Named(ns, k, BY_NAME)) {
      if ns != [] {
        assert ns[1..] == [];
      }
    }
  }

  lemma SameNodes(ns: seq<BoxData>, os: seq<BoxData>)
    requires multiset(ns) == multiset(os)
    ensures Nodes(os) == Nodes(ns)
  {
    forall x ensures x in os <==> x in ns {
      assert x in os <==> x in multiset(os);
      assert x in ns <==> x in multiset(ns);
    }
  }

  // ---------- the list object ----------

  /** The place of a name's first node. */
  lemma FirstBox(ns: seq<BoxData>, name: Data)
    ensures var k := FirstIndex(ns, HasName(name));
            if k == -1 then forall i | 0 <= i < |ns| :: ns[i].name != name
            else 0 <= k < |ns| && ns[k].name == name && forall i | 0 <= i < k :: ns[i].name != name
  {
    var k := FirstIndex(ns, HasName(name));
    assert forall i | 0 <= i < |ns| :: HasName(name)(ns[i]) <==> ns[i].name == name;
  }

  /** `find_box`: the first node of that name. */
  method FindBox(head: BoxData?, name: Data, ghost ns: seq<BoxData>) returns (r: BoxData?)
    requires Linked(head, ns)
    ensures var k := FirstIndex(ns, HasName(name)); r == if k == -1 then null else ns[k]
    ensures r == null <==> forall i | 0 <= i < |ns| :: ns[i].name != name
    ensures r != null ==> r.name == name
  {
    FirstBox(ns, name);
    var current := head;
    ghost var i := 0;
    while current != null
      invariant 0 <= i <= |ns| && current == if i < |ns| then ns[i] else null
      invariant FirstIndex(ns, HasName(name)) == FirstIndex(ns, HasName(name), i)
      decreases |ns| - i
    {
      if name == current.name {
        assert HasName(name)(ns[i]);
        return current;
      }
      assert !HasName(name)(ns[i]);
      assert i < |ns| - 1 ==> ns[i].next == ns[i + 1];
      current := current.next;
      i := i + 1;
    }
    return null;
  }

  /** Skipping one node of a chain. */
  lemma SkipNode(head: BoxData?, ns: seq<BoxData>, k: nat)
    requires 1 <= k < |ns| && head == ns[0]
    requires forall i {:trigger ns[i].next} | 0 <= i < |ns| - 1 && i != k - 1 :: ns[i].next == ns[i + 1]
    requires ns[|ns| - 1].next == null || k == |ns| - 1
    requires ns[k - 1].next == if k + 1 < |ns| then ns[k + 1] else null
    ensures Linked(head, ns[..k] + ns[k + 1..])
  {
    var os := ns[..k] + ns[k + 1..];
    forall i {:trigger os[i].next} | 0 <= i < |os| - 1 ensures os[i].next == os[i + 1] {
      if i >= k {
        assert ns[i + 1].next == ns[i + 2];
      } else if i < k - 1 {
        assert ns[i].next == ns[i + 1];
      }
    }
  }

  lemma NextOf(head: BoxData?, ns: seq<BoxData>, i: nat)
    requires Linked(head, ns) && i < |ns|
    ensures ns[i].next == if i + 1 < |ns| then ns[i + 1] else null
  {
  }

  /** The search loop of `delete_box`: the first node of that name and the one before it. */
  method FindWithPrevious(head: BoxData?, name: Data, ghost ns: seq<BoxData>)
    returns (temp: BoxData?, prev: BoxData?, ghost i: nat)
    requires Linked(head, ns)
    ensures FirstIndex(ns, HasName(name)) == if i < |ns| then i else -1
    ensures i <= |ns| && temp == (if i < |ns| then ns[i] else null) && prev == if i == 0 then null else ns[i - 1]
  {
    temp, prev, i := head, null, 0;
    while temp != null && name != temp.name
      invariant 0 <= i <= |ns| && temp == if i < |ns| then ns[i] else null
      invariant prev == if i == 0 then null else ns[i - 1]
      invariant FirstIndex(ns, HasName(name)) == FirstIndex(ns, HasName(name), i)
      decreases |ns| - i
    {
      assert !HasName(name)(ns[i]);
      NextOf(head, ns, i);
      prev := temp;
      temp := temp.next;
      i := i + 1;
    }
    assert temp != null ==> HasName(name)(ns[i]);
  }

  /** `prev->next = temp->next` */
  method UnlinkNode(prev: BoxData, temp: BoxData, ghost head: BoxData?, ghost ns: seq<BoxData>, ghost k: nat)
    requires Linked(head, ns) && 1 <= k < |ns| && prev == ns[k - 1] && temp == ns[k]
    modifies prev`next
    ensures Linked(head, ns[..k] + ns[k + 1..])
  {
    LinkedIsDistinct(head, ns);
    NextOf(head, ns, k);
    prev.next := temp.next;
    SkipNode(head, ns, k);
  }

  // ---------- names and addresses ----------

  /** The null pointer. */
  const NULL: nat := 0

  datatype Cell = Cell(name: Data, address: nat)

  /** What the list's pointers amount to: the nodes from the head on, and the
      address in `tail`, which the program compares and never follows. */
  datatype Cells = Cells(boxes: seq<Cell>, tail: nat)

  function CellsOf(ns: seq<BoxData>): (r: seq<Cell>)
    ensures |r| == |ns| && forall i | 0 <= i < |ns| :: r[i] == Cell(ns[i].name, ns[i].address)
  {
    seq(|ns|, i requires 0 <= i < |ns| => Cell(ns[i].name, ns[i].address))
  }

  /** Nodes that exist at the same time have different addresses. */
  ghost predicate Allocated(boxes: seq<Cell>) {
    && (forall i | 0 <= i < |boxes| :: boxes[i].address != NULL)
    && (forall i, j | 0 <= i < j < |boxes| :: boxes[i].address != boxes[j].address)
  }

  /** An address that `malloc` may return: that of a deleted node, perhaps, but of no node there is. */
  predicate Unallocated(boxes: seq<Cell>, address: nat) {
    address != NULL && forall i | 0 <= i < |boxes| :: boxes[i].address != address
  }

  function CellNamed(name: Data): Cell -> bool {
    (c: Cell) => c.name == name
  }

  function Inserted(c: Cells, x: Cell): Cells {
    Cells([x] + c.boxes, if c.tail == NULL then x.address else c.tail)
  }

  /** `tail` is the last node. */
  ghost predicate InOrder(c: Cells) {
    c.tail == if c.boxes == [] then NULL else c.boxes[|c.boxes| - 1].address
  }

  /** `tail` is on no node. */
  ghost predicate Stale(c: Cells) {
    c.tail != NULL && forall i | 0 <= i < |c.boxes| :: c.boxes[i].address != c.tail
  }

  /** Without the first box of that name; `tail` moves back only if it was on
      that box and the box was not the first. */
  function Deleted(c: Cells, name: Data): Cells {
    var k := FirstIndex(c.boxes, CellNamed(name));
    if k == -1 then c
    else Cells(c.boxes[..k] + c.boxes[k + 1..],
               if k > 0 && c.boxes[k].address == c.tail then c.boxes[k - 1].address else c.tail)
  }

  /** The first node of a name is at the first place of that name. */
  lemma FirstOfName(ns: seq<BoxData>, name: Data)
    ensures FirstIndex(ns, HasName(name)) == FirstIndex(CellsOf(ns), CellNamed(name))
  {
    var k, m := FirstIndex(ns, HasName(name)), FirstIndex(CellsOf(ns), CellNamed(name));
    assert forall i | 0 <= i < |ns| :: HasName(name)(ns[i]) <==> CellNamed(name)(CellsOf(ns)[i]);
    hide FirstIndex;
    assert k >= 0 ==> HasName(name)(ns[k]);
    assert m >= 0 ==> CellNamed(name)(CellsOf(ns)[m]);
  }

  lemma CellsOfRest(ns: seq<BoxData>, k: nat)
    requires k < |ns|
    ensures CellsOf(ns[..k] + ns[k + 1..]) == CellsOf(ns)[..k] + CellsOf(ns)[k + 1..]
    ensures Allocated(CellsOf(ns)) ==> Allocated(CellsOf(ns[..k] + ns[k + 1..]))
  {
  }

  lemma CellsOfTail(ns: seq<BoxData>)
    requires ns != [] && Allocated(CellsOf(ns))
    ensures Allocated(CellsOf(ns[1..]))
  {
    assert ns[..0] + ns[1..] == ns[1..];
    CellsOfRest(ns, 0);
  }

  lemma CellsOfMore(node: BoxData, ns: seq<BoxData>)
    requires Allocated(CellsOf(ns)) && Unallocated(CellsOf(ns), node.address)
    ensures CellsOf([node] + ns) == [Cell(node.name, node.address)] + CellsOf(ns)
    ensures Allocated(CellsOf([node] + ns))
  {
  }

  /** Deletion in terms of nodes. */
  lemma DeletedNode(ns: seq<BoxData>, tail: nat, name: Data)
    ensures var k := FirstIndex(ns, HasName(name));
            Deleted(Cells(CellsOf(ns), tail), name) ==
            if k == -1 then Cells(CellsOf(ns), tail)
            else Cells(CellsOf(ns[..k] + ns[k + 1..]),
                       if k > 0 && ns[k].address == tail then ns[k - 1].address else tail)
  {
    FirstOfName(ns, name);
    var k := FirstIndex(ns, HasName(name));
    hide FirstIndex;
    if k != -1 {
      CellsOfRest(ns, k);
    }
  }

  class BoxList {
    var head: BoxData?
    var tail: nat
    ghost var nodes: seq<BoxData>

    ghost predicate Valid()
      reads this, Nodes(nodes)
    {
      Linked(head, nodes) && Allocated(CellsOf(nodes))
    }

    ghost function State(): Cells
      reads this
    {
      Cells(CellsOf(nodes), tail)
    }

    constructor ()
      ensures Valid() && nodes == [] && tail == NULL
    {
      head, tail, nodes := null, NULL, [];
    }

    /** `insert_at_beginning`; `address` is what `malloc` returns. */
    method InsertAtBeginning(address: nat, name: Data, boxSize: nat, publishers: nat, subscribers: nat)
      requires Valid() && |name| < Codec.BOX_NAME && Unallocated(CellsOf(nodes), address)
      modifies this
      ensures Valid() && head != null && fresh(head) && nodes == [head] + old(nodes)
      ensures head.name == name && head.boxSize == boxSize
      ensures head.publishers == publishers && head.subscribers == subscribers
      ensures State() == Inserted(old(State()), Cell(name, address))
    {
      var node := new BoxData(address, name, boxSize, publishers, subscribers, head);
      ghost var all := [node] + nodes;
      assert forall i {:trigger all[i].next} | 1 <= i < |all| - 1 ::
          all[i] == nodes[i - 1] && nodes[i - 1].next == nodes[i];
      CellsOfMore(node, nodes);
      hide Allocated, Unallocated, CellsOf;
      head := node;
      if tail == NULL {
        tail := node.address;
      }
      nodes := all;
    }

    /** The first branch of `delete_box`: the head leaves the chain, and `tail` is not looked at. */
    method UnlinkHead()
      requires Valid() && head != null
      modifies this
      ensures Valid() && nodes == old(nodes)[1..] && tail == old(tail)
    {
      ghost var rest := nodes[1..];
      LinkedTail(head, nodes);
      CellsOfTail(nodes);
      hide Allocated, CellsOf;
      head := head.next;
      nodes := rest;
    }

    /** The end of `delete_box`: a node that is not the head leaves the chain. */
    method UnlinkAfter(prev: BoxData, temp: BoxData, ghost i: nat)
      requires Valid() && 1 <= i < |nodes| && prev == nodes[i - 1] && temp == nodes[i]
      modifies this, prev`next
      ensures Valid() && nodes == old(nodes)[..i] + old(nodes)[i + 1..]
      ensures tail == if temp.address == old(tail) then prev.address else old(tail)
    {
      CellsOfRest(nodes, i);
      hide Allocated, CellsOf;
      UnlinkNode(prev, temp, head, nodes, i);
      if temp.address == tail {
        tail := prev.address;
      }
      nodes := nodes[..i] + nodes[i + 1..];
    }

    /** `delete_box`: the first node of that name is unlinked. */
    method DeleteBox(name: Data)
      requires Valid()
      modifies this, Nodes(nodes)`next
      ensures Valid()
      ensures var k := FirstIndex(old(nodes), HasName(name));
              nodes == if k == -1 then old(nodes) else old(nodes)[..k] + old(nodes)[k + 1..]
      ensures State() == Deleted(old(State()), name)
    {
      ghost var ns := nodes;
      LinkedHead(head, ns);
      DeletedNode(ns, tail, name);
      hide Deleted, CellsOf, Allocated;
      if head != null && name == head.name {
        assert HasName(name)(ns[0]);
        assert FirstIndex(ns, HasName(name)) == 0;
        assert ns[..0] + ns[1..] == ns[1..];
        hide FirstIndex, HasName, Linked;
        UnlinkHead();
        return;
      }
      ghost var i;
      var temp, prev;
      temp, prev, i := FindWithPrevious(head, name, ns);
      if temp == null {
        return;
      }
      assert i > 0;
      hide FirstIndex, HasName, Linked;
      UnlinkAfter(prev, temp, i);
    }
  }
}
