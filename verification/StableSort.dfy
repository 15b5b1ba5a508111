/** Sorting by name: the merge of the box list, which lets the right side win
    ties, against an independent reference, stable insertion sort. */
module StableSort {
  import opened Bytes
  import opened Scan

  /** Non-decreasing by strcmp of the names. */
  ghost predicate Sorted<T>(xs: seq<T>, name: T -> Data) {
    forall i, j | 0 <= i < j < |xs| :: !StrLess(name(xs[j]), name(xs[i]))
  }

  /** In the order of the names' bytes. */
  ghost predicate InByteOrder<T>(xs: seq<T>, name: T -> Data) {
    forall i, j | 0 <= i < j < |xs| :: NotAfter(name(xs[i]), name(xs[j]))
  }

  lemma SortedMeaning<T>(xs: seq<T>, name: T -> Data)
    ensures Sorted(xs, name) <==> InByteOrder(xs, name)
  {
    hide StrLess, NotAfter;
    forall i, j | 0 <= i < j < |xs|
      ensures NotAfter(name(xs[i]), name(xs[j])) <==> !StrLess(name(xs[j]), name(xs[i]))
    {
      NotAfterMeaning(name(xs[i]), name(xs[j]));
    }
  }

  /** The elements of one name, in order. */
  function Named<T>(xs: seq<T>, k: Data, name: T -> Data): (r: seq<T>)
    ensures forall x | x in r :: name(x) == k
  {
    if xs == [] then []
    else (if name(xs[0]) == k then [xs[0]] else []) + Named(xs[1..], k, name)
  }

  function Reverse<T>(xs: seq<T>): (r: seq<T>)
    ensures |r| == |xs|
  {
    if xs == [] then [] else Reverse(xs[1..]) + [xs[0]]
  }

  /** The merge loop as a function. */
  function Merge<T>(l: seq<T>, r: seq<T>, name: T -> Data): (m: seq<T>)
    ensures |m| == |l| + |r|
    decreases |l| + |r|
  {
    if l == [] then r
    else if r == [] then l
    else if StrLess(name(l[0]), name(r[0])) then [l[0]] + Merge(l[1..], r, name)
    else [r[0]] + Merge(l, r[1..], name)
  }

  // ---------- reference ----------

  /** Puts `x` before the first element that is not less than it. */
  function Insert<T>(x: T, ys: seq<T>, name: T -> Data): seq<T> {
    if ys != [] && StrLess(name(ys[0]), name(x)) then [ys[0]] + Insert(x, ys[1..], name) else [x] + ys
  }

  function Stable<T>(xs: seq<T>, name: T -> Data): seq<T> {
    if xs == [] then [] else Insert(xs[0], Stable(xs[1..], name), name)
  }

  // ---------- order ----------

  lemma NotLessTransitive(a: Data, b: Data, c: Data)
    requires !StrLess(b, a) && !StrLess(c, b)
    ensures !StrLess(c, a)
  {
    StrLessTotal(a, b);
    StrLessTotal(b, c);
    if a != b && b != c {
      StrLessTransitive(a, b, c);
    }
    if StrLess(c, a) && StrLess(a, c) {
      StrLessTransitive(a, c, a);
      StrLessIrreflexive(a);
    }
  }

  ghost predicate Below<T>(x: T, ys: seq<T>, name: T -> Data) {
    forall i | 0 <= i < |ys| :: !StrLess(name(ys[i]), name(x))
  }

  /** A sorted sequence is a least element followed by a sorted sequence. */
  lemma SortedCons<T>(x: T, ys: seq<T>, name: T -> Data)
    ensures Sorted([x] + ys, name) <==> Below(x, ys, name) && Sorted(ys, name)
  {
    var z := [x] + ys;
    if Sorted(z, name) {
      forall i | 0 <= i < |ys| ensures !StrLess(name(ys[i]), name(x)) {
        assert z[0] == x && z[i + 1] == ys[i];
      }
      forall i, j | 0 <= i < j < |ys| ensures !StrLess(name(ys[j]), name(ys[i])) {
        assert z[i + 1] == ys[i] && z[j + 1] == ys[j];
      }
    }
  }

  lemma {:induction false} MergeBelow<T>(x: T, l: seq<T>, r: seq<T>, name: T -> Data)
    requires Below(x, l, name) && Below(x, r, name)
    ensures Below(x, Merge(l, r, name), name)
    decreases |l| + |r|
  {
    if l != [] && r != [] {
      if StrLess(name(l[0]), name(r[0])) {
        MergeBelow(x, l[1..], r, name);
      } else {
        MergeBelow(x, l, r[1..], name);
      }
    }
  }

  lemma BelowAll<T>(x: T, y: T, ys: seq<T>, name: T -> Data)
    requires !StrLess(name(y), name(x)) && Below(y, ys, name)
    ensures Below(x, ys, name)
  {
    forall i | 0 <= i < |ys| ensures !StrLess(name(ys[i]), name(x)) {
      NotLessTransitive(name(x), name(y), name(ys[i]));
    }
  }

  /** Merging sorted sequences gives a sorted sequence. */
  lemma {:induction false} MergeSorted<T>(l: seq<T>, r: seq<T>, name: T -> Data)
    requires Sorted(l, name) && Sorted(r, name)
    ensures Sorted(Merge(l, r, name), name)
    decreases |l| + |r|
  {
    if l != [] && r != [] {
      assert l == [l[0]] + l[1..] && r == [r[0]] + r[1..];
      SortedCons(l[0], l[1..], name);
      SortedCons(r[0], r[1..], name);
      if StrLess(name(l[0]), name(r[0])) {
        if StrLess(name(r[0]), name(l[0])) {
          StrLessTransitive(name(l[0]), name(r[0]), name(l[0]));
          StrLessIrreflexive(name(l[0]));
        }
        BelowCons(l[0], r[0], r[1..], name);
        MergeBelow(l[0], l[1..], r, name);
        MergeSorted(l[1..], r, name);
        SortedCons(l[0], Merge(l[1..], r, name), name);
      } else {
        BelowCons(r[0], l[0], l[1..], name);
        MergeBelow(r[0], l, r[1..], name);
        MergeSorted(l, r[1..], name);
        SortedCons(r[0], Merge(l, r[1..], name), name);
      }
    }
  }

  lemma BelowCons<T>(x: T, y: T, ys: seq<T>, name: T -> Data)
    requires !StrLess(name(y), name(x)) && Below(y, ys, name)
    ensures Below(x, [y] + ys, name)
  {
    BelowAll(x, y, ys, name);
  }

  // ---------- equal names ----------

  lemma {:induction false} NamedConcat<T>(xs: seq<T>, ys: seq<T>, k: Data, name: T -> Data)
    ensures Named(xs + ys, k, name) == Named(xs, k, name) + Named(ys, k, name)
  {
    if xs == [] {
      assert xs + ys == ys;
    } else {
      assert (xs + ys)[1..] == xs[1..] + ys;
      NamedConcat(xs[1..], ys, k, name);
    }
  }

  lemma {:induction false} NamedReverse<T>(xs: seq<T>, k: Data, name: T -> Data)
    ensures Named(Reverse(xs), k, name) == Reverse(Named(xs, k, name))
  {
    if xs != [] {
      NamedReverse(xs[1..], k, name);
      NamedConcat(Reverse(xs[1..]), [xs[0]], k, name);
      assert [xs[0]][1..] == [];
      var rest := Named(xs[1..], k, name);
      if name(xs[0]) == k {
        assert Named(xs, k, name)[1..] == rest;
        assert Named([xs[0]], k, name) == [xs[0]];
      } else {
        assert Named(xs, k, name) == rest;
        assert Named([xs[0]], k, name) == [];
      }
    }
  }

  /** A name less than every element does not occur. */
  lemma {:induction false} NamedNone<T>(xs: seq<T>, k: Data, name: T -> Data)
    requires forall i | 0 <= i < |xs| :: name(xs[i]) != k
    ensures Named(xs, k, name) == []
  {
    if xs != [] {
      NamedNone(xs[1..], k, name);
    }
  }

  lemma NamedCons<T>(x: T, xs: seq<T>, k: Data, name: T -> Data)
    ensures Named([x] + xs, k, name) == (if name(x) == k then [x] else []) + Named(xs, k, name)
  {
    assert ([x] + xs)[1..] == xs;
  }

  /** On ties the merge takes the right side first: the elements of one name are
      those of the right side, then those of the left. */
  lemma {:induction false} MergeNamed<T>(l: seq<T>, r: seq<T>, k: Data, name: T -> Data)
    requires Sorted(l, name) && Sorted(r, name)
    ensures Named(Merge(l, r, name), k, name) == Named(r, k, name) + Named(l, k, name)
    decreases |l| + |r|
  {
    hide StrLess, Sorted;
    if l != [] && r != [] {
      if StrLess(name(l[0]), name(r[0])) {
        SortedTail(l, name);
        MergeNamed(l[1..], r, k, name);
        NamedCons(l[0], Merge(l[1..], r, name), k, name);
        if name(l[0]) == k {
          StrLessNone(k, r, name);
          NamedNone(r, k, name);
        }
      } else {
        SortedTail(r, name);
        MergeNamed(l, r[1..], k, name);
        NamedCons(r[0], Merge(l, r[1..], name), k, name);
      }
    }
  }

  lemma StrLessNone<T>(k: Data, r: seq<T>, name: T -> Data)
    requires r != [] && StrLess(k, name(r[0])) && Sorted(r, name)
    ensures forall i | 0 <= i < |r| :: name(r[i]) != k
  {
    forall i | 0 <= i < |r| ensures name(r[i]) != k {
      StrLessIrreflexive(k);
      assert i > 0 ==> !StrLess(name(r[i]), name(r[0]));
    }
  }

  lemma {:induction false} MergeMultiset<T>(l: seq<T>, r: seq<T>, name: T -> Data)
    ensures multiset(Merge(l, r, name)) == multiset(l) + multiset(r)
    decreases |l| + |r|
  {
    if l != [] && r != [] {
      assert l == [l[0]] + l[1..] && r == [r[0]] + r[1..];
      if StrLess(name(l[0]), name(r[0])) {
        MergeMultiset(l[1..], r, name);
      } else {
        MergeMultiset(l, r[1..], name);
      }
    }
  }

  // ---------- sorted sequences are determined by their names' elements ----------

  lemma NamedHead<T>(xs: seq<T>, k: Data, name: T -> Data)
    requires xs != []
    ensures Named(xs, name(xs[0]), name) != [] && Named(xs, name(xs[0]), name)[0] == xs[0]
    ensures Named(xs[1..], k, name) ==
            if name(xs[0]) == k then Named(xs, k, name)[1..] else Named(xs, k, name)
  {
  }

  ghost predicate SameNamed<T>(xs: seq<T>, ys: seq<T>, name: T -> Data) {
    forall k :: Named(xs, k, name) == Named(ys, k, name)
  }

  lemma HeadNotLess<T>(xs: seq<T>, ys: seq<T>, name: T -> Data)
    requires xs != [] && ys != [] && Sorted(xs, name) && SameNamed(xs, ys, name)
    ensures !StrLess(name(ys[0]), name(xs[0]))
  {
    if StrLess(name(ys[0]), name(xs[0])) {
      StrLessNone(name(ys[0]), xs, name);
      NamedNone(xs, name(ys[0]), name);
      NamedHead(ys, name(ys[0]), name);
    }
  }

  lemma EmptyTogether<T>(xs: seq<T>, ys: seq<T>, name: T -> Data)
    requires SameNamed(xs, ys, name)
    ensures xs != [] ==> ys != []
  {
    if xs != [] {
      NamedHead(xs, [], name);
      assert Named(ys, name(xs[0]), name) != [];
    }
  }

  lemma {:induction false} SortedUnique<T>(xs: seq<T>, ys: seq<T>, name: T -> Data)
    requires Sorted(xs, name) && Sorted(ys, name) && SameNamed(xs, ys, name)
    ensures xs == ys
    decreases |xs|
  {
    EmptyTogether(xs, ys, name);
    EmptyTogether(ys, xs, name);
    if xs != [] {
      HeadNotLess(xs, ys, name);
      HeadNotLess(ys, xs, name);
      StrLessTotal(name(xs[0]), name(ys[0]));
      forall k ensures Named(xs[1..], k, name) == Named(ys[1..], k, name) {
        NamedHead(xs, k, name);
        NamedHead(ys, k, name);
      }
      SortedTail(xs, name);
      SortedTail(ys, name);
      SortedUnique(xs[1..], ys[1..], name);
      assert xs == [xs[0]] + xs[1..] && ys == [ys[0]] + ys[1..];
    }
  }

  lemma SortedTail<T>(xs: seq<T>, name: T -> Data)
    requires xs != [] && Sorted(xs, name)
    ensures Sorted(xs[1..], name)
  {
    assert xs == [xs[0]] + xs[1..];
    SortedCons(xs[0], xs[1..], name);
  }

  // ---------- the reference is a stable sort ----------

  lemma {:induction false} InsertSorted<T>(x: T, ys: seq<T>, name: T -> Data)
    requires Sorted(ys, name)
    ensures Sorted(Insert(x, ys, name), name)
    ensures forall y | !StrLess(name(x), name(y)) && Below(y, ys, name) :: Below(y, Insert(x, ys, name), name)
  {
    if ys != [] && StrLess(name(ys[0]), name(x)) {
      assert ys == [ys[0]] + ys[1..];
      SortedCons(ys[0], ys[1..], name);
      InsertSorted(x, ys[1..], name);
      if StrLess(name(x), name(ys[0])) {
        StrLessTransitive(name(x), name(ys[0]), name(x));
        StrLessIrreflexive(name(x));
      }
      SortedCons(ys[0], Insert(x, ys[1..], name), name);
    } else {
      if ys != [] {
        assert ys == [ys[0]] + ys[1..];
        SortedCons(ys[0], ys[1..], name);
        BelowCons(x, ys[0], ys[1..], name);
      }
      SortedCons(x, ys, name);
    }
  }

  lemma {:induction false} InsertNamed<T>(x: T, ys: seq<T>, k: Data, name: T -> Data)
    ensures Named(Insert(x, ys, name), k, name) == (if name(x) == k then [x] else []) + Named(ys, k, name)
  {
    hide StrLess;
    if ys != [] && StrLess(name(ys[0]), name(x)) {
      InsertNamed(x, ys[1..], k, name);
      assert name(ys[0]) != name(x) by { StrLessIrreflexive(name(x)); }
      NamedCons(ys[0], Insert(x, ys[1..], name), k, name);
    } else {
      NamedCons(x, ys, k, name);
    }
  }

  /** Stable insertion sort sorts, and keeps the elements of each name in order. */
  lemma {:induction false} StableSorts<T>(xs: seq<T>, name: T -> Data)
    ensures Sorted(Stable(xs, name), name) && SameNamed(Stable(xs, name), xs, name)
  {
    if xs != [] {
      StableSorts(xs[1..], name);
      InsertSorted(xs[0], Stable(xs[1..], name), name);
      forall k ensures Named(Stable(xs, name), k, name) == Named(xs, k, name) {
        InsertNamed(xs[0], Stable(xs[1..], name), k, name);
      }
    }
  }

  /** Stable insertion sort loses and adds nothing, and puts the names in the order of their bytes. */
  lemma StableMeaning<T>(xs: seq<T>, name: T -> Data)
    ensures multiset(Stable(xs, name)) == multiset(xs)
    ensures InByteOrder(Stable(xs, name), name)
  {
    StablePermutes(xs, name);
    StableSorts(xs, name);
    SortedMeaning(Stable(xs, name), name);
  }

  lemma {:induction false} InsertPermutes<T>(x: T, ys: seq<T>, name: T -> Data)
    ensures multiset(Insert(x, ys, name)) == multiset([x] + ys)
  {
    if ys != [] && StrLess(name(ys[0]), name(x)) {
      InsertPermutes(x, ys[1..], name);
      assert ys == [ys[0]] + ys[1..];
    }
  }

  lemma {:induction false} StablePermutes<T>(xs: seq<T>, name: T -> Data)
    ensures multiset(Stable(xs, name)) == multiset(xs)
  {
    if xs != [] {
      StablePermutes(xs[1..], name);
      InsertPermutes(xs[0], Stable(xs[1..], name), name);
      assert xs == [xs[0]] + xs[1..];
    }
  }

  // ---------- anti-stable sorting ----------

  /** `ys` is `xs` sorted, with equal names in exactly the reverse order. */
  ghost predicate AntiStable<T>(xs: seq<T>, ys: seq<T>, name: T -> Data) {
    && Sorted(ys, name)
    && forall k :: Named(ys, k, name) == Reverse(Named(xs, k, name))
  }

  lemma AntiStableOrder<T>(xs: seq<T>, ys: seq<T>, name: T -> Data)
    requires AntiStable(xs, ys, name)
    ensures InByteOrder(ys, name)
  {
    SortedMeaning(ys, name);
  }

  /** There is one such sequence: the stable sort of the reverse. */
  lemma AntiStableIsStableOfReverse<T>(xs: seq<T>, ys: seq<T>, name: T -> Data)
    ensures AntiStable(xs, ys, name) <==> ys == Stable(Reverse(xs), name)
  {
    var zs := Stable(Reverse(xs), name);
    StableSorts(Reverse(xs), name);
    forall k ensures Named(zs, k, name) == Reverse(Named(xs, k, name)) {
      NamedReverse(xs, k, name);
    }
    if AntiStable(xs, ys, name) {
      SortedUnique(ys, zs, name);
    }
  }

  lemma ReverseConcat<T>(xs: seq<T>, ys: seq<T>)
    ensures Reverse(xs + ys) == Reverse(ys) + Reverse(xs)
  {
    if xs == [] {
      assert xs + ys == ys;
    } else {
      assert (xs + ys)[1..] == xs[1..] + ys;
    }
  }

  /** Merging two anti-stably sorted halves, the right side winning ties, sorts the whole anti-stably. */
  lemma MergeAntiStable<T>(xs: seq<T>, ys: seq<T>, l: seq<T>, r: seq<T>, name: T -> Data)
    requires AntiStable(xs, l, name) && AntiStable(ys, r, name)
    ensures AntiStable(xs + ys, Merge(l, r, name), name)
  {
    MergeSorted(l, r, name);
    forall k ensures Named(Merge(l, r, name), k, name) == Reverse(Named(xs + ys, k, name)) {
      MergeNamed(l, r, k, name);
      NamedConcat(xs, ys, k, name);
      ReverseConcat(Named(xs, k, name), Named(ys, k, name));
    }
  }

  lemma {:induction false} ReverseTwice<T>(xs: seq<T>)
    ensures Reverse(Reverse(xs)) == xs
  {
    if xs != [] {
      ReverseTwice(xs[1..]);
      ReverseConcat(Reverse(xs[1..]), [xs[0]]);
      assert [xs[0]][1..] == [];
      assert Reverse([xs[0]]) == [xs[0]];
    }
  }

  /** Head insertion reverses, the anti-stable sort reverses ties again: together they sort stably. */
  lemma ReversalsCancel<T>(received: seq<T>, sorted: seq<T>, name: T -> Data)
    requires AntiStable(Reverse(received), sorted, name)
    ensures sorted == Stable(received, name)
  {
    AntiStableIsStableOfReverse(Reverse(received), sorted, name);
    ReverseTwice(received);
  }

  // ---------- sorting and mapping ----------

  lemma {:induction false} InsertMapped<T, U>(x: T, ys: seq<T>, f: T -> U, name: T -> Data, name': U -> Data)
    requires forall y :: name'(f(y)) == name(y)
    ensures Insert(f(x), MapSeq(f, ys), name') == MapSeq(f, Insert(x, ys, name))
  {
    if ys != [] && StrLess(name(ys[0]), name(x)) {
      InsertMapped(x, ys[1..], f, name, name');
      assert MapSeq(f, ys)[1..] == MapSeq(f, ys[1..]);
    }
  }

  /** Sorting does not look at anything but the names. */
  lemma {:induction false} StableMapped<T, U>(xs: seq<T>, f: T -> U, name: T -> Data, name': U -> Data)
    requires forall y :: name'(f(y)) == name(y)
    ensures Stable(MapSeq(f, xs), name') == MapSeq(f, Stable(xs, name))
  {
    if xs != [] {
      StableMapped(xs[1..], f, name, name');
      assert MapSeq(f, xs)[1..] == MapSeq(f, xs[1..]);
      InsertMapped(xs[0], Stable(xs[1..], name), f, name, name');
    }
  }

  lemma {:induction false} ReverseMapped<T, U>(xs: seq<T>, f: T -> U)
    ensures Reverse(MapSeq(f, xs)) == MapSeq(f, Reverse(xs))
  {
    if xs != [] {
      ReverseMapped(xs[1..], f);
      assert MapSeq(f, xs)[1..] == MapSeq(f, xs[1..]);
    }
  }

  /** An anti-stable sort stays one when each element is replaced by something of the same name. */
  lemma AntiStableMapped<T, U>(xs: seq<T>, ys: seq<T>, f: T -> U, name: T -> Data, name': U -> Data)
    requires AntiStable(xs, ys, name) && forall y :: name'(f(y)) == name(y)
    ensures AntiStable(MapSeq(f, xs), MapSeq(f, ys), name')
  {
    AntiStableIsStableOfReverse(xs, ys, name);
    StableMapped(Reverse(xs), f, name, name');
    ReverseMapped(xs, f);
    AntiStableIsStableOfReverse(MapSeq(f, xs), MapSeq(f, ys), name');
  }
}
