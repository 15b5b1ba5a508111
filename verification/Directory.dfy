/** The root directory: one data block read as an array of `dir_entry_t`
    (40 name bytes, then a 4-byte inumber; fs/state.h), searched and updated by
    first-fit scans. The slots represent an injective map from names to inumbers. */
module Directory {
  import opened Bytes
  import opened Scan

  const MAX_FILE_NAME: nat := 40
  const ENTRY_SIZE: nat := 44

  datatype Slot = Slot(name: Data, inumber: int)

  // ---------- slots in the bytes of a block ----------

  function SlotAt(block: Data, i: nat): (s: Slot)
    requires ENTRY_SIZE * (i + 1) <= |block|
    ensures |s.name| == MAX_FILE_NAME
  {
    var base := ENTRY_SIZE * i;
    Slot(block[base..base + MAX_FILE_NAME],
         FromInt32(block[base + MAX_FILE_NAME..base + ENTRY_SIZE]))
  }

  /** MAX_DIR_ENTRIES for a block of this size. */
  function MaxEntries(blockSize: nat): nat {
    blockSize / ENTRY_SIZE
  }

  function Slots(block: Data): (s: seq<Slot>)
    ensures |s| == MaxEntries(|block|)
    ensures forall i | 0 <= i < |s| :: |s[i].name| == MAX_FILE_NAME
  {
    seq(MaxEntries(|block|), i requires 0 <= i < MaxEntries(|block|) => SlotAt(block, i))
  }

  function SlotBytes(s: Slot): (r: Data)
    requires |s.name| == MAX_FILE_NAME && -INT_LIMIT <= s.inumber < INT_LIMIT
    ensures |r| == ENTRY_SIZE
  {
    s.name + ToInt32(s.inumber)
  }

  /** Storing a slot's bytes in the block changes that slot and no other. */
  lemma StoreSlot(block: Data, i: nat, s: Slot)
    requires ENTRY_SIZE * (i + 1) <= |block|
    requires |s.name| == MAX_FILE_NAME && -INT_LIMIT <= s.inumber < INT_LIMIT
    ensures Slots(Overlay(block, ENTRY_SIZE * i, SlotBytes(s))) == Slots(block)[i := s]
  {
    var b' := Overlay(block, ENTRY_SIZE * i, SlotBytes(s));
    forall j | 0 <= j < MaxEntries(|block|)
      ensures SlotAt(b', j) == if j == i then s else SlotAt(block, j)
    {
      var base := ENTRY_SIZE * j;
      if j == i {
        Int32RoundTrip(s.inumber);
        assert b'[base..base + MAX_FILE_NAME] == s.name;
        assert b'[base + MAX_FILE_NAME..base + ENTRY_SIZE] == ToInt32(s.inumber);
      } else {
        assert b'[base..base + MAX_FILE_NAME] == block[base..base + MAX_FILE_NAME];
        assert b'[base + MAX_FILE_NAME..base + ENTRY_SIZE] == block[base + MAX_FILE_NAME..base + ENTRY_SIZE];
      }
    }
  }

  // ---------- first-fit scans ----------

  predicate IsFree(s: Slot) {
    s.inumber == -1
  }

  /** The test of the lookup scan. */
  predicate Matches(s: Slot, name: Data)
    requires |s.name| == MAX_FILE_NAME
  {
    !IsFree(s) && StrnEqual(s.name, name, MAX_FILE_NAME)
  }

  /** The test of the clearing scan: it does not look at the inumber. */
  predicate NameEquals(s: Slot, name: Data)
    requires |s.name| == MAX_FILE_NAME && |name| < MAX_FILE_NAME
  {
    StrnEqual(s.name, name, |name| + 1)
  }

  function Matching(name: Data): Slot -> bool {
    (s: Slot) => |s.name| == MAX_FILE_NAME && Matches(s, name)
  }

  function NameEqualTo(name: Data): Slot -> bool {
    (s: Slot) => |s.name| == MAX_FILE_NAME && |name| < MAX_FILE_NAME && NameEquals(s, name)
  }

  const UNUSED: Slot -> bool := (s: Slot) => IsFree(s)

  function FindInDir(slots: seq<Slot>, name: Data): int {
    var i := FirstIndex(slots, Matching(name));
    if i == -1 then -1 else slots[i].inumber
  }

  predicate LegalName(name: Data) {
    1 <= |name| <= MAX_FILE_NAME - 1
  }

  /** A stored name: the string, its terminator, and zeros up to the end. */
  function PadName(name: Data): (r: Data)
    requires LegalName(name)
    ensures |r| == MAX_FILE_NAME
  {
    name + Zeros(MAX_FILE_NAME - |name|)
  }

  const CLEARED: Slot := Slot(Zeros(MAX_FILE_NAME), -1)

  // ---------- what the slots represent ----------

  function NameOf(s: Slot): Data {
    CString(s.name)
  }

  /** Live slots hold terminated, distinct, legal names; and a free slot
      below a live one was used before, so its name is empty. */
  ghost predicate DirOk(slots: seq<Slot>) {
    && (forall i | 0 <= i < |slots| :: |slots[i].name| == MAX_FILE_NAME)
    && (forall i | 0 <= i < |slots| && !IsFree(slots[i]) :: LegalName(NameOf(slots[i])))
    && (forall i, j | 0 <= i < j < |slots| && !IsFree(slots[i]) && !IsFree(slots[j]) ::
          NameOf(slots[i]) != NameOf(slots[j]))
    && (forall i, j | 0 <= i < j < |slots| && IsFree(slots[i]) && !IsFree(slots[j]) ::
          slots[i].name[0] == 0)
  }

  /** The directory as a map from names to inumbers. */
  ghost function DirMap(slots: seq<Slot>): map<Data, int> {
    if slots == [] then map[]
    else
      var m := DirMap(slots[..|slots| - 1]);
      var last := slots[|slots| - 1];
      if IsFree(last) then m else m[NameOf(last) := last.inumber]
  }

  ghost predicate HoldsAt(slots: seq<Slot>, i: int, name: Data) {
    0 <= i < |slots| && !IsFree(slots[i]) && NameOf(slots[i]) == name
  }

  /** The keys of the map are the names of the live slots. */
  lemma {:induction false} DirMapKeys(slots: seq<Slot>, name: Data)
    ensures name in DirMap(slots) <==> exists i :: HoldsAt(slots, i, name)
  {
    if slots != [] {
      var n := |slots| - 1;
      DirMapKeys(slots[..n], name);
      if i :| HoldsAt(slots[..n], i, name) {
        assert HoldsAt(slots, i, name);
      }
      if i :| HoldsAt(slots, i, name) {
        assert i < n ==> HoldsAt(slots[..n], i, name);
      }
      assert HoldsAt(slots, n, NameOf(slots[n])) <==> !IsFree(slots[n]);
    }
  }

  /** The value of a name is the inumber in its slot. */
  lemma {:induction false} DirMapValue(slots: seq<Slot>, i: nat)
    requires i < |slots| && !IsFree(slots[i])
    requires forall j | i < j < |slots| && !IsFree(slots[j]) :: NameOf(slots[j]) != NameOf(slots[i])
    ensures NameOf(slots[i]) in DirMap(slots) && DirMap(slots)[NameOf(slots[i])] == slots[i].inumber
  {
    var n := |slots| - 1;
    if i < n {
      assert slots[..n][i] == slots[i];
      DirMapValue(slots[..n], i);
    }
  }

  /** On a terminated name, the bounded comparison is equality of strings. */
  lemma MatchesMeaning(s: Slot, name: Data)
    requires |s.name| == MAX_FILE_NAME && NulFree(name)
    requires !IsFree(s) ==> LegalName(NameOf(s))
    ensures Matches(s, name) <==> !IsFree(s) && NameOf(s) == name
  {
    StrnEqualMeaning(s.name, name, MAX_FILE_NAME);
    if Matches(s, name) && |name| < MAX_FILE_NAME {
      StrLenUnique(s.name, |name|);
    }
    assert s.name <= name ==> NulFree(s.name);
  }

  lemma NameEqualsMeaning(s: Slot, name: Data)
    requires |s.name| == MAX_FILE_NAME && NulFree(name) && LegalName(name)
    ensures NameEquals(s, name) <==> NameOf(s) == name
  {
    StrnEqualMeaning(s.name, name, |name| + 1);
    if NameEquals(s, name) {
      StrLenUnique(s.name, |name|);
    }
  }

  lemma PadNameOf(name: Data, inumber: int)
    requires LegalName(name) && NulFree(name)
    ensures NameOf(Slot(PadName(name), inumber)) == name
  {
    StrLenUnique(PadName(name), |name|);
  }

  /** Lookup by scanning is lookup in the map. */
  lemma FindIsLookup(slots: seq<Slot>, name: Data)
    requires DirOk(slots) && NulFree(name)
    ensures FindInDir(slots, name) == if name in DirMap(slots) then DirMap(slots)[name] else -1
  {
    var k := FirstIndex(slots, Matching(name));
    DirMapKeys(slots, name);
    forall i | 0 <= i < |slots|
      ensures Matching(name)(slots[i]) <==> HoldsAt(slots, i, name)
    {
      MatchesMeaning(slots[i], name);
    }
    if k != -1 {
      assert Matching(name)(slots[k]);
      assert HoldsAt(slots, k, name);
      DirMapValue(slots, k);
    }
  }

  /** Filling a free slot with a new name adds it to the map. */
  lemma {:induction false} AddToMap(slots: seq<Slot>, k: nat, s: Slot)
    requires k < |slots| && IsFree(slots[k]) && !IsFree(s)
    requires forall i | k < i < |slots| && !IsFree(slots[i]) :: NameOf(slots[i]) != NameOf(s)
    ensures DirMap(slots[k := s]) == DirMap(slots)[NameOf(s) := s.inumber]
  {
    var n := |slots| - 1;
    if k < n {
      AddToMap(slots[..n], k, s);
      assert slots[k := s][..n] == slots[..n][k := s];
    } else {
      assert slots[k := s][..n] == slots[..n];
    }
  }

  /** Clearing the only slot of a name removes it from the map. */
  lemma {:induction false} ClearInMap(slots: seq<Slot>, k: nat, s: Slot)
    requires k < |slots| && !IsFree(slots[k]) && IsFree(s)
    requires forall i | 0 <= i < |slots| && i != k && !IsFree(slots[i]) :: NameOf(slots[i]) != NameOf(slots[k])
    ensures DirMap(slots[k := s]) == DirMap(slots) - {NameOf(slots[k])}
  {
    var n := |slots| - 1;
    if k < n {
      assert slots[..n][k] == slots[k];
      ClearInMap(slots[..n], k, s);
      assert slots[k := s][..n] == slots[..n][k := s];
    } else {
      assert slots[k := s][..n] == slots[..n];
      DirMapKeys(slots[..n], NameOf(slots[k]));
    }
  }

  /** First-fit insertion keeps the directory well formed. */
  lemma AddKeepsOk(slots: seq<Slot>, name: Data, inumber: int)
    requires DirOk(slots) && NulFree(name) && LegalName(name)
    requires inumber != -1 && forall i | 0 <= i < |slots| && !IsFree(slots[i]) :: NameOf(slots[i]) != name
    requires FirstIndex(slots, UNUSED) != -1
    ensures DirOk(slots[FirstIndex(slots, UNUSED) := Slot(PadName(name), inumber)])
  {
    var k := FirstIndex(slots, UNUSED);
    PadNameOf(name, inumber);
    assert forall i | 0 <= i < k :: !UNUSED(slots[i]);
  }

  /** Filling the first free slot with a new name adds it to the represented map. */
  lemma AddSlot(slots: seq<Slot>, name: Data, inumber: int)
    requires DirOk(slots) && NulFree(name) && LegalName(name)
    requires name !in DirMap(slots) && inumber != -1
    requires FirstIndex(slots, UNUSED) != -1
    ensures var slots' := slots[FirstIndex(slots, UNUSED) := Slot(PadName(name), inumber)];
            DirOk(slots') && DirMap(slots') == DirMap(slots)[name := inumber]
  {
    forall i | 0 <= i < |slots| && !IsFree(slots[i]) ensures NameOf(slots[i]) != name {
      DirMapKeys(slots, name);
      assert HoldsAt(slots, i, NameOf(slots[i]));
    }
    AddKeepsOk(slots, name, inumber);
    PadNameOf(name, inumber);
    var k := FirstIndex(slots, UNUSED);
    assert UNUSED(slots[k]);
    AddToMap(slots, k, Slot(PadName(name), inumber));
  }

  /** The clearing scan stops at the slot that the lookup scan found: free slots
      before it have an empty name, whatever bytes never-used slots hold. */
  lemma ClearFindsLookup(slots: seq<Slot>, name: Data)
    requires DirOk(slots) && NulFree(name) && name in DirMap(slots)
    ensures LegalName(name)
    ensures FirstIndex(slots, NameEqualTo(name)) == FirstIndex(slots, Matching(name)) != -1
    ensures HoldsAt(slots, FirstIndex(slots, NameEqualTo(name)), name)
  {
    DirMapKeys(slots, name);
    var k :| HoldsAt(slots, k, name);
    forall i | 0 <= i < |slots|
      ensures Matching(name)(slots[i]) <==> HoldsAt(slots, i, name)
      ensures NameEqualTo(name)(slots[i]) <==> NameOf(slots[i]) == name
    {
      MatchesMeaning(slots[i], name);
      NameEqualsMeaning(slots[i], name);
    }
    assert Matching(name)(slots[k]) && NameEqualTo(name)(slots[k]);
    var h := FirstIndex(slots, NameEqualTo(name));
    assert h <= k && NameEqualTo(name)(slots[h]);
    assert !IsFree(slots[h]) by {
      assert slots[h].name[0] == name[0] by { assert NameOf(slots[h])[0] == slots[h].name[0]; }
    }
    assert h == k;
    var f := FirstIndex(slots, Matching(name));
    assert f <= k && Matching(name)(slots[f]);
  }

  lemma ClearKeepsOk(slots: seq<Slot>, k: nat)
    requires DirOk(slots) && k < |slots|
    ensures DirOk(slots[k := CLEARED])
  {
  }

  /** Clearing by name removes exactly that name from the represented map. */
  lemma ClearSlot(slots: seq<Slot>, name: Data)
    requires DirOk(slots) && NulFree(name) && name in DirMap(slots)
    ensures FirstIndex(slots, NameEqualTo(name)) != -1
    ensures var slots' := slots[FirstIndex(slots, NameEqualTo(name)) := CLEARED];
            DirOk(slots') && DirMap(slots') == DirMap(slots) - {name}
  {
    ClearFindsLookup(slots, name);
    var k := FirstIndex(slots, NameEqualTo(name));
    ClearKeepsOk(slots, k);
    ClearInMap(slots, k, CLEARED);
  }

  /** A high-water mark: free slots below it have empty names, and no slot at or above it is live. */
  lemma HighWaterMark(slots: seq<Slot>) returns (mark: nat)
    requires DirOk(slots)
    ensures mark <= |slots|
    ensures forall i | 0 <= i < mark && IsFree(slots[i]) :: NameOf(slots[i]) == []
    ensures forall i | mark <= i < |slots| :: IsFree(slots[i])
  {
    mark := |slots|;
    while mark > 0 && IsFree(slots[mark - 1])
      invariant 0 <= mark <= |slots|
      invariant forall i | mark <= i < |slots| :: IsFree(slots[i])
    {
      mark := mark - 1;
    }
  }

  // ---------- counting ----------

  /** The indices below `n`. */
  ghost function UpTo(n: nat): (r: set<int>)
    ensures |r| == n
    ensures forall i :: i in r <==> 0 <= i < n
  {
    if n == 0 then {} else UpTo(n - 1) + {n - 1}
  }

  ghost function LiveSlots(slots: seq<Slot>): set<int> {
    set i | 0 <= i < |slots| && !IsFree(slots[i])
  }

  lemma LiveSlotsStep(slots: seq<Slot>)
    requires slots != []
    ensures var n := |slots| - 1;
            LiveSlots(slots) == LiveSlots(slots[..n]) + (if IsFree(slots[n]) then {} else {n})
  {
  }

  lemma NewName(slots: seq<Slot>)
    requires slots != [] && !IsFree(slots[|slots| - 1])
    requires forall i | 0 <= i < |slots| - 1 && !IsFree(slots[i]) :: NameOf(slots[i]) != NameOf(slots[|slots| - 1])
    ensures NameOf(slots[|slots| - 1]) !in DirMap(slots[..|slots| - 1])
  {
    hide NameOf;
    DirMapKeys(slots[..|slots| - 1], NameOf(slots[|slots| - 1]));
  }

  /** As many names as live slots. */
  lemma {:induction false} CountNames(slots: seq<Slot>)
    requires forall i, j | 0 <= i < j < |slots| && !IsFree(slots[i]) && !IsFree(slots[j]) ::
               NameOf(slots[i]) != NameOf(slots[j])
    ensures |DirMap(slots)| == |LiveSlots(slots)|
  {
    hide NameOf, IsFree, LiveSlots;
    if slots != [] {
      CountNames(slots[..|slots| - 1]);
      LiveSlotsStep(slots);
      assert |slots| - 1 !in LiveSlots(slots[..|slots| - 1]) by { LiveBelow(slots[..|slots| - 1]); }
      if !IsFree(slots[|slots| - 1]) {
        NewName(slots);
      }
    } else {
      LiveBelow(slots);
    }
  }

  lemma LiveBelow(slots: seq<Slot>)
    ensures forall i | i in LiveSlots(slots) :: 0 <= i < |slots|
    ensures slots == [] ==> LiveSlots(slots) == {}
  {
  }

  /** A subset has at most as many elements, and as many only when it is the whole. */
  lemma SubsetSize<T>(a: set<T>, b: set<T>)
    requires a <= b
    ensures |a| <= |b|
    ensures |a| == |b| <==> a == b
  {
    assert b == a + (b - a);
    assert |b| == |a| + |b - a|;
  }

  /** The directory is full exactly when it holds as many names as it has slots. */
  lemma FullIffCount(slots: seq<Slot>)
    requires DirOk(slots)
    ensures |DirMap(slots)| <= |slots|
    ensures FirstIndex(slots, UNUSED) == -1 <==> |DirMap(slots)| == |slots|
  {
    CountNames(slots);
    SubsetSize(LiveSlots(slots), UpTo(|slots|));
    var k := FirstIndex(slots, UNUSED);
    if k == -1 {
      assert forall i | 0 <= i < |slots| :: !UNUSED(slots[i]);
    } else {
      assert UNUSED(slots[k]);
      assert k in UpTo(|slots|) && k !in LiveSlots(slots);
    }
  }
}
