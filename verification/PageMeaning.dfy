// What a slotted page's bytes mean to its decoder and its distribution, number by number:
// `decode_slotted_page` in `src/format/slotted.rs` and `page_distribution_projection` in
// `src/projection.rs`.
module PageMeaning {
  import opened Wrappers
  import opened Bits
  import opened Bytes
  import opened Pages
  import opened Sorting
  import opened SlottedFormat
  import opened PageDistribution

  // ---- The numbers on a page ----

  function Word16(user: UserArea, at: nat): nat
    requires at + 2 <= 16_344
  {
    var low: nat, high: nat := user[at], user[at + 1];
    low + 0x100 * high
  }

  function Word32(user: UserArea, at: nat): nat
    requires at + 4 <= 16_344
  {
    Word16(user, at) + 0x1_0000 * Word16(user, at + 2)
  }

  function Signed16(u: nat): int
  {
    if u < 0x8000 then u else u - 0x1_0000
  }

  function Signed32(u: nat): int
  {
    if u < 0x8000_0000 then u else u - 0x1_0000_0000
  }

  // Slot i is the i-th word from the end of the page: 14 bits of offset, 14 of length, 4 of type.
  function SlotOffset(user: UserArea, i: nat): nat
    requires 4 * (i + 1) <= 16_344
  {
    Word32(user, 16_344 - 4 * (i + 1)) % 0x4000
  }

  function SlotLength(user: UserArea, i: nat): nat
    requires 4 * (i + 1) <= 16_344
  {
    Word32(user, 16_344 - 4 * (i + 1)) / 0x4000 % 0x4000
  }

  function SlotType(user: UserArea, i: nat): nat
    requires 4 * (i + 1) <= 16_344
  {
    Word32(user, 16_344 - 4 * (i + 1)) / 0x1000_0000
  }

  predicate SlotDeleted(user: UserArea, i: nat)
    requires 4 * (i + 1) <= 16_344
  {
    SlotType(user, i) == 6 || SlotType(user, i) == 7
  }

  // ---- What is accepted ----

  // The header numbers of a page with n slots.
  predicate HeaderAccepted(user: UserArea, n: nat)
  {
    var records := Signed16(Word16(user, 2));
    var anchor := Signed16(Word16(user, 4));
    var totalFree, contiguousFree := Signed32(Word32(user, 8)), Signed32(Word32(user, 12));
    var freeArea := Signed32(Word32(user, 16));
    && Signed16(Word16(user, 0)) == n
    && 0 <= records <= n
    && 1 <= anchor <= 4
    && Word16(user, 6) in {1, 2, 4, 8}
    && 0 <= contiguousFree <= totalFree <= 16_312
    && 32 <= freeArea <= 16_344 - 4 * n
  }

  // An empty slot has no length unless it is deleted; a record lies between header and directory.
  predicate SlotAccepted(user: UserArea, n: nat, i: nat)
    requires 4 * (i + 1) <= 16_344 && Word16(user, 6) > 0
  {
    var offset, length := SlotOffset(user, i), SlotLength(user, i);
    if offset == 0 then length == 0 || SlotDeleted(user, i)
    else 32 <= offset && offset + length <= 16_344 - 4 * n && offset % Word16(user, 6) == 0
  }

  predicate SlotsDisjoint(user: UserArea, i: nat, j: nat)
    requires 4 * (i + 1) <= 16_344 && 4 * (j + 1) <= 16_344
  {
    || SlotOffset(user, i) == 0 || SlotOffset(user, j) == 0
    || SlotOffset(user, i) + SlotLength(user, i) <= SlotOffset(user, j)
    || SlotOffset(user, j) + SlotLength(user, j) <= SlotOffset(user, i)
  }

  ghost predicate Accepted(t: PageType, user: UserArea, n: nat)
  {
    && t in {PageType.Heap, PageType.Oos, PageType.Btree, PageType.ExtensibleHash, PageType.Catalog}
    && HeaderAccepted(user, n)
    && (forall i: nat :: i < n ==> SlotAccepted(user, n, i))
    && (forall i: nat, j: nat :: i < j < n ==> SlotsDisjoint(user, i, j))
    && |set i: nat | i < n && SlotOffset(user, i) != 0| == Signed16(Word16(user, 2))
  }

  // ---- Words ----

  lemma Le2(user: UserArea, at: nat)
    requires at + 2 <= 16_344
    ensures FromLe(user[at..at + 2]) == Word16(user, at)
  {
    var s := user[at..at + 2];
    assert s[1..][1..] == [];
    assert FromLe(s[1..]) == user[at + 1];
  }

  lemma Le4(user: UserArea, at: nat)
    requires at + 4 <= 16_344
    ensures FromLe(user[at..at + 4]) == Word32(user, at)
  {
    var s := user[at..at + 4];
    assert s[1..][1..] == user[at + 2..at + 4];
    Le2(user, at + 2);
  }

  lemma HeaderIs(user: UserArea)
    ensures var h := Header(user);
      && h.numSlots == Signed16(Word16(user, 0)) && h.numRecords == Signed16(Word16(user, 2))
      && h.anchor == Signed16(Word16(user, 4)) && h.alignment == Word16(user, 6)
      && h.totalFree == Signed32(Word32(user, 8)) && h.contiguousFree == Signed32(Word32(user, 12))
      && h.freeAreaOffset == Signed32(Word32(user, 16))
  {
    Le2(user, 0);
    Le2(user, 2);
    Le2(user, 4);
    Le2(user, 6);
    Le4(user, 8);
    Le4(user, 12);
    Le4(user, 16);
    assert Pow256(2) == 0x1_0000 && Pow256(4) == 0x1_0000_0000;
  }

  lemma PowersOfTwo()
    ensures Pow2(14) == 0x4000 && Pow2(28) == 0x1000_0000
  {
    assert Pow2(7) == 128;
    ShlComposes(1, 7, 7);
    ShlIsMultiplication(128, 7);
    ShlComposes(1, 14, 14);
    ShlIsMultiplication(0x4000, 14);
  }

  lemma Fields14(x: nat)
    ensures Low(x, 14) == x % 0x4000 && Shr(x, 14) == x / 0x4000
  {
    PowersOfTwo();
    Split(x, 14);
    ShlIsMultiplication(Shr(x, 14), 14);
  }

  lemma Fields28(x: nat)
    ensures Shr(x, 28) == x / 0x1000_0000
  {
    PowersOfTwo();
    Split(x, 28);
    ShlIsMultiplication(Shr(x, 28), 28);
  }

  lemma SlotIs(user: UserArea, i: nat)
    requires 4 * (i + 1) <= 16_344
    ensures SlotAt(user, i) == SlotFact(i, SlotOffset(user, i), SlotLength(user, i), RecordTypeOf(SlotType(user, i)))
  {
    var at := 16_344 - 4 * (i + 1);
    var word := Word32(user, at);
    Le4(user, at);
    Mask14(word);
    Mask14(Shr(word, 14));
    Fields14(word);
    Fields14(Shr(word, 14));
    Fields28(word);
  }

  // ---- Accepted pages ----

  lemma HeaderAcceptedIff(user: UserArea, n: nat)
    ensures HeaderAccepted(user, n) <==> HeaderError(Header(user)).None? && Header(user).numSlots == n
  {
    HeaderIs(user);
  }

  lemma SlotAcceptedIff(user: UserArea, n: nat, i: nat)
    requires 4 * (i + 1) <= 16_344 && HeaderAccepted(user, n)
    ensures SlotError(Header(user), SlotAt(user, i)) ==
      if SlotAccepted(user, n, i) then None
      else Some(if SlotOffset(user, i) == 0 then "slotted.slot.empty_length" else "slotted.slot.record_bounds")
  {
    HeaderIs(user);
    SlotIs(user, i);
  }

  lemma {:induction false} SpanMembers(slots: seq<SlotFact>, x: Span)
    ensures x in Spans(slots) <==> exists i :: 0 <= i < |slots| && Occupied(slots[i]) && SpanOf(slots[i]) == x
  {
    if slots != [] {
      var n := |slots| - 1;
      SpanMembers(slots[..n], x);
      if i :| 0 <= i < |slots| && Occupied(slots[i]) && SpanOf(slots[i]) == x {
        assert i < n ==> slots[..n][i] == slots[i];
      }
      if i :| 0 <= i < n && Occupied(slots[..n][i]) && SpanOf(slots[..n][i]) == x {
        assert slots[i] == slots[..n][i];
      }
    }
  }

  ghost predicate SpansApart(slots: seq<SlotFact>)
  {
    forall i, j :: 0 <= i < j < |slots| ==>
      Occupied(slots[i]) && Occupied(slots[j]) ==> Apart(SpanOf(slots[i]), SpanOf(slots[j]))
  }

  lemma {:induction false} ApartIff(slots: seq<SlotFact>)
    ensures Pairwise(Spans(slots), Apart) <==> SpansApart(slots)
  {
    if slots != [] {
      var n, last := |slots| - 1, slots[|slots| - 1];
      var before := Spans(slots[..n]);
      ApartIff(slots[..n]);
      forall x
        ensures x in before <==> exists i :: 0 <= i < n && Occupied(slots[i]) && SpanOf(slots[i]) == x
      {
        SpanMembers(slots[..n], x);
      }
      LastApart(slots, before, n);
    }
  }

  // The spans of one more slot are apart if those before are, and it is apart from each of them.
  lemma LastApart(slots: seq<SlotFact>, before: seq<Span>, n: nat)
    requires n + 1 == |slots| && before == Spans(slots[..n])
    requires Pairwise(before, Apart) <==> SpansApart(slots[..n])
    requires forall x :: x in before <==> exists i :: 0 <= i < n && Occupied(slots[i]) && SpanOf(slots[i]) == x
    ensures Pairwise(Spans(slots), Apart) <==> SpansApart(slots)
  {
    var all, last := Spans(slots), SpanOf(slots[n]);
    if Pairwise(all, Apart) {
      forall i, j | 0 <= i < j < |slots| && Occupied(slots[i]) && Occupied(slots[j])
        ensures Apart(SpanOf(slots[i]), SpanOf(slots[j]))
      {
        assert forall k, l :: 0 <= k < l < |before| ==> all[k] == before[k] && all[l] == before[l];
        if j == n {
          assert SpanOf(slots[i]) in before;
          var k :| 0 <= k < |before| && before[k] == SpanOf(slots[i]);
          assert Apart(all[k], all[|before|]);
        } else {
          assert slots[..n][i] == slots[i] && slots[..n][j] == slots[j];
        }
      }
    }
    if SpansApart(slots) {
      assert forall i, j :: 0 <= i < j < n ==> slots[..n][i] == slots[i] && slots[..n][j] == slots[j];
      forall k, l | 0 <= k < l < |all|
        ensures Apart(all[k], all[l])
      {
        if l == |before| {
          assert all[k] in before;
        } else {
          assert all[k] == before[k] && all[l] == before[l];
        }
      }
    }
  }

  lemma {:induction false} SpanCount(slots: seq<SlotFact>)
    ensures |Spans(slots)| == |set i: nat | i < |slots| && Occupied(slots[i])|
  {
    var occupied := set i: nat | i < |slots| && Occupied(slots[i]);
    if slots == [] {
      assert occupied == {};
    } else {
      var n, rest := |slots| - 1, slots[..|slots| - 1];
      var before := set i: nat | i < |rest| && Occupied(rest[i]);
      SpanCount(rest);
      assert occupied - {n} == before;
      assert n in occupied <==> Occupied(slots[n]);
    }
  }

  // The decoder accepts exactly the pages whose numbers are in order.
  lemma AcceptedIff(t: PageType, user: UserArea)
    ensures Acceptable(t, user) <==> exists n :: Accepted(t, user, n)
  {
    var h := Header(user);
    if h.numSlots >= 0 && HeaderError(h).None? {
      AcceptedDirectory(t, user, h.numSlots);
    }
    forall n | Accepted(t, user, n)
      ensures HeaderError(h).None? && h.numSlots == n
    {
      HeaderAcceptedIff(user, n);
    }
    if h.numSlots >= 0 {
      HeaderAcceptedIff(user, h.numSlots);
    }
  }

  lemma AllSlotsAccepted(user: UserArea, n: nat)
    requires HeaderAccepted(user, n) && Header(user).alignment > 0
    ensures SlotsAccepted(Header(user), Directory(user, n)) <==> forall i: nat :: i < n ==> SlotAccepted(user, n, i)
  {
    forall i: nat | i < n
      ensures SlotAccepted(user, n, i) <==> SlotError(Header(user), Directory(user, n)[i]).None?
    {
      SlotAcceptedIff(user, n, i);
    }
  }

  lemma AllSlotsDisjoint(user: UserArea, n: nat)
    requires 4 * n <= 16_344
    ensures Pairwise(Spans(Directory(user, n)), Apart)
       <==> forall i: nat, j: nat :: i < j < n ==> SlotsDisjoint(user, i, j)
  {
    var slots := Directory(user, n);
    ApartIff(slots);
    forall i: nat, j: nat | i < j < n
      ensures SlotsDisjoint(user, i, j) <==>
        (Occupied(slots[i]) && Occupied(slots[j]) ==> Apart(SpanOf(slots[i]), SpanOf(slots[j])))
    {
      SlotIs(user, i);
      SlotIs(user, j);
    }
  }

  lemma RecordCountIs(user: UserArea, n: nat)
    requires 4 * n <= 16_344
    ensures |Spans(Directory(user, n))| == |set i: nat | i < n && SlotOffset(user, i) != 0|
  {
    var slots := Directory(user, n);
    SpanCount(slots);
    forall i: nat | i < n
      ensures Occupied(slots[i]) <==> SlotOffset(user, i) != 0
    {
      SlotIs(user, i);
    }
    assert (set i: nat | i < n && SlotOffset(user, i) != 0) == (set i: nat | i < n && Occupied(slots[i]));
  }

  lemma AcceptedDirectory(t: PageType, user: UserArea, n: nat)
    requires HeaderError(Header(user)).None? && Header(user).numSlots == n
    ensures Acceptable(t, user) <==> Accepted(t, user, n)
  {
    HeaderAcceptedIff(user, n);
    HeaderIs(user);
    AllSlotsAccepted(user, n);
    AllSlotsDisjoint(user, n);
    RecordCountIs(user, n);
  }

  // ---- The distribution of an accepted page ----

  // The record of slot i.
  function RecordAt(user: UserArea, i: nat): Extent
    requires 4 * (i + 1) <= 16_344
  {
    Extent(i, SlotOffset(user, i), SlotLength(user, i), RecordTypeOf(SlotType(user, i)))
  }

  predicate HasRecord(user: UserArea, i: nat)
    requires 4 * (i + 1) <= 16_344
  {
    SlotOffset(user, i) != 0 && !SlotDeleted(user, i)
  }

  function EntryAt(user: UserArea, i: nat): SlotEntry
    requires 4 * (i + 1) <= 16_344
  {
    SlotEntry(i, 16_344 - 4 * (i + 1), 4,
              if SlotDeleted(user, i) then Deleted else if SlotOffset(user, i) != 0 then Allocated else Unallocated)
  }

  // The records are those of the n slots that have one, by offset; each slot has its entry.
  ghost predicate Shows(user: UserArea, n: nat, d: Distribution)
    requires 4 * n <= 16_344
  {
    && d.contentSize == 16_344 && d.headerLength == 32
    && d.directoryOffset == 16_344 - 4 * n && d.directoryLength == 4 * n
    && (forall e :: e in d.records <==> exists i: nat :: i < n && HasRecord(user, i) && e == RecordAt(user, i))
    && (forall i, j :: 0 <= i < j < |d.records| ==>
          || d.records[i].offset < d.records[j].offset
          || (d.records[i].offset == d.records[j].offset && d.records[i].slotId < d.records[j].slotId))
    && |d.entries| == n && forall i :: 0 <= i < n ==> d.entries[i] == EntryAt(user, i)
  }

  lemma {:induction false} LiveMembers(slots: seq<SlotFact>, e: Extent)
    ensures e in LiveExtents(slots) <==> exists i :: 0 <= i < |slots| && Live(slots[i]) && e == ExtentOf(slots[i])
  {
    if slots != [] {
      LiveMembers(slots[1..], e);
      if i :| 0 <= i < |slots| && Live(slots[i]) && e == ExtentOf(slots[i]) {
        assert i > 0 ==> slots[1..][i - 1] == slots[i];
      }
      if i :| 0 <= i < |slots| - 1 && Live(slots[1..][i]) && e == ExtentOf(slots[1..][i]) {
        assert slots[i + 1] == slots[1..][i];
      }
    }
  }

  lemma SlotMeans(user: UserArea, n: nat, i: nat)
    requires i < n && 4 * n <= 16_344
    ensures var slot := Directory(user, n)[i];
      && (Live(slot) <==> HasRecord(user, i)) && ExtentOf(slot) == RecordAt(user, i)
      && Entries(Directory(user, n))[i] == EntryAt(user, i)
  {
    SlotIs(user, i);
  }

  lemma RecordsMean(user: UserArea, n: nat, e: Extent)
    requires 4 * n <= 16_344
    ensures e in SortedExtents(Directory(user, n)) <==>
      exists i: nat :: i < n && HasRecord(user, i) && e == RecordAt(user, i)
  {
    var slots := Directory(user, n);
    LiveMembers(slots, e);
    assert e in multiset(SortedExtents(slots)) <==> e in multiset(LiveExtents(slots));
    forall i: nat | i < n
      ensures (Live(slots[i]) <==> HasRecord(user, i)) && ExtentOf(slots[i]) == RecordAt(user, i)
    {
      SlotMeans(user, n, i);
    }
  }

  lemma {:induction false} LiveOnce(slots: seq<SlotFact>, i: nat, j: nat)
    requires forall k, l :: 0 <= k < l < |slots| ==> slots[k].slotId < slots[l].slotId
    requires i < j < |LiveExtents(slots)|
    ensures LiveExtents(slots)[i].slotId < LiveExtents(slots)[j].slotId
  {
    var rest := slots[1..];
    assert forall k, l :: 0 <= k < l < |rest| ==> rest[k] == slots[k + 1] && rest[l] == slots[l + 1];
    if Live(slots[0]) {
      var e := LiveExtents(rest)[j - 1];
      LiveMembers(rest, e);
      var l :| 0 <= l < |rest| && Live(rest[l]) && e == ExtentOf(rest[l]);
      assert rest[l] == slots[l + 1];
      if i > 0 {
        LiveOnce(rest, i - 1, j - 1);
      }
    } else {
      LiveOnce(rest, i, j);
    }
  }

  // The records are in order of offset and slot.
  lemma RecordsOrdered(user: UserArea, n: nat, i: nat, j: nat)
    requires 4 * n <= 16_344 && i < j < |SortedExtents(Directory(user, n))|
    ensures var x, y := SortedExtents(Directory(user, n))[i], SortedExtents(Directory(user, n))[j];
      x.offset < y.offset || (x.offset == y.offset && x.slotId < y.slotId)
  {
    var slots := Directory(user, n);
    var live, sorted := LiveExtents(slots), SortedExtents(slots);
    SortOrders(live, ExtentKey);
    assert LexLe(ExtentKey(sorted[i]), ExtentKey(sorted[j]));
    IdsDiffer(slots);
    PairwisePermutes(live, sorted, OtherSlot);
    assert OtherSlot(sorted[i], sorted[j]);
  }

  predicate OtherSlot(x: Extent, y: Extent)
  {
    x.slotId != y.slotId
  }

  lemma IdsDiffer(slots: seq<SlotFact>)
    requires forall k, l :: 0 <= k < l < |slots| ==> slots[k].slotId < slots[l].slotId
    ensures Pairwise(LiveExtents(slots), OtherSlot)
  {
    forall i, j | 0 <= i < j < |LiveExtents(slots)|
      ensures OtherSlot(LiveExtents(slots)[i], LiveExtents(slots)[j])
    {
      LiveOnce(slots, i, j);
    }
  }

  // A record of slot i is shown exactly if the slot has an offset and a type other than the two
  // deleted ones; it is shown with the slot's offset, length and type.
  lemma DistributionShows(t: PageType, user: UserArea)
    requires Acceptable(t, user)
    ensures Header(user).numSlots >= 0 && 4 * Header(user).numSlots <= 16_344
    ensures Shows(user, Header(user).numSlots,
                  Projection(Directory(user, Header(user).numSlots), Header(user).freeAreaOffset))
  {
    var n: nat := Header(user).numSlots;
    var d := Projection(Directory(user, n), Header(user).freeAreaOffset);
    forall e
      ensures e in d.records <==> exists i: nat :: i < n && HasRecord(user, i) && e == RecordAt(user, i)
    {
      RecordsMean(user, n, e);
    }
    forall i, j | 0 <= i < j < |d.records|
      ensures d.records[i].offset < d.records[j].offset
        || (d.records[i].offset == d.records[j].offset && d.records[i].slotId < d.records[j].slotId)
    {
      RecordsOrdered(user, n, i, j);
    }
    forall i | 0 <= i < n
      ensures d.entries[i] == EntryAt(user, i)
    {
      SlotMeans(user, n, i);
    }
  }
}
