// The byte geometry of one slotted page: `page_distribution_projection` and
// `push_free_region` in `src/projection.rs`.
module PageDistribution {
  import opened Wrappers
  import opened Pages
  import opened Sorting
  import opened SlottedFormat

  datatype Extent = Extent(slotId: nat, offset: nat, length: nat, recordType: RecordType)
  {
    function End(): nat
    {
      offset + length
    }
  }

  datatype FreeKind = FragmentedFree | ContiguousFree

  datatype FreeRegion = FreeRegion(offset: nat, length: nat, kind: FreeKind)
  {
    function End(): nat
    {
      offset + length
    }
  }

  datatype EntryState = Allocated | Unallocated | Deleted

  datatype SlotEntry = SlotEntry(slotId: nat, offset: int, length: nat, state: EntryState)

  datatype Distribution = Distribution(
    contentSize: nat,
    headerLength: nat,
    records: seq<Extent>,
    freeRegions: seq<FreeRegion>,
    directoryOffset: nat,
    directoryLength: nat,
    entries: seq<SlotEntry>,
    allocatedBytes: nat,
    unoccupiedBytes: nat)

  function Max(x: nat, y: nat): nat
  {
    if x < y then y else x
  }

  // ---- Live records ----

  predicate Live(slot: SlotFact)
  {
    Occupied(slot) && !Tombstone(slot.recordType)
  }

  function ExtentOf(slot: SlotFact): Extent
  {
    Extent(slot.slotId, slot.offset, slot.length, slot.recordType)
  }

  function LiveExtents(slots: seq<SlotFact>): seq<Extent>
  {
    if slots == [] then []
    else (if Live(slots[0]) then [ExtentOf(slots[0])] else []) + LiveExtents(slots[1..])
  }

  function ExtentKey(e: Extent): (nat, nat)
  {
    (e.offset, e.slotId)
  }

  function SortedExtents(slots: seq<SlotFact>): seq<Extent>
  {
    Sort(LiveExtents(slots), ExtentKey)
  }

  // ---- The sweep ----

  // What `push_free_region` appends for the gap from start to end.
  function Gap(start: nat, end: nat, directory: nat, freeArea: nat): seq<FreeRegion>
  {
    if start >= end then []
    else if end == directory && start < freeArea < end then
      [FreeRegion(start, freeArea - start, FragmentedFree), FreeRegion(freeArea, end - freeArea, ContiguousFree)]
    else
      [FreeRegion(start, end - start,
                  if end == directory && start == freeArea then ContiguousFree else FragmentedFree)]
  }

  function Sweep(records: seq<Extent>, cursor: nat, directory: nat, freeArea: nat): seq<FreeRegion>
  {
    if records == [] then Gap(cursor, directory, directory, freeArea)
    else Gap(cursor, records[0].offset, directory, freeArea)
         + Sweep(records[1..], Max(cursor, records[0].End()), directory, freeArea)
  }

  function RecordBytes(records: seq<Extent>): nat
  {
    if records == [] then 0 else records[0].length + RecordBytes(records[1..])
  }

  function FreeBytes(regions: seq<FreeRegion>): nat
  {
    if regions == [] then 0 else regions[0].length + FreeBytes(regions[1..])
  }

  function StateOf(slot: SlotFact): EntryState
  {
    if Tombstone(slot.recordType) then Deleted else if Occupied(slot) then Allocated else Unallocated
  }

  function Entries(slots: seq<SlotFact>): (r: seq<SlotEntry>)
    ensures |r| == |slots|
  {
    seq(|slots|, i requires 0 <= i < |slots| =>
      SlotEntry(slots[i].slotId, DB_PAGE_SIZE - (slots[i].slotId + 1) * SLOT_SIZE, SLOT_SIZE, StateOf(slots[i])))
  }

  method PushFreeRegion(regions: seq<FreeRegion>, start: nat, end: nat, directory: nat, freeArea: nat)
    returns (pushed: seq<FreeRegion>)
    requires start < end
    ensures pushed == regions + Gap(start, end, directory, freeArea)
  {
    if end == directory && start < freeArea && freeArea < end {
      pushed := regions + [FreeRegion(start, freeArea - start, FragmentedFree)];
      pushed := pushed + [FreeRegion(freeArea, end - freeArea, ContiguousFree)];
    } else {
      pushed := regions + [FreeRegion(start, end - start,
                                      if end == directory && start == freeArea then ContiguousFree
                                      else FragmentedFree)];
    }
  }

  // The regions found so far, followed by what the sweep finds from record i on.
  ghost predicate SweptTo(records: seq<Extent>, regions: seq<FreeRegion>, i: nat, cursor: nat,
                          directory: nat, freeArea: nat)
    requires i <= |records|
  {
    regions + Sweep(records[i..], cursor, directory, freeArea) == Sweep(records, HEADER_SIZE, directory, freeArea)
  }

  lemma SweepOne(records: seq<Extent>, regions: seq<FreeRegion>, i: nat, cursor: nat, directory: nat, freeArea: nat)
    requires i < |records| && SweptTo(records, regions, i, cursor, directory, freeArea)
    ensures SweptTo(records, regions + Gap(cursor, records[i].offset, directory, freeArea), i + 1,
                    Max(cursor, records[i].End()), directory, freeArea)
  {
    var gap := Gap(cursor, records[i].offset, directory, freeArea);
    var rest := Sweep(records[i + 1..], Max(cursor, records[i].End()), directory, freeArea);
    assert records[i..][1..] == records[i + 1..];
    assert regions + (gap + rest) == (regions + gap) + rest;
  }

  method SweepFree(records: seq<Extent>, directory: nat, freeArea: nat) returns (regions: seq<FreeRegion>)
    ensures regions == Sweep(records, HEADER_SIZE, directory, freeArea)
  {
    regions := [];
    var cursor: nat := HEADER_SIZE;
    for i := 0 to |records|
      invariant SweptTo(records, regions, i, cursor, directory, freeArea)
    {
      ghost var before := regions;
      if cursor < records[i].offset {
        regions := PushFreeRegion(regions, cursor, records[i].offset, directory, freeArea);
      }
      assert regions == before + Gap(cursor, records[i].offset, directory, freeArea);
      SweepOne(records, before, i, cursor, directory, freeArea);
      cursor := if cursor < records[i].End() then records[i].End() else cursor;
    }
    if cursor < directory {
      regions := PushFreeRegion(regions, cursor, directory, directory, freeArea);
    }
  }

  function DirectoryOffset(slots: seq<SlotFact>): nat
    requires |slots| * SLOT_SIZE <= DB_PAGE_SIZE
  {
    DB_PAGE_SIZE - |slots| * SLOT_SIZE
  }

  function FreeOf(slots: seq<SlotFact>, freeArea: nat): seq<FreeRegion>
    requires |slots| * SLOT_SIZE <= DB_PAGE_SIZE
  {
    Sweep(SortedExtents(slots), HEADER_SIZE, DirectoryOffset(slots), freeArea)
  }

  function Projection(slots: seq<SlotFact>, freeArea: nat): Distribution
    requires |slots| * SLOT_SIZE <= DB_PAGE_SIZE
  {
    Distribution(DB_PAGE_SIZE, HEADER_SIZE, SortedExtents(slots), FreeOf(slots, freeArea), DirectoryOffset(slots),
                 |slots| * SLOT_SIZE, Entries(slots), RecordBytes(SortedExtents(slots)),
                 FreeBytes(FreeOf(slots, freeArea)))
  }

  // The projection of a page whose slot directory lies within the page.
  method Project(slots: seq<SlotFact>, freeArea: nat) returns (d: Distribution)
    requires |slots| * SLOT_SIZE <= DB_PAGE_SIZE
    ensures d == Projection(slots, freeArea)
  {
    var length := |slots| * SLOT_SIZE;
    var offset := DB_PAGE_SIZE - length;
    var records := Sort(LiveExtents(slots), ExtentKey);
    assert records == SortedExtents(slots);
    var regions := SweepFree(records, offset, freeArea);
    assert regions == FreeOf(slots, freeArea);
    d := Distribution(DB_PAGE_SIZE, HEADER_SIZE, records, regions, offset, length, Entries(slots),
                      RecordBytes(records), FreeBytes(regions));
  }

  // ---- Free regions are the uncovered bytes ----

  predicate Covers(e: Extent, b: nat)
  {
    e.offset <= b < e.End()
  }

  predicate Covered(records: seq<Extent>, b: nat)
  {
    exists i :: 0 <= i < |records| && Covers(records[i], b)
  }

  predicate IsFree(regions: seq<FreeRegion>, b: nat)
  {
    exists i :: 0 <= i < |regions| && regions[i].offset <= b < regions[i].End()
  }

  predicate EndBy(records: seq<Extent>, limit: nat)
  {
    forall i :: 0 <= i < |records| ==> records[i].End() <= limit
  }

  predicate InOrder(records: seq<Extent>)
  {
    forall i, j :: 0 <= i < j < |records| ==> records[i].offset <= records[j].offset
  }

  // Regions from start to end, ascending, nonempty and disjoint.
  predicate Separated(regions: seq<FreeRegion>, start: nat, end: nat)
  {
    && (forall i :: 0 <= i < |regions| ==>
          start <= regions[i].offset && 0 < regions[i].length && regions[i].End() <= end)
    && (forall i, j :: 0 <= i < j < |regions| ==> regions[i].End() <= regions[j].offset)
  }

  lemma SeparatedJoin(a: seq<FreeRegion>, b: seq<FreeRegion>, start: nat, middle: nat, end: nat)
    requires Separated(a, start, middle) && Separated(b, middle, end) && start <= middle <= end
    ensures Separated(a + b, start, end)
  {
  }

  lemma {:induction false} FreeRegionsSeparated(records: seq<Extent>, cursor: nat, directory: nat, freeArea: nat)
    requires EndBy(records, directory)
    ensures Separated(Sweep(records, cursor, directory, freeArea), cursor, Max(cursor, directory))
  {
    if records != [] {
      var next := Max(cursor, records[0].End());
      FreeRegionsSeparated(records[1..], next, directory, freeArea);
      assert records[0].End() <= directory;
      SeparatedJoin(Gap(cursor, records[0].offset, directory, freeArea),
                    Sweep(records[1..], next, directory, freeArea), cursor, next, Max(cursor, directory));
    }
  }

  lemma JoinIsFree(a: seq<FreeRegion>, b: seq<FreeRegion>, at: nat)
    ensures IsFree(a + b, at) <==> IsFree(a, at) || IsFree(b, at)
  {
    if IsFree(a, at) {
      var i :| 0 <= i < |a| && a[i].offset <= at < a[i].End();
      assert (a + b)[i] == a[i];
    }
    if IsFree(b, at) {
      var i :| 0 <= i < |b| && b[i].offset <= at < b[i].End();
      assert (a + b)[|a| + i] == b[i];
    }
  }

  lemma GapIsFree(start: nat, end: nat, directory: nat, freeArea: nat, at: nat)
    ensures IsFree(Gap(start, end, directory, freeArea), at) <==> start <= at < end
  {
    var gap := Gap(start, end, directory, freeArea);
    if start <= at < end {
      assert |gap| == 2 ==> gap[1].offset <= at < gap[1].End() || gap[0].offset <= at < gap[0].End();
      assert |gap| == 1 ==> gap[0].offset <= at < gap[0].End();
    }
  }

  lemma CoveredSplits(records: seq<Extent>, b: nat)
    requires records != []
    ensures Covered(records, b) <==> Covers(records[0], b) || Covered(records[1..], b)
  {
    if Covered(records[1..], b) {
      var i :| 0 <= i < |records| - 1 && Covers(records[1..][i], b);
      assert Covers(records[i + 1], b);
    }
    if Covered(records, b) && !Covers(records[0], b) {
      var i :| 0 <= i < |records| && Covers(records[i], b);
      assert Covers(records[1..][i - 1], b);
    }
  }

  // The free regions are exactly the bytes between cursor and directory no record covers.
  lemma {:induction false} FreeIsUncovered(records: seq<Extent>, cursor: nat, directory: nat, freeArea: nat, b: nat)
    requires InOrder(records) && EndBy(records, directory)
    ensures IsFree(Sweep(records, cursor, directory, freeArea), b)
       <==> cursor <= b < directory && !Covered(records, b)
  {
    if records == [] {
      GapIsFree(cursor, directory, directory, freeArea, b);
    } else {
      var first, rest, next := records[0], records[1..], Max(cursor, records[0].End());
      FreeIsUncovered(rest, next, directory, freeArea, b);
      JoinIsFree(Gap(cursor, first.offset, directory, freeArea), Sweep(rest, next, directory, freeArea), b);
      GapIsFree(cursor, first.offset, directory, freeArea, b);
      CoveredSplits(records, b);
      if b < first.offset {
        assert forall i :: 0 <= i < |rest| ==> first.offset <= rest[i].offset;
        assert !Covered(rest, b);
      }
      assert first.End() <= directory;
    }
  }

  // ---- The contiguous region ----

  predicate HasContiguous(regions: seq<FreeRegion>)
  {
    exists i :: 0 <= i < |regions| && regions[i].kind == ContiguousFree
  }

  lemma {:induction false} ContiguousShape(records: seq<Extent>, cursor: nat, directory: nat, freeArea: nat)
    ensures forall f :: f in Sweep(records, cursor, directory, freeArea) ==>
      (f.kind == ContiguousFree <==> f.offset == freeArea && f.End() == directory)
  {
    if records != [] {
      ContiguousShape(records[1..], Max(cursor, records[0].End()), directory, freeArea);
    }
  }

  // Records that start before the directory end at or before the free area.
  predicate FreeAreaClear(records: seq<Extent>, directory: nat, freeArea: nat)
  {
    forall i :: 0 <= i < |records| && records[i].offset < directory ==> records[i].End() <= freeArea
  }

  lemma HasContiguousJoin(a: seq<FreeRegion>, b: seq<FreeRegion>)
    ensures HasContiguous(a + b) <==> HasContiguous(a) || HasContiguous(b)
  {
    if HasContiguous(a) {
      var i :| 0 <= i < |a| && a[i].kind == ContiguousFree;
      assert (a + b)[i].kind == ContiguousFree;
    }
    if HasContiguous(b) {
      var i :| 0 <= i < |b| && b[i].kind == ContiguousFree;
      assert (a + b)[|a| + i].kind == ContiguousFree;
    }
  }

  lemma GapContiguous(start: nat, end: nat, directory: nat, freeArea: nat)
    ensures HasContiguous(Gap(start, end, directory, freeArea)) <==>
      end == directory && start <= freeArea < end
  {
    var gap := Gap(start, end, directory, freeArea);
    if end == directory && start < freeArea < end {
      assert gap[1].kind == ContiguousFree;
    } else if end == directory && start == freeArea < end {
      assert gap[0].kind == ContiguousFree;
    }
  }

  lemma {:induction false} ContiguousExists(records: seq<Extent>, cursor: nat, directory: nat, freeArea: nat)
    requires InOrder(records) && EndBy(records, directory)
    ensures HasContiguous(Sweep(records, cursor, directory, freeArea)) <==>
      cursor <= freeArea < directory && FreeAreaClear(records, directory, freeArea)
  {
    if records == [] {
      GapContiguous(cursor, directory, directory, freeArea);
    } else {
      var first, rest, next := records[0], records[1..], Max(cursor, records[0].End());
      ContiguousExists(rest, next, directory, freeArea);
      HasContiguousJoin(Gap(cursor, first.offset, directory, freeArea), Sweep(rest, next, directory, freeArea));
      GapContiguous(cursor, first.offset, directory, freeArea);
      assert first.End() <= directory;
      assert FreeAreaClear(records, directory, freeArea) <==>
        (first.offset < directory ==> first.End() <= freeArea) && FreeAreaClear(rest, directory, freeArea);
      if first.offset == directory {
        assert forall i :: 0 <= i < |rest| ==> first.offset <= rest[i].offset;
      }
    }
  }

  // ---- Byte sums ----

  // The record bytes the sweep meets a second time, or before the cursor.
  function Excess(records: seq<Extent>, cursor: nat): nat
  {
    if records == [] then 0
    else
      var behind := if cursor > records[0].offset then cursor - records[0].offset else 0;
      (if records[0].length < behind then records[0].length else behind)
      + Excess(records[1..], Max(cursor, records[0].End()))
  }

  lemma {:induction false} FreeBytesJoin(a: seq<FreeRegion>, b: seq<FreeRegion>)
    ensures FreeBytes(a + b) == FreeBytes(a) + FreeBytes(b)
  {
    if a == [] {
      assert a + b == b;
    } else {
      assert (a + b)[1..] == a[1..] + b;
      FreeBytesJoin(a[1..], b);
    }
  }

  lemma GapBytes(start: nat, end: nat, directory: nat, freeArea: nat)
    ensures FreeBytes(Gap(start, end, directory, freeArea)) == if start < end then end - start else 0
  {
    var gap := Gap(start, end, directory, freeArea);
    if |gap| == 2 {
      assert FreeBytes(gap[1..]) == gap[1].length;
    } else if |gap| == 1 {
      assert FreeBytes(gap[1..]) == 0;
    }
  }

  lemma {:induction false} SweepBytes(records: seq<Extent>, cursor: nat, directory: nat, freeArea: nat)
    requires EndBy(records, directory) && cursor <= directory
    ensures FreeBytes(Sweep(records, cursor, directory, freeArea)) + RecordBytes(records)
         == directory - cursor + Excess(records, cursor)
  {
    if records == [] {
      GapBytes(cursor, directory, directory, freeArea);
    } else {
      var next := Max(cursor, records[0].End());
      assert records[0].End() <= directory;
      SweepBytes(records[1..], next, directory, freeArea);
      GapBytes(cursor, records[0].offset, directory, freeArea);
      FreeBytesJoin(Gap(cursor, records[0].offset, directory, freeArea),
                    Sweep(records[1..], next, directory, freeArea));
    }
  }

  // Two records without a common byte.
  ghost predicate Disjoint(x: Extent, y: Extent)
  {
    forall b: nat :: !(Covers(x, b) && Covers(y, b))
  }

  ghost predicate StartFrom(records: seq<Extent>, start: nat)
  {
    forall i, b: nat :: 0 <= i < |records| && Covers(records[i], b) ==> start <= b
  }

  lemma FirstExcess(first: Extent, rest: seq<Extent>, cursor: nat)
    requires forall i :: 0 <= i < |rest| ==> first.offset <= rest[i].offset
    ensures StartFrom([first] + rest, cursor) && (forall i :: 0 <= i < |rest| ==> Disjoint(first, rest[i])) <==>
      (first.length == 0 || cursor <= first.offset) && StartFrom(rest, Max(cursor, first.End()))
  {
    var all := [first] + rest;
    if StartFrom(all, cursor) && (forall i :: 0 <= i < |rest| ==> Disjoint(first, rest[i])) {
      if first.length > 0 {
        assert Covers(all[0], first.offset);
      }
      forall i, b: nat | 0 <= i < |rest| && Covers(rest[i], b)
        ensures Max(cursor, first.End()) <= b
      {
        assert Covers(all[i + 1], b);
        assert Covers(rest[i], rest[i].offset);
        assert !Covers(first, rest[i].offset);
      }
    }
    if (first.length == 0 || cursor <= first.offset) && StartFrom(rest, Max(cursor, first.End())) {
      forall i, b: nat | 0 <= i < |all| && Covers(all[i], b)
        ensures cursor <= b
      {
        if i > 0 {
          assert Covers(rest[i - 1], b);
        }
      }
      forall i | 0 <= i < |rest|
        ensures Disjoint(first, rest[i])
      {
        forall b: nat | Covers(rest[i], b)
          ensures !Covers(first, b)
        {
        }
      }
    }
  }

  // Nothing is met twice exactly when no two records share a byte and none starts early.
  lemma {:induction false} NoExcessIffDisjoint(records: seq<Extent>, cursor: nat)
    requires InOrder(records)
    ensures Excess(records, cursor) == 0 <==> StartFrom(records, cursor) && Pairwise(records, Disjoint)
  {
    if records != [] {
      var first, rest := records[0], records[1..];
      NoExcessIffDisjoint(rest, Max(cursor, first.End()));
      FirstExcess(first, rest, cursor);
      assert records == [first] + rest;
      assert Pairwise(records, Disjoint) <==>
        (forall i :: 0 <= i < |rest| ==> Disjoint(first, rest[i])) && Pairwise(rest, Disjoint);
    }
  }

  // ---- The theorems about the projection ----

  lemma SortedFacts(slots: seq<SlotFact>)
    ensures InOrder(SortedExtents(slots))
    ensures multiset(SortedExtents(slots)) == multiset(LiveExtents(slots))
  {
    var records := SortedExtents(slots);
    SortOrders(LiveExtents(slots), ExtentKey);
    forall i, j | 0 <= i < j < |records|
      ensures records[i].offset <= records[j].offset
    {
      assert LexLe(ExtentKey(records[i]), ExtentKey(records[j]));
    }
  }

  lemma SweptExactly(records: seq<Extent>, directory: nat, freeArea: nat)
    requires InOrder(records) && EndBy(records, directory) && HEADER_SIZE <= directory
    ensures var regions := Sweep(records, HEADER_SIZE, directory, freeArea);
      && Separated(regions, HEADER_SIZE, directory)
      && forall b: nat :: IsFree(regions, b) <==> HEADER_SIZE <= b < directory && !Covered(records, b)
  {
    FreeRegionsSeparated(records, HEADER_SIZE, directory, freeArea);
    forall b: nat
      ensures IsFree(Sweep(records, HEADER_SIZE, directory, freeArea), b)
         <==> HEADER_SIZE <= b < directory && !Covered(records, b)
    {
      FreeIsUncovered(records, HEADER_SIZE, directory, freeArea, b);
    }
  }

  // Whatever the overlaps: if the live records end at or before the slot directory, the free
  // regions are ascending, nonempty, disjoint and exactly the uncovered bytes in between.
  lemma FreeRegionsExact(slots: seq<SlotFact>, freeArea: nat)
    requires |slots| * SLOT_SIZE <= DB_PAGE_SIZE - HEADER_SIZE
    requires EndBy(SortedExtents(slots), DirectoryOffset(slots))
    ensures var d := Projection(slots, freeArea);
      && Separated(d.freeRegions, HEADER_SIZE, d.directoryOffset)
      && forall b: nat :: IsFree(d.freeRegions, b) <==>
           HEADER_SIZE <= b < d.directoryOffset && !Covered(d.records, b)
  {
    SortedFacts(slots);
    SweptExactly(SortedExtents(slots), DirectoryOffset(slots), freeArea);
  }

  lemma SweptContiguous(records: seq<Extent>, directory: nat, freeArea: nat)
    requires InOrder(records) && EndBy(records, directory) && HEADER_SIZE <= directory
    ensures var regions := Sweep(records, HEADER_SIZE, directory, freeArea);
      && (forall i :: 0 <= i < |regions| ==>
            (regions[i].kind == ContiguousFree <==> regions[i].offset == freeArea && regions[i].End() == directory))
      && (forall i, j :: 0 <= i < j < |regions| ==>
            !(regions[i].kind == ContiguousFree && regions[j].kind == ContiguousFree))
      && (HasContiguous(regions) <==>
            HEADER_SIZE <= freeArea < directory && FreeAreaClear(records, directory, freeArea))
  {
    ContiguousShape(records, HEADER_SIZE, directory, freeArea);
    ContiguousExists(records, HEADER_SIZE, directory, freeArea);
    FreeRegionsSeparated(records, HEADER_SIZE, directory, freeArea);
  }

  // A region is contiguous-free exactly when it is [free_area_offset, directory); there is at
  // most one, and there is one exactly when the records before the directory end by the
  // free area offset.
  lemma ContiguousRegionExact(slots: seq<SlotFact>, freeArea: nat)
    requires |slots| * SLOT_SIZE <= DB_PAGE_SIZE - HEADER_SIZE
    requires EndBy(SortedExtents(slots), DirectoryOffset(slots))
    ensures var d := Projection(slots, freeArea);
      && (forall i :: 0 <= i < |d.freeRegions| ==>
            (d.freeRegions[i].kind == ContiguousFree <==>
               d.freeRegions[i].offset == freeArea && d.freeRegions[i].End() == d.directoryOffset))
      && (forall i, j :: 0 <= i < j < |d.freeRegions| ==>
            !(d.freeRegions[i].kind == ContiguousFree && d.freeRegions[j].kind == ContiguousFree))
      && (HasContiguous(d.freeRegions) <==>
            HEADER_SIZE <= freeArea < d.directoryOffset && FreeAreaClear(d.records, d.directoryOffset, freeArea))
  {
    SortedFacts(slots);
    SweptContiguous(SortedExtents(slots), DirectoryOffset(slots), freeArea);
  }

  lemma SweptBytesAddUp(records: seq<Extent>, directory: nat, freeArea: nat)
    requires InOrder(records) && EndBy(records, directory) && HEADER_SIZE <= directory
    ensures HEADER_SIZE + RecordBytes(records) + FreeBytes(Sweep(records, HEADER_SIZE, directory, freeArea)) == directory
       <==> StartFrom(records, HEADER_SIZE) && Pairwise(records, Disjoint)
  {
    SweepBytes(records, HEADER_SIZE, directory, freeArea);
    NoExcessIffDisjoint(records, HEADER_SIZE);
  }

  // The byte sums add up to the page exactly when no two live records share a byte and none
  // reaches into the header.
  lemma BytesAddUpIffDisjoint(slots: seq<SlotFact>, freeArea: nat)
    requires |slots| * SLOT_SIZE <= DB_PAGE_SIZE - HEADER_SIZE
    requires EndBy(SortedExtents(slots), DirectoryOffset(slots))
    ensures var d := Projection(slots, freeArea);
      d.headerLength + d.allocatedBytes + d.unoccupiedBytes + d.directoryLength == d.contentSize
      <==> StartFrom(d.records, HEADER_SIZE) && Pairwise(d.records, Disjoint)
  {
    SortedFacts(slots);
    SweptBytesAddUp(SortedExtents(slots), DirectoryOffset(slots), freeArea);
  }

  // ---- Decoded pages are tiled ----

  predicate InHeader(d: Distribution, b: nat)
  {
    b < d.headerLength
  }

  predicate InEntry(d: Distribution, i: nat, b: nat)
    requires i < |d.entries|
  {
    d.entries[i].offset <= b < d.entries[i].offset + d.entries[i].length
  }

  predicate InDirectory(d: Distribution, b: nat)
  {
    exists i :: 0 <= i < |d.entries| && InEntry(d, i, b)
  }

  predicate ExactlyOne(a: bool, b: bool, c: bool, d: bool)
  {
    (a || b || c || d) && !(a && b) && !(a && c) && !(a && d) && !(b && c) && !(b && d) && !(c && d)
  }

  // Every byte of the page lies in exactly one of the header, one record, one free region or
  // one slot entry; nothing lies outside the page; the byte counts add up.
  ghost predicate Tiled(d: Distribution)
  {
    && (forall b: nat :: b < d.contentSize ==>
          ExactlyOne(InHeader(d, b), Covered(d.records, b), IsFree(d.freeRegions, b), InDirectory(d, b)))
    && (forall b: nat :: Covered(d.records, b) || IsFree(d.freeRegions, b) || InDirectory(d, b) ==> b < d.contentSize)
    && Pairwise(d.records, Disjoint)
    && Separated(d.freeRegions, HEADER_SIZE, d.directoryOffset)
    && (forall i, j, b: nat :: 0 <= i < j < |d.entries| ==> !(InEntry(d, i, b) && InEntry(d, j, b)))
    && d.headerLength + d.allocatedBytes + d.unoccupiedBytes + d.directoryLength == d.contentSize
  }

  lemma {:induction false} LiveAreOccupied(slots: seq<SlotFact>, e: Extent)
    ensures e in LiveExtents(slots) ==> exists i :: 0 <= i < |slots| && Occupied(slots[i]) && ExtentOf(slots[i]) == e
  {
    if slots != [] {
      LiveAreOccupied(slots[1..], e);
      if e in LiveExtents(slots[1..]) {
        var i :| 0 <= i < |slots| - 1 && Occupied(slots[1..][i]) && ExtentOf(slots[1..][i]) == e;
        assert ExtentOf(slots[i + 1]) == e;
      }
    }
  }

  lemma {:induction false} SpansOfLater(slots: seq<SlotFact>, i: nat) returns (k: nat)
    requires i < |slots| && Occupied(slots[i])
    ensures k < |Spans(slots)| && Spans(slots)[k] == SpanOf(slots[i]) && k == |Spans(slots[..i])|
  {
    var q := slots[..|slots| - 1];
    if i == |slots| - 1 {
      k := |Spans(q)|;
    } else {
      k := SpansOfLater(q, i);
      assert q[..i] == slots[..i];
    }
  }

  lemma {:induction false} SpansGrow(slots: seq<SlotFact>, i: nat, j: nat)
    requires i < j <= |slots| && Occupied(slots[i])
    ensures |Spans(slots[..i])| < |Spans(slots[..j])|
    decreases j
  {
    assert slots[..j][..j - 1] == slots[..j - 1];
    if i < j - 1 {
      SpansGrow(slots, i, j - 1);
    }
  }

  // Accepted slots occupy pairwise disjoint byte ranges.
  lemma {:induction false} SlotsApart(slots: seq<SlotFact>, i: nat, j: nat)
    requires Pairwise(Spans(slots), Apart) && i < j < |slots| && Occupied(slots[i]) && Occupied(slots[j])
    ensures Disjoint(ExtentOf(slots[i]), ExtentOf(slots[j]))
  {
    var k := SpansOfLater(slots, i);
    var l := SpansOfLater(slots, j);
    SpansGrow(slots, i, j);
    assert Apart(Spans(slots)[k], Spans(slots)[l]);
  }

  lemma {:induction false} LiveDisjoint(slots: seq<SlotFact>)
    requires forall i, j :: 0 <= i < j < |slots| && Occupied(slots[i]) && Occupied(slots[j]) ==>
      Disjoint(ExtentOf(slots[i]), ExtentOf(slots[j]))
    ensures Pairwise(LiveExtents(slots), Disjoint)
  {
    if slots != [] {
      var rest := slots[1..];
      assert forall i, j :: 0 <= i < j < |rest| ==> rest[i] == slots[i + 1] && rest[j] == slots[j + 1];
      LiveDisjoint(rest);
      if Live(slots[0]) {
        var later := LiveExtents(rest);
        forall j | 0 <= j < |later|
          ensures Disjoint(ExtentOf(slots[0]), later[j])
        {
          LiveAreOccupied(rest, later[j]);
          var i :| 0 <= i < |rest| && Occupied(rest[i]) && ExtentOf(rest[i]) == later[j];
          assert rest[i] == slots[i + 1];
        }
      }
    }
  }

  lemma DecodedGeometry(t: PageType, user: UserArea)
    requires Acceptable(t, user)
    ensures var h := Header(user);
      var slots := Directory(user, h.numSlots);
      var records := SortedExtents(slots);
      && EndBy(records, SlotStart(h)) && StartFrom(records, HEADER_SIZE) && Pairwise(records, Disjoint)
  {
    var h := Header(user);
    var slots := Directory(user, h.numSlots);
    var records := SortedExtents(slots);
    SortedFacts(slots);
    forall i | 0 <= i < |records|
      ensures HEADER_SIZE <= records[i].offset && records[i].End() <= SlotStart(h)
    {
      assert records[i] in multiset(records);
      assert records[i] in LiveExtents(slots);
      LiveAreOccupied(slots, records[i]);
      var j :| 0 <= j < |slots| && Occupied(slots[j]) && ExtentOf(slots[j]) == records[i];
      assert SlotError(h, slots[j]).None?;
    }
    forall i, j | 0 <= i < j < |slots| && Occupied(slots[i]) && Occupied(slots[j])
      ensures Disjoint(ExtentOf(slots[i]), ExtentOf(slots[j]))
    {
      SlotsApart(slots, i, j);
    }
    LiveDisjoint(slots);
    PairwisePermutes(LiveExtents(slots), records, Disjoint);
  }

  // The slot entries of a decoded directory fill it exactly.
  lemma EntriesFillDirectory(user: UserArea, n: nat, freeArea: nat, b: nat)
    requires n * SLOT_SIZE <= DB_PAGE_SIZE
    ensures var d := Projection(Directory(user, n), freeArea);
      InDirectory(d, b) <==> d.directoryOffset <= b < DB_PAGE_SIZE
  {
    var d := Projection(Directory(user, n), freeArea);
    if d.directoryOffset <= b < DB_PAGE_SIZE {
      var i := (DB_PAGE_SIZE - 1 - b) / SLOT_SIZE;
      assert InEntry(d, i, b);
    }
  }

  lemma EntriesDisjoint(user: UserArea, n: nat, freeArea: nat, i: nat, j: nat, b: nat)
    requires n * SLOT_SIZE <= DB_PAGE_SIZE && i < j < n
    ensures var d := Projection(Directory(user, n), freeArea);
      !(InEntry(d, i, b) && InEntry(d, j, b))
  {
  }

  lemma CoveredWithin(records: seq<Extent>, start: nat, end: nat, b: nat)
    requires StartFrom(records, start) && EndBy(records, end)
    ensures Covered(records, b) ==> start <= b < end
  {
    if Covered(records, b) {
      var i :| 0 <= i < |records| && Covers(records[i], b);
      assert records[i].End() <= end;
    }
  }

  // Every page the decoder accepts is tiled exactly by its projection.
  lemma DecodedPageIsTiled(t: PageType, user: UserArea)
    requires Acceptable(t, user)
    ensures Tiled(Projection(Directory(user, Header(user).numSlots), Header(user).freeAreaOffset))
  {
    var n: nat, freeArea: nat := Header(user).numSlots, Header(user).freeAreaOffset;
    var slots := Directory(user, n);
    var d := Projection(slots, freeArea);
    DecodedGeometry(t, user);
    FreeRegionsExact(slots, freeArea);
    BytesAddUpIffDisjoint(slots, freeArea);
    TiledFromParts(user, n, freeArea, d);
  }

  lemma AcceptedHeader(t: PageType, user: UserArea)
    requires Acceptable(t, user)
    ensures Header(user).numSlots >= 0 && Header(user).freeAreaOffset >= 0
    ensures |Directory(user, Header(user).numSlots)| * SLOT_SIZE <= DB_PAGE_SIZE
  {
  }

  // A page's distribution, as its detail view takes it from the decoded page: there is one
  // exactly for the pages the decoder accepts, and it tiles them.
  method DistributionOf(t: PageType, user: UserArea) returns (d: Option<Distribution>)
    ensures d.Some? <==> Acceptable(t, user)
    ensures d.Some? ==> Tiled(d.value) && d.value.entries == Entries(Directory(user, Header(user).numSlots))
    ensures d.Some? ==> d.value.records == SortedExtents(Directory(user, Header(user).numSlots))
    ensures d.Some? ==>
      d.value == Projection(Directory(user, Header(user).numSlots), Header(user).freeAreaOffset)
  {
    var decoded := DecodeSlotted(t, user);
    if decoded.Failure? {
      return None;
    }
    var page := decoded.value;
    AcceptedHeader(t, user);
    DecodedPageIsTiled(t, user);
    var projected := Project(page.slots, page.header.freeAreaOffset);
    d := Some(projected);
  }

  lemma TiledFromParts(user: UserArea, n: nat, freeArea: nat, d: Distribution)
    requires n * SLOT_SIZE <= DB_PAGE_SIZE - HEADER_SIZE && d == Projection(Directory(user, n), freeArea)
    requires EndBy(d.records, d.directoryOffset) && StartFrom(d.records, HEADER_SIZE)
    requires Pairwise(d.records, Disjoint) && Separated(d.freeRegions, HEADER_SIZE, d.directoryOffset)
    requires forall b: nat :: IsFree(d.freeRegions, b) <==>
               HEADER_SIZE <= b < d.directoryOffset && !Covered(d.records, b)
    requires d.headerLength + d.allocatedBytes + d.unoccupiedBytes + d.directoryLength == d.contentSize
    ensures Tiled(d)
  {
    forall b: nat
      ensures InDirectory(d, b) <==> d.directoryOffset <= b < d.contentSize
      ensures Covered(d.records, b) ==> HEADER_SIZE <= b < d.directoryOffset
    {
      EntriesFillDirectory(user, n, freeArea, b);
      CoveredWithin(d.records, HEADER_SIZE, d.directoryOffset, b);
    }
    forall i, j, b: nat | 0 <= i < j < |d.entries|
      ensures !(InEntry(d, i, b) && InEntry(d, j, b))
    {
      EntriesDisjoint(user, n, freeArea, i, j, b);
    }
  }

  // Slot ids are distinct, so the order of the records does not depend on the sort.
  lemma RecordOrderIsUnique(t: PageType, user: UserArea, other: seq<Extent>)
    requires Acceptable(t, user)
    requires Ordered(other, ExtentKey)
    requires multiset(other) == multiset(LiveExtents(Directory(user, Header(user).numSlots)))
    ensures other == SortedExtents(Directory(user, Header(user).numSlots))
  {
    var slots := Directory(user, Header(user).numSlots);
    var records := SortedExtents(slots);
    SortOrders(LiveExtents(slots), ExtentKey);
    forall x, y | x in records && y in records && ExtentKey(x) == ExtentKey(y)
      ensures x == y
    {
      assert x in multiset(records) && y in multiset(records);
      LiveAreOccupied(slots, x);
      LiveAreOccupied(slots, y);
    }
    OrderIsUnique(records, other, ExtentKey);
  }
}
