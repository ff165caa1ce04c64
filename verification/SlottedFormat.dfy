// Slot directories of slotted pages: `decode_slotted_page` in `src/format/slotted.rs`.
module SlottedFormat {
  import opened Wrappers
  import opened Bits
  import opened Bytes
  import opened Pages
  import opened Sorting

  const HEADER_SIZE: nat := 32
  const SLOT_SIZE: nat := 4

  datatype RecordType =
    | UnknownRecord | AssignAddress | Home | NewHome | Relocation | BigOne
    | MarkDeleted | DeletedWillReuse | ReservedType(value: nat)

  function RecordTypeOf(value: nat): RecordType
  {
    match value
    case 0 => UnknownRecord
    case 1 => AssignAddress
    case 2 => Home
    case 3 => NewHome
    case 4 => Relocation
    case 5 => BigOne
    case 6 => MarkDeleted
    case 7 => DeletedWillReuse
    case _ => ReservedType(value)
  }

  predicate Tombstone(t: RecordType)
  {
    t == MarkDeleted || t == DeletedWillReuse
  }

  datatype SlotFact = SlotFact(slotId: nat, offset: nat, length: nat, recordType: RecordType)

  datatype SlottedHeader = SlottedHeader(
    numSlots: int, numRecords: int, anchor: int, alignment: nat,
    totalFree: int, contiguousFree: int, freeAreaOffset: int)

  datatype SlottedPage = SlottedPage(header: SlottedHeader, slots: seq<SlotFact>)

  type UserArea = s: seq<byte> | |s| == DB_PAGE_SIZE witness seq(DB_PAGE_SIZE, i => 0)

  // ---- Header ----

  function ReadLe(user: UserArea, offset: nat, width: nat): nat
    requires offset + width <= DB_PAGE_SIZE
  {
    FromLe(user[offset..offset + width])
  }

  function Header(user: UserArea): SlottedHeader
  {
    SlottedHeader(
      Signed(ReadLe(user, 0, 2), 2), Signed(ReadLe(user, 2, 2), 2), Signed(ReadLe(user, 4, 2), 2),
      ReadLe(user, 6, 2),
      Signed(ReadLe(user, 8, 4), 4), Signed(ReadLe(user, 12, 4), 4), Signed(ReadLe(user, 16, 4), 4))
  }

  // Where the slot directory starts.
  function SlotStart(h: SlottedHeader): int
  {
    DB_PAGE_SIZE - h.numSlots * SLOT_SIZE
  }

  // The first header rule that is violated.
  function HeaderError(h: SlottedHeader): Option<string>
  {
    if h.numSlots < 0 then Some("slotted.header.num_slots")
    else if h.numRecords < 0 then Some("slotted.header.num_records")
    else if h.numRecords > h.numSlots then Some("slotted.header.record_count")
    else if !(1 <= h.anchor <= 4) then Some("slotted.header.anchor")
    else if h.alignment !in {1, 2, 4, 8} then Some("slotted.header.alignment")
    else if h.totalFree < 0 then Some("slotted.header.total_free")
    else if h.contiguousFree < 0 then Some("slotted.header.contiguous_free")
    else if h.freeAreaOffset < 0 then Some("slotted.header.free_area_offset")
    else if h.contiguousFree > h.totalFree then Some("slotted.header.free_space_order")
    else if SlotStart(h) < 0 then Some("slotted.slot_array.bounds")
    else if SlotStart(h) < HEADER_SIZE || h.freeAreaOffset < HEADER_SIZE || h.freeAreaOffset > SlotStart(h)
            || h.totalFree > DB_PAGE_SIZE - HEADER_SIZE then Some("slotted.header.free_area_bounds")
    else None
  }

  // ---- Slot words ----

  // `word & 0x3fff`, `(word >> 14) & 0x3fff` and `word >> 28`.
  function SlotOf(slotId: nat, word: nat): SlotFact
  {
    SlotFact(slotId, BitAnd(word, 0x3FFF), BitAnd(Shr(word, 14), 0x3FFF), RecordTypeOf(Shr(word, 28)))
  }

  function SlotWord(offset: nat, length: nat, ordinal: nat): nat
  {
    BitOr(Shl(ordinal, 28), BitOr(Shl(length, 14), offset))
  }

  lemma {:induction false} ShrComposes(x: nat, j: nat, k: nat)
    ensures Shr(Shr(x, j), k) == Shr(x, j + k)
  {
    if j > 0 {
      ShrComposes(x / 2, j - 1, k);
    }
  }

  lemma Mask14(x: nat)
    ensures BitAnd(x, 0x3FFF) == Low(x, 14)
  {
    assert Ones(7) == 127;
    OnesSplit(7, 7);
    AndField(x, 14, 0);
  }

  lemma {:induction false} ShiftOfSum(x: nat, y: nat, k: nat)
    ensures Shl(x + y, k) == Shl(x, k) + Shl(y, k)
  {
    if k > 0 {
      ShiftOfSum(x, y, k - 1);
    }
  }

  // Three fields, the lower two of width k, packed into one word.
  lemma PackedSum(high: nat, middle: nat, low: nat, k: nat)
    requires middle < Pow2(k) && low < Pow2(k)
    ensures BitOr(Shl(high, k + k), BitOr(Shl(middle, k), low)) == Shl(Shl(high, k) + middle, k) + low
  {
    OrOfDisjointFields(middle, low, k);
    ShiftOfSum(middle, 1, k);
    ShlMonotone(middle + 1, Pow2(k), k);
    ShlComposes(1, k, k);
    OrOfDisjointFields(high, Shl(middle, k) + low, k + k);
    ShiftOfSum(Shl(high, k), middle, k);
    ShlComposes(high, k, k);
  }

  lemma ThreeFields(high: nat, middle: nat, low: nat, k: nat)
    requires middle < Pow2(k) && low < Pow2(k)
    ensures var w := BitOr(Shl(high, k + k), BitOr(Shl(middle, k), low));
      Low(w, k) == low && Low(Shr(w, k), k) == middle && Shr(w, k + k) == high
  {
    PackedSum(high, middle, low, k);
    FieldsOfSum(Shl(high, k) + middle, low, k);
    FieldsOfSum(high, middle, k);
    ShrComposes(Shl(Shl(high, k) + middle, k) + low, k, k);
  }

  // The three fields of a slot word are recovered exactly.
  lemma SlotWordRoundTrip(slotId: nat, offset: nat, length: nat, ordinal: nat)
    requires offset < Pow2(14) && length < Pow2(14)
    ensures SlotOf(slotId, SlotWord(offset, length, ordinal)) == SlotFact(slotId, offset, length, RecordTypeOf(ordinal))
  {
    var word := SlotWord(offset, length, ordinal);
    ThreeFields(ordinal, length, offset, 14);
    Mask14(word);
    Mask14(Shr(word, 14));
  }

  // ---- Slots ----

  function SlotAt(user: UserArea, i: nat): SlotFact
    requires (i + 1) * SLOT_SIZE <= DB_PAGE_SIZE
  {
    SlotOf(i, ReadLe(user, DB_PAGE_SIZE - (i + 1) * SLOT_SIZE, 4))
  }

  predicate Occupied(slot: SlotFact)
  {
    slot.offset != 0
  }

  // The geometry rule one slot violates, if any.
  function SlotError(h: SlottedHeader, slot: SlotFact): Option<string>
    requires h.alignment > 0
  {
    if !Occupied(slot) then
      if slot.length != 0 && !Tombstone(slot.recordType) then Some("slotted.slot.empty_length") else None
    else if slot.offset < HEADER_SIZE || slot.offset + slot.length > SlotStart(h) || slot.offset % h.alignment != 0
    then Some("slotted.slot.record_bounds")
    else None
  }

  datatype Span = Span(start: nat, end: nat)

  function SpanOf(slot: SlotFact): Span
  {
    Span(slot.offset, slot.offset + slot.length)
  }

  function SpanKey(s: Span): (nat, nat)
  {
    (s.start, s.end)
  }

  function Spans(slots: seq<SlotFact>): seq<Span>
  {
    if slots == [] then []
    else
      var before := Spans(slots[..|slots| - 1]);
      var last := slots[|slots| - 1];
      if Occupied(last) then before + [SpanOf(last)] else before
  }

  // `ranges.windows(2).any(...)` on the sorted ranges.
  predicate Overlapping(sorted: seq<Span>)
  {
    exists k :: 0 <= k < |sorted| - 1 && sorted[k].end > sorted[k + 1].start
  }

  // ---- The decoder ----

  predicate SlottedType(t: PageType)
  {
    t in {PageType.Heap, PageType.Oos, PageType.Btree, PageType.ExtensibleHash, PageType.Catalog}
  }

  predicate Fits(h: SlottedHeader)
  {
    h.numSlots >= 0 && h.alignment > 0 && SlotStart(h) >= HEADER_SIZE
  }

  // The slots of the directory in order.
  function Directory(user: UserArea, n: nat): (slots: seq<SlotFact>)
    requires n * SLOT_SIZE <= DB_PAGE_SIZE
    ensures |slots| == n
    ensures forall i :: 0 <= i < n ==> slots[i] == SlotAt(user, i)
  {
    seq(n, i requires 0 <= i < n => SlotAt(user, i))
  }

  ghost predicate SlotsAccepted(h: SlottedHeader, slots: seq<SlotFact>)
    requires h.alignment > 0
  {
    forall i :: 0 <= i < |slots| ==> SlotError(h, slots[i]).None?
  }

  // The first slot that violates a geometry rule, violates this one.
  ghost predicate FirstSlotError(h: SlottedHeader, slots: seq<SlotFact>, rule: string)
    requires h.alignment > 0
  {
    exists i :: 0 <= i < |slots| && SlotError(h, slots[i]) == Some(rule) && SlotsAccepted(h, slots[..i])
  }

  // Two byte ranges of which one ends at or before the start of the other.
  predicate Apart(x: Span, y: Span)
  {
    x.end <= y.start || y.end <= x.start
  }

  // What the decoder accepts, without sorting or looping.
  ghost predicate Acceptable(t: PageType, user: UserArea)
  {
    var h := Header(user);
    && SlottedType(t)
    && HeaderError(h).None?
    && SlotsAccepted(h, Directory(user, h.numSlots))
    && |Spans(Directory(user, h.numSlots))| == h.numRecords
    && Pairwise(Spans(Directory(user, h.numSlots)), Apart)
  }

  // Decoding accepts exactly the acceptable pages and returns their header and slots in
  // directory order.
  method DecodeSlotted(t: PageType, user: UserArea) returns (r: Result<SlottedPage, string>)
    ensures r.Success? <==> Acceptable(t, user)
    ensures r.Success? ==> r.value == SlottedPage(Header(user), Directory(user, Header(user).numSlots))
    ensures !SlottedType(t) ==> r == Failure("slotted.page.type")
    ensures SlottedType(t) && HeaderError(Header(user)).Some? ==> r == Failure(HeaderError(Header(user)).value)
    ensures SlottedType(t) && HeaderError(Header(user)).None? ==>
      var h := Header(user);
      var slots := Directory(user, h.numSlots);
      if !SlotsAccepted(h, slots) then r.Failure? && FirstSlotError(h, slots, r.error)
      else if |Spans(slots)| != h.numRecords then r == Failure("slotted.header.record_count_match")
      else if !Pairwise(Spans(slots), Apart) then r == Failure("slotted.slot.nonoverlap")
      else r.Success?
  {
    if !SlottedType(t) {
      return Failure("slotted.page.type");
    }
    var h := Header(user);
    if HeaderError(h).Some? {
      return Failure(HeaderError(h).value);
    }
    var slots, ranges, error := DecodeDirectory(user, h);
    if error.Some? {
      return Failure(error.value);
    }
    if |ranges| != h.numRecords {
      return Failure("slotted.header.record_count_match");
    }
    var sorted := Sort(ranges, SpanKey);
    SpansForward(slots);
    NoOverlapIffApart(ranges);
    if Overlapping(sorted) {
      return Failure("slotted.slot.nonoverlap");
    }
    r := Success(SlottedPage(h, slots));
  }

  method DecodeDirectory(user: UserArea, h: SlottedHeader)
    returns (slots: seq<SlotFact>, ranges: seq<Span>, error: Option<string>)
    requires Fits(h)
    ensures error.None? <==> SlotsAccepted(h, Directory(user, h.numSlots))
    ensures error.None? ==> slots == Directory(user, h.numSlots) && ranges == Spans(slots)
    ensures error.Some? ==> FirstSlotError(h, Directory(user, h.numSlots), error.value)
  {
    slots, ranges, error := [], [], None;
    for i := 0 to h.numSlots
      invariant slots == Directory(user, i) && ranges == Spans(slots)
      invariant SlotsAccepted(h, slots)
    {
      var slot := SlotAt(user, i);
      error := SlotError(h, slot);
      if error.Some? {
        assert Directory(user, h.numSlots)[i] == slot && Directory(user, h.numSlots)[..i] == slots;
        return;
      }
      assert slots + [slot] == Directory(user, i + 1);
      assert (slots + [slot])[..i] == slots;
      if Occupied(slot) {
        ranges := ranges + [SpanOf(slot)];
      }
      slots := slots + [slot];
    }
    error := None;
  }

  ghost predicate Forward(s: seq<Span>)
  {
    forall k :: 0 <= k < |s| ==> s[k].start <= s[k].end
  }

  lemma {:induction false} SpansForward(slots: seq<SlotFact>)
    ensures Forward(Spans(slots))
  {
    if slots != [] {
      SpansForward(slots[..|slots| - 1]);
    }
  }

  lemma {:induction false} ChainApart(s: seq<Span>, i: nat, j: nat)
    requires Forward(s) && !Overlapping(s) && i < j < |s|
    ensures s[i].end <= s[j].start
  {
    assert s[j - 1].end <= s[j].start;
    if i < j - 1 {
      ChainApart(s, i, j - 1);
    }
  }

  // Comparing neighbours after sorting finds an overlap exactly when two ranges overlap.
  lemma NoOverlapIffApart(ranges: seq<Span>)
    requires Forward(ranges)
    ensures !Overlapping(Sort(ranges, SpanKey)) <==> Pairwise(ranges, Apart)
  {
    var s := Sort(ranges, SpanKey);
    SortOrders(ranges, SpanKey);
    assert Forward(s) by {
      forall k | 0 <= k < |s| ensures s[k].start <= s[k].end {
        assert s[k] in multiset(s);
        assert s[k] in ranges;
      }
    }
    if !Overlapping(s) {
      forall i, j | 0 <= i < j < |s| ensures Apart(s[i], s[j]) {
        ChainApart(s, i, j);
      }
      PairwisePermutes(s, ranges, Apart);
    }
    if Pairwise(ranges, Apart) {
      PairwisePermutes(ranges, s, Apart);
      forall k | 0 <= k < |s| - 1 ensures s[k].end <= s[k + 1].start {
        assert Apart(s[k], s[k + 1]) && LexLe(SpanKey(s[k]), SpanKey(s[k + 1]));
      }
    }
  }
}
