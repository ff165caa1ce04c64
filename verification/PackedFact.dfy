// One page fact of the fast scan and its 16-byte record: `PackedPageFact`,
// `scan_page_envelope` and `slotted_occupancy_units` in `src/inspection.rs`.
module PackedFact {
  import opened Wrappers
  import opened Bits
  import opened Bytes
  import opened Pages

  const RECORD_SIZE: nat := 16
  const LSA_PRESENT: nat := 0x80
  const OCCUPANCY_MASK: nat := 0x78
  const DIAGNOSTIC_MASK: nat := 0x07
  const OCCUPANCY_LEVELS: nat := 15

  datatype TdeState = NotEncrypted | Decrypted | EncryptedState | KeyError | DecryptedInvalid | InvalidFlags

  datatype Code =
    | IdentityMismatch | LsaMismatch | TypeUnknown | TdeFlagsInvalid | EnvelopeInvalid | TdeDecryptedInvalid
    | OtherCode(name: string)

  type PageNumber = x: int | 0 <= x <= I32_MAX

  datatype PageFact = PageFact(
    page: PageNumber,
    pageType: Option<PageType>,
    availability: Availability,
    tde: TdeState,
    units: Option<byte>,
    lsa: Option<u64>,
    code: Option<Code>)

  function Ordinal(t: PageType): byte
  {
    match t
    case UnknownPage => 0
    case FileTable => 1
    case Heap => 2
    case VolumeHeader => 3
    case VolumeBitmap => 4
    case QueryResult => 5
    case ExtensibleHash => 6
    case Overflow => 7
    case Oos => 8
    case Area => 9
    case Catalog => 10
    case Btree => 11
    case Log => 12
    case DroppedFiles => 13
    case VacuumData => 14
  }

  function FromOrdinal(n: byte): Option<PageType>
  {
    match n
    case 0 => Some(UnknownPage)
    case 1 => Some(FileTable)
    case 2 => Some(Heap)
    case 3 => Some(VolumeHeader)
    case 4 => Some(VolumeBitmap)
    case 5 => Some(QueryResult)
    case 6 => Some(ExtensibleHash)
    case 7 => Some(Overflow)
    case 8 => Some(Oos)
    case 9 => Some(Area)
    case 10 => Some(Catalog)
    case 11 => Some(Btree)
    case 12 => Some(Log)
    case 13 => Some(DroppedFiles)
    case 14 => Some(VacuumData)
    case _ => None
  }

  function AvailabilityByte(a: Availability): byte
  {
    match a
    case Available => 0
    case Unreadable => 1
    case Unsupported => 2
    case EncryptedOpaque => 3
  }

  function TdeByte(t: TdeState): byte
  {
    match t
    case NotEncrypted => 0
    case Decrypted => 1
    case EncryptedState => 2
    case KeyError => 3
    case DecryptedInvalid => 4
    case InvalidFlags => 5
  }

  function CodeBits(code: Option<Code>): (n: nat)
    ensures n < 8
  {
    match code
    case None => 0
    case Some(IdentityMismatch) => 1
    case Some(LsaMismatch) => 2
    case Some(TypeUnknown) => 3
    case Some(TdeFlagsInvalid) => 4
    case Some(EnvelopeInvalid) => 5
    case Some(TdeDecryptedInvalid) => 6
    case Some(OtherCode(_)) => 7
  }

  // The metadata byte, assembled by successive `|=`; `units << 3` drops the bits that leave
  // the byte.
  function Metadata(f: PageFact): nat
  {
    var lsa := if f.lsa.Some? then LSA_PRESENT else 0;
    var units := if f.units.Some? then BitOr(lsa, Shl(f.units.value, 3) % 256) else lsa;
    BitOr(units, CodeBits(f.code))
  }

  function Pack(f: PageFact): (s: seq<byte>)
    ensures |s| == RECORD_SIZE
  {
    MetadataIsByte(f);
    ToLe(f.page, 4)
    + (if f.lsa.Some? then ToLe(f.lsa.value, 8) else [0, 0, 0, 0, 0, 0, 0, 0])
    + [if f.pageType.Some? then Ordinal(f.pageType.value) else 255,
       AvailabilityByte(f.availability), TdeByte(f.tde), Metadata(f)]
  }

  function UnpackAvailability(n: byte): Option<Availability>
  {
    match n
    case 0 => Some(Available)
    case 1 => Some(Unreadable)
    case 2 => Some(Unsupported)
    case 3 => Some(EncryptedOpaque)
    case _ => None
  }

  function UnpackTde(n: byte): Option<TdeState>
  {
    match n
    case 0 => Some(NotEncrypted)
    case 1 => Some(Decrypted)
    case 2 => Some(EncryptedState)
    case 3 => Some(KeyError)
    case 4 => Some(DecryptedInvalid)
    case 5 => Some(InvalidFlags)
    case _ => None
  }

  // The code of the three low metadata bits; `None` is an invalid record.
  function UnpackCode(n: nat): Option<Option<Code>>
  {
    match n
    case 0 => Some(None)
    case 1 => Some(Some(IdentityMismatch))
    case 2 => Some(Some(LsaMismatch))
    case 3 => Some(Some(TypeUnknown))
    case 4 => Some(Some(TdeFlagsInvalid))
    case 5 => Some(Some(EnvelopeInvalid))
    case 6 => Some(Some(TdeDecryptedInvalid))
    case _ => None
  }

  // `None` is `FactStoreError::InvalidRecord`.
  function Unpack(s: seq<byte>): Option<PageFact>
    requires |s| == RECORD_SIZE
  {
    var page := FromLe(s[..4]);
    var availability, tde := UnpackAvailability(s[13]), UnpackTde(s[14]);
    var code := UnpackCode(BitAnd(s[15], DIAGNOSTIC_MASK));
    var units := Shr(BitAnd(s[15], OCCUPANCY_MASK), 3);
    var lsa := FromLe(s[4..12]);
    if page > I32_MAX || (s[12] != 255 && FromOrdinal(s[12]).None?) || availability.None? || tde.None?
       || code.None? || units > 255 || lsa > U64_MAX then None
    else
      Some(PageFact(
        page,
        if s[12] == 255 then None else FromOrdinal(s[12]),
        availability.value,
        tde.value,
        if units != 0 then Some(units) else None,
        if BitAnd(s[15], LSA_PRESENT) == 0 then None else Some(lsa),
        code.value))
  }

  // ---- The metadata byte as a sum of fields ----

  lemma MetadataFields(f: PageFact)
    ensures var high := if f.lsa.Some? then 1 else 0;
      var units := if f.units.Some? then Shl(f.units.value, 3) % 256 else 0;
      Metadata(f) == BitOr(BitOr(128 * high, units), CodeBits(f.code))
  {
    if f.units.None? {
      OrZero(if f.lsa.Some? then LSA_PRESENT else 0);
    }
  }

  lemma {:induction false} OrWithin(x: nat, y: nat, k: nat)
    requires x < Pow2(k) && y < Pow2(k)
    ensures BitOr(x, y) < Pow2(k)
  {
    if k > 0 {
      OrWithin(x / 2, y / 2, k - 1);
    }
  }

  lemma MetadataIsByte(f: PageFact)
    ensures Metadata(f) < 256
  {
    assert Pow2(8) == 256;
    var lsa := if f.lsa.Some? then LSA_PRESENT else 0;
    if f.units.Some? {
      OrWithin(lsa, Shl(f.units.value, 3) % 256, 8);
      OrWithin(BitOr(lsa, Shl(f.units.value, 3) % 256), CodeBits(f.code), 8);
    } else {
      OrWithin(lsa, CodeBits(f.code), 8);
    }
  }

  lemma Shl3And7(x: nat)
    ensures Shl(x, 3) == 8 * x && Shl(x, 7) == 128 * x && Pow2(3) == 8 && Pow2(4) == 16 && Pow2(7) == 128
  {
    assert Pow2(3) == 8 && Pow2(4) == 16;
    assert Pow2(7) == 2 * (2 * (2 * Pow2(4)));
    ShlIsMultiplication(x, 3);
    ShlIsMultiplication(x, 7);
  }

  lemma CodeField(upper: nat, code: nat)
    requires code < 8
    ensures BitAnd(8 * upper + code, DIAGNOSTIC_MASK) == code
  {
    var m := 8 * upper + code;
    Shl3And7(upper);
    FieldsOfSum(upper, code, 3);
    AndField(m, 3, 0);
    assert Ones(3) == DIAGNOSTIC_MASK;
  }

  lemma OccupancyField(high: nat, units: nat, code: nat)
    requires units < 16 && code < 8
    ensures Shr(BitAnd(128 * high + 8 * units + code, OCCUPANCY_MASK), 3) == units
  {
    var m, upper := 128 * high + 8 * units + code, 16 * high + units;
    Shl3And7(upper);
    Shl3And7(Ones(4));
    assert Ones(4) == 15;
    FieldsOfSum(upper, code, 3);
    AndField(m, 4, 3);
    ShlIsMultiplication(high, 4);
    FieldsOfSum(high, units, 4);
    FieldsOfSum(units, 0, 3);
  }

  lemma LsaField(high: nat, low: nat)
    requires high < 2 && low < 128
    ensures BitAnd(128 * high + low, LSA_PRESENT) == 0 <==> high == 0
  {
    var m := 128 * high + low;
    Shl3And7(high);
    Shl3And7(Ones(1));
    assert Ones(1) == 1;
    FieldsOfSum(high, low, 7);
    AndField(m, 1, 7);
    assert Low(high, 1) == high;
  }

  lemma OrAt7(high: nat, y: nat)
    requires y < 128
    ensures BitOr(128 * high, y) == 128 * high + y
  {
    Shl3And7(high);
    OrOfDisjointFields(high, y, 7);
  }

  lemma OrAt3(upper: nat, y: nat)
    requires y < 8
    ensures BitOr(8 * upper, y) == 8 * upper + y
  {
    Shl3And7(upper);
    OrOfDisjointFields(upper, y, 3);
  }

  lemma MetadataSum(high: nat, units: nat, code: nat)
    requires high < 2 && units < 16 && code < 8
    ensures BitOr(BitOr(128 * high, 8 * units), code) == 128 * high + 8 * units + code
  {
    OrAt7(high, 8 * units);
    OrAt3(16 * high + units, code);
  }

  // The three masks recover the three fields of a metadata byte.
  lemma MasksRecoverFields(high: nat, units: nat, code: nat)
    requires high < 2 && units < 16 && code < 8
    ensures var m := BitOr(BitOr(128 * high, 8 * units), code);
      && BitAnd(m, DIAGNOSTIC_MASK) == code
      && Shr(BitAnd(m, OCCUPANCY_MASK), 3) == units
      && (BitAnd(m, LSA_PRESENT) == 0 <==> high == 0)
  {
    MetadataSum(high, units, code);
    CodeField(16 * high + units, code);
    OccupancyField(high, units, code);
    LsaField(high, 8 * units + code);
  }

  // ---- Round trip ----

  // Occupancy within its four bits and a diagnostic code with a number of its own.
  predicate Canonical(f: PageFact)
  {
    && (f.units.Some? ==> 1 <= f.units.value <= OCCUPANCY_LEVELS)
    && (f.code.Some? ==> !f.code.value.OtherCode?)
  }

  lemma PackedSlices(f: PageFact)
    ensures var s := Pack(f);
      && FromLe(s[..4]) == f.page
      && (f.lsa.Some? ==> FromLe(s[4..12]) == f.lsa.value)
      && FromLe(s[4..12]) <= U64_MAX
      && s[12] == (if f.pageType.Some? then Ordinal(f.pageType.value) else 255)
      && s[13] == AvailabilityByte(f.availability) && s[14] == TdeByte(f.tde) && s[15] == Metadata(f)
  {
    var s := Pack(f);
    Pow256Of8();
    LeRoundTrip(f.page, 4);
    assert s[..4] == ToLe(f.page, 4);
    if f.lsa.Some? {
      LeRoundTrip(f.lsa.value, 8);
      assert s[4..12] == ToLe(f.lsa.value, 8);
    }
    LeOnto(s[4..12]);
  }

  lemma Remainder(q: nat, r: nat)
    requires r < 256
    ensures (256 * q + r) % 256 == r
  {
  }

  lemma UnitsBits(units: byte) returns (low: nat, over: nat)
    ensures low < 16 && over < 2 && low == units % 16
    ensures Shl(units, 3) % 256 == 128 * over + 8 * low
    ensures units < 16 ==> over == 0
  {
    low, over := units % 16, units / 16 % 2;
    var q := units / 32;
    Shl3And7(units);
    assert units == 32 * q + 16 * over + low;
    Remainder(q, 128 * over + 8 * low);
  }

  // What unpacking reads from the metadata byte of a packed fact: occupancy modulo 16, and
  // an LSA bit that a too large occupancy would also set.
  lemma MetadataUnpacks(f: PageFact)
    ensures BitAnd(Metadata(f), DIAGNOSTIC_MASK) == CodeBits(f.code)
    ensures Shr(BitAnd(Metadata(f), OCCUPANCY_MASK), 3) == if f.units.Some? then f.units.value % 16 else 0
    ensures f.lsa.Some? ==> BitAnd(Metadata(f), LSA_PRESENT) != 0
    ensures f.lsa.None? && (f.units.None? || f.units.value < 16) ==> BitAnd(Metadata(f), LSA_PRESENT) == 0
  {
    MetadataFields(f);
    var high := if f.lsa.Some? then 1 else 0;
    Shl3And7(0);
    if f.units.Some? {
      var low, over := UnitsBits(f.units.value);
      UnitsOr(high, low, over);
      MasksRecoverFields(if high == 1 || over == 1 then 1 else 0, low, CodeBits(f.code));
    } else {
      MasksRecoverFields(high, 0, CodeBits(f.code));
    }
  }

  lemma BytesRoundTrip(f: PageFact)
    ensures f.pageType.Some? ==>
      FromOrdinal(Ordinal(f.pageType.value)) == f.pageType && Ordinal(f.pageType.value) != 255
    ensures UnpackAvailability(AvailabilityByte(f.availability)) == Some(f.availability)
    ensures UnpackTde(TdeByte(f.tde)) == Some(f.tde)
    ensures UnpackCode(CodeBits(f.code)) ==
      if f.code.Some? && f.code.value.OtherCode? then None else Some(f.code)
  {
  }

  // A packed record unpacks to its fact exactly when the fact is canonical.
  lemma PackRoundTripsIffCanonical(f: PageFact)
    ensures Unpack(Pack(f)) == Some(f) <==> Canonical(f)
    ensures Unpack(Pack(f)).Some? ==> Unpack(Pack(f)).value.page == f.page
  {
    PackedSlices(f);
    MetadataUnpacks(f);
    BytesRoundTrip(f);
  }

  function Flag(on: nat, p: nat): nat
  {
    if on == 1 then p else 0
  }

  // Setting a bit that a field below it may or may not already carry.
  lemma OrField(high: nat, over: nat, y: nat, p: nat, k: nat)
    requires high < 2 && over < 2 && p == Pow2(k) && y < p
    ensures BitOr(Flag(high, p), Flag(over, p) + y) == (if high == 1 || over == 1 then p else 0) + y
  {
    OrOfDisjointFields(1, y, k);
    OrOverlap(y, k);
    OrCommutes(0, p + y);
    OrZero(p + y);
    OrCommutes(0, y);
    OrZero(y);
  }

  lemma UnitsOr(high: nat, low: nat, over: nat)
    requires high < 2 && low < 16 && over < 2
    ensures BitOr(128 * high, 128 * over + 8 * low)
         == BitOr(128 * (if high == 1 || over == 1 then 1 else 0), 8 * low)
  {
    var both := if high == 1 || over == 1 then 1 else 0;
    Shl3And7(0);
    assert 128 * high == Flag(high, 128) && 128 * over == Flag(over, 128) && 128 * both == Flag(both, 128);
    OrField(high, over, 8 * low, 128, 7);
    OrField(both, 0, 8 * low, 128, 7);
  }

  lemma {:induction false} OrCommutes(x: nat, y: nat)
    ensures BitOr(x, y) == BitOr(y, x)
    decreases x + y
  {
    if x > 0 || y > 0 {
      OrCommutes(x / 2, y / 2);
    }
  }

  lemma {:induction false} OrOverlap(y: nat, k: nat)
    requires y < Pow2(k)
    ensures BitOr(Shl(1, k), Shl(1, k) + y) == Shl(1, k) + y
  {
    if k == 0 {
      assert BitOr(1, 1) == 1;
    } else {
      OrOverlap(y / 2, k - 1);
      assert (Shl(1, k) + y) / 2 == Shl(1, k - 1) + y / 2;
    }
  }

  // ---- What the scan records ----

  // The outcome of reading and decoding one page envelope.
  datatype EnvelopeRead =
    | ReadFailed
    | Decoded(pageType: PageType, encrypted: bool, lsa: u64, totalFree: Option<nat>)
    | Rejected(rule: string, alternativeDecodes: bool)

  datatype EnvelopeResult =
    | FactResult(fact: PageFact, diagnostic: Option<string>, hint: bool)
    | UnreadableResult(page: PageNumber)

  predicate SlottedWithoutOwner(t: PageType)
  {
    t == Heap || t == Oos || t == Btree || t == Catalog
  }

  // Fifteen occupancy levels: the least one that covers the used bytes, never zero.
  function OccupancyUnits(totalFree: nat): (r: Option<byte>)
    ensures r.Some? ==> 1 <= r.value <= OCCUPANCY_LEVELS
    ensures r.None? <==> totalFree > DB_PAGE_SIZE
    ensures r.Some? && totalFree < DB_PAGE_SIZE ==>
      (r.value - 1) * DB_PAGE_SIZE < (DB_PAGE_SIZE - totalFree) * OCCUPANCY_LEVELS <= r.value * DB_PAGE_SIZE
  {
    if totalFree > DB_PAGE_SIZE then None
    else
      var units := ((DB_PAGE_SIZE - totalFree) * OCCUPANCY_LEVELS + (DB_PAGE_SIZE - 1)) / DB_PAGE_SIZE;
      Some(if units < 1 then 1 else if units > OCCUPANCY_LEVELS then OCCUPANCY_LEVELS else units)
  }

  function DiagnosticCode(rule: string): Code
  {
    if rule == "page.envelope.identity_match" then IdentityMismatch
    else if rule == "page.envelope.lsa_match" then LsaMismatch
    else if rule == "page.envelope.type_known" then TypeUnknown
    else if rule == "page.envelope.tde_flags" then TdeFlagsInvalid
    else EnvelopeInvalid
  }

  // `scan_page_envelope`: every fact it records is canonical and names its page.
  function ScanEnvelope(page: PageNumber, read: EnvelopeRead, hasTdeKey: bool): (r: EnvelopeResult)
    ensures r.FactResult? ==> Canonical(r.fact) && r.fact.page == page
    ensures r.UnreadableResult? <==> read.ReadFailed?
  {
    match read
    case ReadFailed => UnreadableResult(page)
    case Decoded(pageType, encrypted, lsa, totalFree) =>
      var units := if !encrypted && SlottedWithoutOwner(pageType) && totalFree.Some?
                   then OccupancyUnits(totalFree.value) else None;
      var availability := if encrypted && !hasTdeKey then EncryptedOpaque else Available;
      var tde := if !encrypted then NotEncrypted else if hasTdeKey then Decrypted else EncryptedState;
      FactResult(PageFact(page, Some(pageType), availability, tde, units, Some(lsa), None), None, false)
    case Rejected(rule, alternativeDecodes) =>
      var tde := if rule == "page.envelope.tde_flags" then InvalidFlags else NotEncrypted;
      FactResult(PageFact(page, None, Unreadable, tde, None, None, Some(DiagnosticCode(rule))),
                 Some(rule), alternativeDecodes)
  }
}
