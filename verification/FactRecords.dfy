// What the fast scan records of a page, field by field and byte by byte: `scan_page_envelope` and
// `PackedPageFact` in `src/inspection.rs`.
module FactRecords {
  import opened Wrappers
  import opened Bits
  import opened Bytes
  import opened Pages
  import opened PackedFact

  // Field by field, what the scan records of a page that is decoded, and of one that is rejected.
  lemma ScannedFactMeans(page: PageNumber, read: EnvelopeRead, hasTdeKey: bool)
    ensures var r := ScanEnvelope(page, read, hasTdeKey);
      && (read.Decoded? ==>
            && r.FactResult? && r.diagnostic.None? && !r.hint && r.fact.code.None?
            && r.fact.pageType == Some(read.pageType) && r.fact.lsa == Some(read.lsa)
            && (r.fact.availability == Available <==> !read.encrypted || hasTdeKey)
            && (r.fact.availability == EncryptedOpaque <==> read.encrypted && !hasTdeKey)
            && (r.fact.tde == NotEncrypted <==> !read.encrypted)
            && (r.fact.tde == Decrypted <==> read.encrypted && hasTdeKey)
            && (r.fact.tde == EncryptedState <==> read.encrypted && !hasTdeKey)
            && (r.fact.units.Some? <==>
                  && !read.encrypted && read.totalFree.Some? && read.totalFree.value <= 16_344
                  && (read.pageType == PageType.Heap || read.pageType == PageType.Oos
                      || read.pageType == PageType.Btree || read.pageType == PageType.Catalog))
            && (r.fact.units.Some? ==> r.fact.units == OccupancyUnits(read.totalFree.value)))
      && (read.Rejected? ==>
            && r.FactResult? && r.diagnostic == Some(read.rule) && r.hint == read.alternativeDecodes
            && r.fact.pageType.None? && r.fact.units.None? && r.fact.lsa.None?
            && r.fact.availability == Unreadable
            && (r.fact.tde == InvalidFlags <==> read.rule == "page.envelope.tde_flags")
            && (r.fact.tde == NotEncrypted <==> read.rule != "page.envelope.tde_flags")
            && (r.fact.code == Some(IdentityMismatch) <==> read.rule == "page.envelope.identity_match")
            && (r.fact.code == Some(LsaMismatch) <==> read.rule == "page.envelope.lsa_match")
            && (r.fact.code == Some(TypeUnknown) <==> read.rule == "page.envelope.type_known")
            && (r.fact.code == Some(TdeFlagsInvalid) <==> read.rule == "page.envelope.tde_flags"))
  {
  }

  lemma UnitsShifted(units: nat)
    requires units < 16
    ensures Shl(units, 3) % 256 == 8 * units
  {
    Shl3And7(units);
  }

  lemma FieldsAdd(m: nat, high: nat, shifted: nat, units: nat, code: nat)
    requires m == BitOr(BitOr(128 * high, shifted), code)
    requires high < 2 && units < 16 && code < 8 && shifted == 8 * units
    ensures m == 128 * high + 8 * units + code
  {
    MetadataSum(high, units, code);
  }

  lemma MetadataIs(f: PageFact, high: nat, units: nat, code: nat)
    requires Canonical(f) && code == CodeBits(f.code)
    requires high == (if f.lsa.Some? then 1 else 0) && units == (if f.units.Some? then f.units.value else 0)
    ensures Metadata(f) == 128 * high + 8 * units + code
  {
    UnitsShifted(units);
    MetadataFields(f);
    FieldsAdd(Metadata(f), high, if f.units.Some? then Shl(f.units.value, 3) % 256 else 0, units, code);
  }

  // The number of a diagnostic code, 0 without one.
  function CodeNumber(code: Option<Code>): nat
  {
    match code
    case None => 0
    case Some(IdentityMismatch) => 1
    case Some(LsaMismatch) => 2
    case Some(TypeUnknown) => 3
    case Some(TdeFlagsInvalid) => 4
    case Some(EnvelopeInvalid) => 5
    case Some(TdeDecryptedInvalid) => 6
    case Some(OtherCode(_)) => 7
  }

  // Byte by byte, the record of a canonical fact: page and LSA in little-endian order, the page
  // type, and a last byte of an LSA flag, four bits of occupancy and three of a code number.
  lemma RecordLayout(f: PageFact)
    requires Canonical(f)
    ensures var s := Pack(f);
      && |s| == 16 && FromLe(s[..4]) == f.page && (f.lsa.Some? ==> FromLe(s[4..12]) == f.lsa.value)
      && (s[12] == 255 <==> f.pageType.None?)
      && s[15] == (if f.lsa.Some? then 128 else 0) + 8 * (if f.units.Some? then f.units.value else 0)
                  + CodeNumber(f.code)
  {
    PackedSlices(f);
    var high, units := if f.lsa.Some? then 1 else 0, if f.units.Some? then f.units.value else 0;
    MetadataIs(f, high, units, CodeBits(f.code));
  }
}
