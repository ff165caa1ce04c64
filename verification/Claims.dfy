// Sector claims and the pages they cover: `SectorClaimKind` and the reconciliation half of
// `collect_file_allocations` in `src/inspection.rs`.
module Claims {
  import opened Wrappers
  import opened Bits
  import opened Pages
  import opened FileTable

  datatype ClaimKind = FullClaim | PartialClaim(bitmap: u64)

  datatype Claim = Claim(sector: Sector, kind: ClaimKind)

  datatype Header = Header(
    vfid: Vfid,
    flags: nat,
    pageTotal: nat,
    pageUser: nat,
    pageFtab: nat,
    pageFree: nat,
    pageMarkedDelete: nat,
    sectorTotal: nat,
    sectorPartial: nat,
    sectorFull: nat,
    partialOffset: Option<nat>,
    fullOffset: Option<nat>,
    userOffset: Option<nat>)

  const FILE_HEADER_SIZE: nat := 216
  const EXTDATA_HEADER_SIZE: nat := 16

  predicate TableOffsetOk(offset: Option<nat>)
  {
    offset.Some? ==> FILE_HEADER_SIZE <= offset.value && offset.value + EXTDATA_HEADER_SIZE <= DB_PAGE_SIZE
  }

  // What `decode_file_header` in `src/format/file_table.rs` makes sure of, with the larger of the
  // two header sizes.
  predicate HeaderAccepted(h: Header)
  {
    && 0 < h.pageTotal <= I32_MAX && 0 < h.pageFtab <= I32_MAX && 0 < h.sectorTotal <= I32_MAX
    && h.pageFree + h.pageUser + h.pageFtab == h.pageTotal
    && h.pageMarkedDelete <= h.pageUser
    && h.sectorPartial + h.sectorFull == h.sectorTotal
    && h.flags < 16 && BitAnd(h.flags, 12) != 12
    && TableOffsetOk(h.partialOffset) && TableOffsetOk(h.fullOffset) && TableOffsetOk(h.userOffset)
  }

  // `FileAllocationFacts`.
  datatype Facts = Facts(pages: set<Vpid>, claims: seq<Claim>)

  const ALLOCATION_BYTES: nat := 16
  const CLAIM_BYTES: nat := 24

  function SectorOf(v: Vpid): Sector
  {
    Sector(v.vol, v.page / SECTOR_PAGES)
  }

  // The page positions of a sector that a claim allocates.
  function Mask(kind: ClaimKind): set<nat>
  {
    set b: nat | b < SECTOR_PAGES && Covers(kind, b)
  }

  predicate Covers(kind: ClaimKind, b: nat)
  {
    b < SECTOR_PAGES && (kind.PartialClaim? ==> Bit(kind.bitmap, b))
  }

  // `SectorClaimKind::allocated_pages`.
  function AllocatedPages(kind: ClaimKind): nat
  {
    match kind
    case FullClaim => SECTOR_PAGES
    case PartialClaim(bitmap) => CountOnes(bitmap)
  }

  function PageAt(sector: Sector, b: nat): Vpid
  {
    Vpid(sector.vol, sector.id * SECTOR_PAGES + b)
  }

  function PagesBelow(c: Claim, n: nat): (s: set<Vpid>)
  {
    set b: nat | b < n && Covers(c.kind, b) :: PageAt(c.sector, b)
  }

  function PagesOf(c: Claim): set<Vpid>
  {
    PagesBelow(c, SECTOR_PAGES)
  }

  function AllPages(claims: seq<Claim>): set<Vpid>
  {
    if claims == [] then {} else AllPages(claims[..|claims| - 1]) + PagesOf(claims[|claims| - 1])
  }

  function AllocatedSum(claims: seq<Claim>): nat
  {
    if claims == [] then 0
    else AllocatedSum(claims[..|claims| - 1]) + AllocatedPages(claims[|claims| - 1].kind)
  }

  ghost predicate DistinctSectors(claims: seq<Claim>)
  {
    forall i, j :: 0 <= i < j < |claims| ==> claims[i].sector != claims[j].sector
  }

  // A page belongs to a claim exactly when it lies in its sector at a covered position.
  lemma PageOfClaim(c: Claim, v: Vpid)
    ensures v in PagesOf(c) <==> SectorOf(v) == c.sector && Covers(c.kind, v.page % SECTOR_PAGES)
  {
    if v in PagesOf(c) {
      var b: nat :| b < SECTOR_PAGES && Covers(c.kind, b) && v == PageAt(c.sector, b);
    }
    if SectorOf(v) == c.sector && Covers(c.kind, v.page % SECTOR_PAGES) {
      assert v == PageAt(c.sector, v.page % SECTOR_PAGES);
    }
  }

  lemma {:induction false} PageOfSomeClaim(claims: seq<Claim>, v: Vpid)
    ensures v in AllPages(claims) <==> exists i :: 0 <= i < |claims| && v in PagesOf(claims[i])
  {
    if claims != [] {
      var n := |claims| - 1;
      PageOfSomeClaim(claims[..n], v);
      if v in AllPages(claims[..n]) {
        var i :| 0 <= i < n && v in PagesOf(claims[..n][i]);
        assert claims[i] == claims[..n][i];
      }
      if exists i :: 0 <= i < |claims| && v in PagesOf(claims[i]) {
        var i :| 0 <= i < |claims| && v in PagesOf(claims[i]);
        assert i < n ==> claims[..n][i] == claims[i];
      }
    }
  }

  // The n smallest positions.
  function Below(n: nat): (s: set<nat>)
    ensures |s| == n && forall b: nat :: b in s <==> b < n
  {
    if n == 0 then {} else Below(n - 1) + {n - 1}
  }

  lemma MaskSize(kind: ClaimKind)
    ensures |Mask(kind)| == AllocatedPages(kind) <= SECTOR_PAGES
  {
    match kind
    case FullClaim =>
      assert Mask(kind) == Below(SECTOR_PAGES);
    case PartialClaim(bitmap) =>
      Ones64();
      OnesIsPow2(64);
      CountOnesIsCardinality(bitmap, SECTOR_PAGES);
      assert Mask(kind) == BitsBelow(bitmap, SECTOR_PAGES);
  }

  // A claim allocates as many pages as its bitmap has set bits.
  lemma ClaimSize(c: Claim)
    ensures |PagesOf(c)| == AllocatedPages(c.kind) <= SECTOR_PAGES
  {
    MaskSize(c.kind);
    var mask := Mask(c.kind);
    assert PagesOf(c) == set b: nat | b in mask :: PageAt(c.sector, b);
    ImageSize(c.sector, mask);
  }

  lemma {:induction false} ImageSize(sector: Sector, mask: set<nat>)
    ensures |set b: nat | b in mask :: PageAt(sector, b)| == |mask|
  {
    var image := set b: nat | b in mask :: PageAt(sector, b);
    if mask == {} {
      assert image == {};
    } else {
      var x :| x in mask;
      var rest := mask - {x};
      ImageSize(sector, rest);
      var smaller := set b: nat | b in rest :: PageAt(sector, b);
      assert image == smaller + {PageAt(sector, x)};
      assert PageAt(sector, x) !in smaller;
    }
  }

  // Claims on distinct sectors allocate disjoint pages, so their counts add up.
  lemma {:induction false} AllPagesSize(claims: seq<Claim>)
    requires DistinctSectors(claims)
    ensures |AllPages(claims)| == AllocatedSum(claims)
  {
    if claims != [] {
      var n := |claims| - 1;
      AllPagesSize(claims[..n]);
      ClaimSize(claims[n]);
      assert AllPages(claims[..n]) !! PagesOf(claims[n]) by {
        forall v | v in AllPages(claims[..n])
          ensures v !in PagesOf(claims[n])
        {
          PageOfSomeClaim(claims[..n], v);
          var i :| 0 <= i < n && v in PagesOf(claims[..n][i]);
          PageOfClaim(claims[i], v);
          PageOfClaim(claims[n], v);
        }
      }
    }
  }
}
