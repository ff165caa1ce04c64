// Which pages the fast scan visits: `VolumeRecord::is_reserved`, `EligiblePageCursor` and
// `eligible_page_count` in `src/inspection.rs`.
module Eligible {
  import opened Wrappers
  import opened Bits
  import opened Pages

  // The scanned geometry of one volume.  Header decoding keeps the sector total and the last
  // system page within an i32.
  datatype Volume = Volume(id: nat, totalSectors: nat, systemLast: nat, masks: seq<u64>)

  predicate Reserved(v: Volume, sector: nat)
  {
    sector / 64 < |v.masks| && BitAnd(v.masks[sector / 64], Shl(1, sector % 64)) != 0
  }

  // Reserved, or starting at or before the last system page.
  predicate SectorEligible(v: Volume, sector: nat)
  {
    Reserved(v, sector) || sector * SECTOR_PAGES <= v.systemLast
  }

  function Run(first: nat, end: nat): (s: seq<nat>)
    requires first <= end
    ensures |s| == end - first
    ensures forall i :: 0 <= i < |s| ==> s[i] == first + i
  {
    seq(end - first, i => first + i)
  }

  // The eligible pages from a cursor position on.
  function Rest(v: Volume, sector: nat, within: nat): seq<nat>
    requires within < SECTOR_PAGES
    decreases if sector < v.totalSectors then v.totalSectors - sector else 0
  {
    if sector >= v.totalSectors then []
    else if within == 0 && !SectorEligible(v, sector) then Rest(v, sector + 1, 0)
    else Run(sector * SECTOR_PAGES + within, (sector + 1) * SECTOR_PAGES) + Rest(v, sector + 1, 0)
  }

  function EligiblePages(v: Volume): seq<nat>
  {
    Rest(v, 0, 0)
  }

  // Every sector's first page is a u32.
  predicate Addressable(v: Volume)
  {
    v.totalSectors * SECTOR_PAGES <= U32_MAX + 1
  }

  // Every eligible page number is an i32, so the cursor never fails.
  predicate Fits(v: Volume)
  {
    Addressable(v) && forall i :: 0 <= i < |EligiblePages(v)| ==> EligiblePages(v)[i] <= I32_MAX
  }

  predicate AllAddressable(volumes: seq<Volume>)
  {
    forall k :: 0 <= k < |volumes| ==> Addressable(volumes[k])
  }

  // `None` is `OpenFailure::Arithmetic`.
  method EligiblePageCount(v: Volume) returns (r: Option<nat>)
    ensures r.Some? <==> Addressable(v)
    ensures r.Some? ==> r.value == |EligiblePages(v)|
  {
    var count := 0;
    for sector := 0 to v.totalSectors
      invariant count + |Rest(v, sector, 0)| == |EligiblePages(v)|
      invariant sector > 0 ==> (sector - 1) * SECTOR_PAGES <= U32_MAX
    {
      if sector * SECTOR_PAGES > U32_MAX {
        return None;
      }
      if Reserved(v, sector) || sector * SECTOR_PAGES <= v.systemLast {
        count := count + SECTOR_PAGES;
      }
    }
    r := Some(count);
  }

  // One answer of the cursor; `TooLarge` is `OpenFailure::Arithmetic`.
  datatype Step = Page(number: nat) | Done | TooLarge

  class EligiblePageCursor {
    var sector: nat
    var within: nat

    constructor ()
      ensures sector == 0 && within == 0
    {
      sector, within := 0, 0;
    }

    ghost predicate Valid()
      reads this
    {
      within < SECTOR_PAGES
    }

    ghost function Remaining(v: Volume): seq<nat>
      requires Valid()
      reads this
    {
      Rest(v, sector, within)
    }

    // The page at the cursor, which moves on to the next position.
    method TakePage(v: Volume) returns (raw: nat)
      requires Valid() && sector < v.totalSectors && (within == 0 ==> SectorEligible(v, sector))
      modifies this
      ensures Valid() && old(Remaining(v)) == [raw] + Remaining(v)
    {
      RunStarts(v, sector, within);
      raw := sector * SECTOR_PAGES + within;
      within := within + 1;
      if within == SECTOR_PAGES {
        within := 0;
        sector := sector + 1;
      }
    }

    // Yields the remaining eligible pages one by one; it fails only on a page or sector
    // number that does not fit.
    method Next(v: Volume) returns (r: Step)
      requires Valid()
      modifies this
      ensures Valid()
      ensures Addressable(v) ==>
        var rest := old(Remaining(v));
        if rest == [] then r == Done && Remaining(v) == []
        else
          && Remaining(v) == rest[1..]
          && r == if rest[0] <= I32_MAX then Page(rest[0]) else TooLarge
    {
      ghost var start := Rest(v, sector, within);
      while sector < v.totalSectors
        invariant Valid() && Rest(v, sector, within) == start
        decreases v.totalSectors - sector
      {
        var first := sector * SECTOR_PAGES;
        if first > U32_MAX {
          return TooLarge;
        }
        if within == 0 && !SectorEligible(v, sector) {
          sector := sector + 1;
        } else {
          var raw := TakePage(v);
          return if raw <= I32_MAX then Page(raw) else TooLarge;
        }
      }
      r := Done;
    }
  }

  lemma RunStarts(v: Volume, sector: nat, within: nat)
    requires within < SECTOR_PAGES && sector < v.totalSectors && (within == 0 ==> SectorEligible(v, sector))
    ensures var rest := Rest(v, sector, within);
      && rest == [sector * SECTOR_PAGES + within]
                 + if within + 1 < SECTOR_PAGES then Rest(v, sector, within + 1) else Rest(v, sector + 1, 0)
  {
    var first, end := sector * SECTOR_PAGES + within, (sector + 1) * SECTOR_PAGES;
    assert Run(first, end) == [first] + Run(first + 1, end);
    assert Rest(v, sector, within) == [first] + (Run(first + 1, end) + Rest(v, sector + 1, 0));
    assert first + 1 == end ==> Run(first + 1, end) + Rest(v, sector + 1, 0) == Rest(v, sector + 1, 0);
  }

  lemma {:induction false} RestOrdered(v: Volume, sector: nat)
    ensures forall i :: 0 <= i < |Rest(v, sector, 0)| ==>
      sector * SECTOR_PAGES <= Rest(v, sector, 0)[i] < v.totalSectors * SECTOR_PAGES
    ensures forall i, j :: 0 <= i < j < |Rest(v, sector, 0)| ==> Rest(v, sector, 0)[i] < Rest(v, sector, 0)[j]
    decreases if sector < v.totalSectors then v.totalSectors - sector else 0
  {
    if sector < v.totalSectors {
      RestOrdered(v, sector + 1);
    }
  }

  lemma {:induction false} RestMembers(v: Volume, sector: nat, page: nat)
    ensures page in Rest(v, sector, 0) <==>
      sector * SECTOR_PAGES <= page < v.totalSectors * SECTOR_PAGES && SectorEligible(v, page / SECTOR_PAGES)
    decreases if sector < v.totalSectors then v.totalSectors - sector else 0
  {
    if sector < v.totalSectors {
      RestMembers(v, sector + 1, page);
      var first, end := sector * SECTOR_PAGES, (sector + 1) * SECTOR_PAGES;
      assert page in Run(first, end) <==> first <= page < end by {
        if first <= page < end {
          assert Run(first, end)[page - first] == page;
        }
      }
    }
  }

  // Run to exhaustion the cursor yields, strictly ascending, exactly the pages whose sector
  // is in range and reserved or started by the system area.
  lemma EligiblePagesExact(v: Volume)
    ensures forall page: nat :: page in EligiblePages(v) <==>
      page / SECTOR_PAGES < v.totalSectors && SectorEligible(v, page / SECTOR_PAGES)
    ensures forall i, j :: 0 <= i < j < |EligiblePages(v)| ==> EligiblePages(v)[i] < EligiblePages(v)[j]
  {
    RestOrdered(v, 0);
    forall page: nat
      ensures page in EligiblePages(v) <==>
        page / SECTOR_PAGES < v.totalSectors && SectorEligible(v, page / SECTOR_PAGES)
    {
      RestMembers(v, 0, page);
    }
  }

  // Bit by bit: a page is eligible exactly if its sector is in range and its bit is set in the
  // reservation masks, or it starts at or before the last system page.
  lemma EligibleByBit(v: Volume, page: nat)
    ensures var sector := page / 64;
      page in EligiblePages(v) <==>
        && sector < v.totalSectors
        && ((sector / 64 < |v.masks| && Bit(v.masks[sector / 64], sector % 64)) || sector * 64 <= v.systemLast)
  {
    var sector := page / 64;
    RestMembers(v, 0, page);
    if sector / 64 < |v.masks| {
      BitTest(v.masks[sector / 64], sector % 64);
    }
  }

  // Every eligible page fits exactly if no sector from 2^25 on is eligible.
  lemma FitsIff(v: Volume)
    ensures Fits(v) <==>
      Addressable(v) && forall sector :: 0x200_0000 <= sector < v.totalSectors ==> !SectorEligible(v, sector)
  {
    EligiblePagesExact(v);
    forall sector | 0x200_0000 <= sector < v.totalSectors && SectorEligible(v, sector)
      ensures !Fits(v)
    {
      var page := sector * SECTOR_PAGES;
      assert page / SECTOR_PAGES == sector;
      assert page in EligiblePages(v);
    }
    forall i | 0 <= i < |EligiblePages(v)| && EligiblePages(v)[i] > I32_MAX
      ensures exists sector :: 0x200_0000 <= sector < v.totalSectors && SectorEligible(v, sector)
    {
      var page := EligiblePages(v)[i];
      assert page in EligiblePages(v);
      assert 0x200_0000 <= page / SECTOR_PAGES < v.totalSectors && SectorEligible(v, page / SECTOR_PAGES);
    }
  }

  // Exhausting the cursor; `None` is `OpenFailure::Arithmetic`.
  method Drain(v: Volume) returns (r: Option<seq<nat>>)
    requires Addressable(v)
    ensures r == if Fits(v) then Some(EligiblePages(v)) else None
  {
    var cursor := new EligiblePageCursor();
    ghost var all := EligiblePages(v);
    var pages: seq<nat> := [];
    while true
      invariant fresh(cursor) && cursor.Valid()
      invariant |pages| <= |all| && pages == all[..|pages|] && cursor.Remaining(v) == all[|pages|..]
      invariant forall i :: 0 <= i < |pages| ==> pages[i] <= I32_MAX
      decreases |all| - |pages|
    {
      ghost var left := all[|pages|..];
      var next := cursor.Next(v);
      if next.TooLarge? {
        assert all[|pages|] == left[0];
        return None;
      }
      if next.Done? {
        assert pages == all;
        return Some(pages);
      }
      assert left[1..] == all[|pages| + 1..];
      pages := pages + [next.number];
    }
  }
}
