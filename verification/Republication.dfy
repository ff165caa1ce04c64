// A file whose one sector is read from its tables twice, with the bitmaps they hold each time:
// `collect_file_allocations` and `publish_file` in `src/inspection.rs` together.
module Republication {
  import opened Wrappers
  import opened Bits
  import opened Pages
  import opened FileTable
  import opened Walks
  import opened Claims
  import opened Allocation
  import Ownership
  import Session
  import SessionIndex

  // A table walk from a start page that links no further.
  lemma OnePageWalk(w: Walk, user: Envelope, c: Component)
    requires w.input.disk(w.start) == Plain(user) && user.pageType == PageType.FileTable
    requires w.input.decode(w.kind, user, w.offset) == Success(c) && c.next.None?
    requires w.start in w.before.tablePages && !w.input.cancelled(w.before.steps)
    requires w.before.steps + 1 <= w.input.policy.maxChainSteps
    requires w.before.decoded + IO_PAGE_SIZE <= w.input.policy.maxDecodedBytes
    requires IO_PAGE_SIZE <= w.input.policy.memoryLimit
    ensures IsWalk(w, None, Absorb(w.kind, w.start, w.before, TablePage(w.start, c)))
  {
    var page := TablePage(w.start, c);
    var p := [page];
    assert ValidAt(w, p, 0);
    assert CompletePath(w, p) && Affordable(w, p);
    CompletedIsComplete(w, p);
    assert p[..0] == [];
    assert FileTable.After(w, p) == Absorb(w.kind, w.start, w.before, page);
  }

  const FILE := Vfid(0, 64)
  const SECTOR := Sector(0, 1)
  const START := Vpid(0, 64)

  // One volume of 64 sectors.
  const VOLUMES: Geometry := map[0 := 64]

  // Where the header says its two tables start.
  const PARTIAL_AT: nat := 216
  const FULL_AT: nat := 264

  function TableOf(bitmap: u64, kind: Kind): Component
  {
    Component(if kind.Partial? then Partials([PartialSector(SECTOR, bitmap)]) else Fulls([]), None)
  }

  function TablePageArea(): Envelope
  {
    Envelope(PageType.FileTable, seq(DB_PAGE_SIZE, i => 0))
  }

  // A volume whose file holds this bitmap for its sector, read within a generous policy.
  function Source(bitmap: u64): Input
  {
    Input(_ => Plain(TablePageArea()),
          (kind, area, offset) => Success(TableOf(bitmap, kind)),
          ResourcePolicy(0x10_0000, 0, 1, 16, 0x10_0000),
          _ => false)
  }

  function HeaderOf(bitmap: u64): Header
  {
    Header(FILE, 0, CountOnes(bitmap), Monus(CountOnes(bitmap), 1), 1, 0, 0, 1, 1, 0, Some(PARTIAL_AT), Some(FULL_AT),
           None)
  }

  function ClaimOf(bitmap: u64): Claim
  {
    Claim(SECTOR, PartialClaim(bitmap))
  }

  // Both tables walked.
  function Walked(bitmap: u64): Traversal
  {
    Traversal({START}, [PartialSector(SECTOR, bitmap)], [], [], [], 2 * IO_PAGE_SIZE, 2)
  }

  function PartialWalked(bitmap: u64): Traversal
  {
    Traversal({START}, [PartialSector(SECTOR, bitmap)], [], [], [], IO_PAGE_SIZE, 1)
  }

  lemma PartialTableWalks(bitmap: u64)
    ensures IsWalk(Walk(Source(bitmap), START, PARTIAL_AT, Partial, Traversal({START}, [], [], [], [], 0, 0)), None,
                   PartialWalked(bitmap))
  {
    var w := Walk(Source(bitmap), START, PARTIAL_AT, Partial, Traversal({START}, [], [], [], [], 0, 0));
    var c := TableOf(bitmap, Partial);
    OnePageWalk(w, TablePageArea(), c);
    assert PartialsOf(c.items) == [PartialSector(SECTOR, bitmap)];
    assert Absorb(Partial, START, w.before, TablePage(START, c)) == PartialWalked(bitmap);
  }

  lemma FullTableWalks(bitmap: u64)
    ensures IsWalk(Walk(Source(bitmap), START, FULL_AT, Full, PartialWalked(bitmap)), None, Walked(bitmap))
  {
    var w := Walk(Source(bitmap), START, FULL_AT, Full, PartialWalked(bitmap));
    var c := TableOf(bitmap, Full);
    OnePageWalk(w, TablePageArea(), c);
    assert FullsOf(c.items) == [];
    assert Absorb(Full, START, w.before, TablePage(START, c)) == Walked(bitmap);
  }

  lemma AllWalked(input: Input, h: Header, initial: Traversal, t1: Traversal, t2: Traversal, t: Traversal)
    requires initial == Traversal({HeaderPage(h)}, [], [], [], [], 0, 0)
    requires OptionalWalk(input, HeaderPage(h), h.partialOffset, Partial, initial, None, t1)
    requires OptionalWalk(input, HeaderPage(h), h.fullOffset, Full, t1, None, t2)
    requires OptionalWalk(input, HeaderPage(h), h.userOffset, User, t2, None, t)
    ensures TablesWalked(input, h, None, t)
  {
    assert RestWalked(input, h, t1, None, t);
  }

  lemma TablesWalk(bitmap: u64)
    ensures TablesWalked(Source(bitmap), HeaderOf(bitmap), None, Walked(bitmap))
  {
    PartialTableWalks(bitmap);
    FullTableWalks(bitmap);
    AllWalked(Source(bitmap), HeaderOf(bitmap), Traversal({START}, [], [], [], [], 0, 0), PartialWalked(bitmap),
              Walked(bitmap), Walked(bitmap));
  }

  lemma TablesReconcile(bitmap: u64)
    requires Bit(bitmap, 0)
    ensures Reconcile(VOLUMES, HeaderOf(bitmap), Walked(bitmap), 0x10_0000)
         == Success(Ownership.OneClaim(ClaimOf(bitmap)))
  {
    var h, t, claims := HeaderOf(bitmap), Walked(bitmap), [ClaimOf(bitmap)];
    assert ClaimsOf(t) == claims;
    NoFaultFrom(VOLUMES, claims, 0);
    ClaimSize(claims[0]);
    assert claims[..0] == [];
    assert AllPages(claims) == PagesOf(claims[0]);
    PageOfClaim(claims[0], START);
  }

  // The file as read from a source with this bitmap.
  function FileWith(bitmap: u64): Ownership.FileFacts
  {
    Ownership.FileFacts(FILE, Ownership.OneClaim(ClaimOf(bitmap)))
  }

  // The header and the volume are ones their decoders accept, and the collection of the file from
  // this source gives its facts.
  ghost predicate Collects(bitmap: u64)
  {
    && HeaderAccepted(HeaderOf(bitmap)) && GeometryAccepted(VOLUMES)
    && IsCollection(Source(bitmap), VOLUMES, HeaderOf(bitmap), Success(FileWith(bitmap).facts))
  }

  lemma HeaderIsAccepted(bitmap: u64)
    requires Bit(bitmap, 0)
    ensures HeaderAccepted(HeaderOf(bitmap))
  {
    ClaimSize(ClaimOf(bitmap));
    PageOfClaim(ClaimOf(bitmap), START);
    assert PagesOf(ClaimOf(bitmap)) != {};
  }

  lemma TablesCollect(bitmap: u64)
    requires Bit(bitmap, 0)
    ensures IsCollection(Source(bitmap), VOLUMES, HeaderOf(bitmap), Success(FileWith(bitmap).facts))
  {
    TablesWalk(bitmap);
    TablesReconcile(bitmap);
  }

  lemma VolumesAccepted()
    ensures GeometryAccepted(VOLUMES)
  {
  }

  // Every bitmap that covers the header page, which is the first of its sector, passes all checks.
  lemma BitmapCollects(bitmap: u64)
    requires Bit(bitmap, 0)
    ensures Collects(bitmap)
  {
    HeaderIsAccepted(bitmap);
    VolumesAccepted();
    TablesCollect(bitmap);
  }

  lemma PageOfFile(bitmap: u64, v: Vpid)
    ensures v in FileWith(bitmap).facts.pages <==> SectorOf(v) == SECTOR && Bit(bitmap, v.page % SECTOR_PAGES)
  {
    Ownership.OneClaimPages(ClaimOf(bitmap), v);
    PageOfClaim(ClaimOf(bitmap), v);
  }

  // The second bitmap has every bit of the first.
  predicate BitsWithin(before: u64, after: u64)
  {
    forall b: nat :: b < SECTOR_PAGES && Bit(before, b) ==> Bit(after, b)
  }

  lemma PagesWithinIff(before: u64, after: u64)
    ensures FileWith(before).facts.pages <= FileWith(after).facts.pages <==> BitsWithin(before, after)
  {
    var x, y := FileWith(before).facts.pages, FileWith(after).facts.pages;
    if BitsWithin(before, after) {
      forall v | v in x
        ensures v in y
      {
        PageOfFile(before, v);
        PageOfFile(after, v);
      }
    }
    forall b: nat | b < SECTOR_PAGES && x <= y && Bit(before, b)
      ensures Bit(after, b)
    {
      var v := PageAt(SECTOR, b);
      assert SectorOf(v) == SECTOR && v.page % SECTOR_PAGES == b;
      PageOfFile(before, v);
      PageOfFile(after, v);
    }
  }

  // What a live session does that reads the file, meets its header page torn, and reads it again.
  function Rereading(before: u64, after: u64): seq<Session.Enrichment>
  {
    [Session.FilePublished(FileWith(before)), Session.PageRefused(START, "page.envelope.lsa_match"),
     Session.FilePublished(FileWith(after))]
  }

  // A session whose scan has seen the first two sectors of the volume, the ones in use.
  function Scanned(): Session.SessionData
  {
    var pages := map p: nat | p < 2 * SECTOR_PAGES :: Vpid(0, p) := false;
    Session.Opened([64], pages, |pages|, |pages|, |pages|, None, false, [])
  }

  // Nothing is owned yet, and the header page has a fast fact.
  lemma ScannedFacts(bitmap: u64)
    ensures var d := Scanned();
      && SessionIndex.OwnersKnown(d) && !Session.HeaderKnown(d, START)
      && !Ownership.OwnedByOther(d.evidence.index, FileWith(bitmap))
      && START in d.decryptedPages && d.revision == 0
    ensures FactsConsistent(FileWith(bitmap).facts)
  {
  }

  // Both readings pass every check, and the indexes agree afterwards exactly if the file still
  // has every page it had.
  lemma RereadAgreesIff(before: u64, after: u64)
    requires Bit(before, 0) && Bit(after, 0)
    ensures Collects(before) && Collects(after)
    ensures Ownership.Agrees(Session.After(Scanned(), Rereading(before, after)).evidence.index)
       <==> BitsWithin(before, after)
  {
    BitmapCollects(before);
    BitmapCollects(after);
    PagesWithinIff(before, after);
    ScannedFacts(before);
    ScannedFacts(after);
    SessionIndex.RepublicationAgreesIff(Scanned(), FileWith(before), FileWith(after), "page.envelope.lsa_match");
  }

  // Both readings are sound and the indexes disagree after them.
  ghost predicate Disagree(before: u64, after: u64)
  {
    && Collects(before) && Collects(after)
    && !Ownership.Agrees(Session.After(Scanned(), Rereading(before, after)).evidence.index)
  }

  lemma LostPageDisagrees(before: u64, after: u64, b: nat)
    requires Bit(before, 0) && Bit(after, 0)
    requires b < SECTOR_PAGES && Bit(before, b) && !Bit(after, b)
    ensures Disagree(before, after)
  {
    RereadAgreesIff(before, after);
  }

  // So agreement does break: here the second page of the sector is given up between two readings.
  lemma RereadCanDisagree()
    ensures exists before: u64, after: u64 :: Disagree(before, after)
  {
    var before: u64 :| before == 3;
    var after: u64 :| after == 1;
    assert Bit(before / 2, 0) && !Bit(after / 2, 0);
    LostPageDisagrees(before, after, 1);
  }
}
