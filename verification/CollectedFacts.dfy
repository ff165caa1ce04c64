// When the collection of a file's allocations succeeds and what it gives, stated over the rows of
// its tables: `collect_file_allocations` in `src/inspection.rs`.
module CollectedFacts {
  import opened Wrappers
  import opened Bits
  import opened Pages
  import opened FileTable
  import opened Claims
  import opened Allocation
  import opened TableRows

  // The optional tables are there exactly as the flags say.
  predicate TablesPresent(h: Header)
  {
    && h.partialOffset.Some?
    && (h.fullOffset.Some? <==> !Bit(h.flags, 1))
    && (h.userOffset.Some? <==> Bit(h.flags, 0))
  }

  // The header's counts are those of the rows and table pages.
  ghost predicate CountsFit(h: Header, tablePages: nat, partials: seq<PartialSector>, fulls: seq<Sector>,
                            users: seq<UserPage>)
  {
    && |partials| == (if Bit(h.flags, 1) then h.sectorTotal else h.sectorPartial)
    && (!Bit(h.flags, 1) ==> |fulls| == h.sectorFull)
    && tablePages == h.pageFtab
    && (Bit(h.flags, 0) ==> |users| == h.pageUser)
    && |set i | 0 <= i < |users| && users[i].markedDeleted| == h.pageMarkedDelete
  }

  // The page at this position of the sector has a number that fits an i32 and lies in its volume.
  predicate PositionExists(volumes: Geometry, s: Sector, b: nat)
  {
    var page := s.id * 64 + b;
    && page <= 0x7FFF_FFFF
    && s.vol in volumes && volumes[s.vol] * 64 <= 0xFFFF_FFFF && page < volumes[s.vol] * 64
  }

  predicate PartialInRange(volumes: Geometry, row: PartialSector)
  {
    forall b: nat :: b < 64 && Bit(row.bitmap, b) ==> PositionExists(volumes, row.sector, b)
  }

  predicate FullInRange(volumes: Geometry, row: Sector)
  {
    forall b: nat :: b < 64 ==> PositionExists(volumes, row, b)
  }

  predicate Exists(volumes: Geometry, c: Claim)
  {
    if c.kind.FullClaim? then FullInRange(volumes, c.sector)
    else PartialInRange(volumes, PartialSector(c.sector, c.kind.bitmap))
  }

  // The first n claims are of distinct sectors, and their pages exist.
  ghost predicate InOrder(volumes: Geometry, claims: seq<Claim>, n: nat)
    requires n <= |claims|
  {
    && (forall i, j :: 0 <= i < j < n ==> claims[i].sector != claims[j].sector)
    && (forall i :: 0 <= i < n ==> Exists(volumes, claims[i]))
  }

  // A row covers the page: its bit is set in the bitmap of its sector, or the sector is full.
  ghost predicate RowCovers(partials: seq<PartialSector>, fulls: seq<Sector>, v: Vpid)
  {
    || (exists i :: 0 <= i < |partials| && partials[i].sector == Sector(v.vol, v.page / 64)
                    && Bit(partials[i].bitmap, v.page % 64))
    || (exists i :: 0 <= i < |fulls| && fulls[i] == Sector(v.vol, v.page / 64))
  }

  // One claim a row, in order, and exactly the covered pages.
  ghost predicate FactsMatch(partials: seq<PartialSector>, fulls: seq<Sector>, facts: Facts)
  {
    && |facts.claims| == |partials| + |fulls|
    && (forall i :: 0 <= i < |partials| ==>
          facts.claims[i] == Claim(partials[i].sector, PartialClaim(partials[i].bitmap)))
    && (forall i :: |partials| <= i < |facts.claims| ==> facts.claims[i] == Claim(fulls[i - |partials|], FullClaim))
    && (forall v :: v in facts.pages <==> RowCovers(partials, fulls, v))
  }

  // The pages account for the header's totals and include the table pages and user pages.
  ghost predicate PagesFit(h: Header, tablePages: set<Vpid>, users: seq<UserPage>, pages: set<Vpid>)
  {
    && |pages| == (if h.pageTotal < h.pageFree then 0 else h.pageTotal - h.pageFree)
    && tablePages <= pages
    && forall i :: 0 <= i < |users| ==> users[i].vpid in pages
  }

  ghost predicate Accounts(volumes: Geometry, h: Header, tablePages: set<Vpid>, partials: seq<PartialSector>,
                           fulls: seq<Sector>, users: seq<UserPage>, limit: nat, facts: Facts)
  {
    && CountsFit(h, |tablePages|, partials, fulls, users)
    && FactsMatch(partials, fulls, facts)
    && InOrder(volumes, facts.claims, |facts.claims|)
    && PagesFit(h, tablePages, users, facts.pages)
    && 16 * |facts.pages| + 24 * |facts.claims| <= limit
  }

  // ---- Counts ----

  lemma FlagsAre(h: Header)
    ensures Temporary(h) <==> Bit(h.flags, 1)
    ensures Numerable(h) <==> Bit(h.flags, 0)
  {
    BitTest(h.flags, 1);
    BitTest(h.flags, 0);
    assert Shl(1, 1) == 2 && Shl(1, 0) == 1;
  }

  lemma {:induction false} DeletedAre(users: seq<UserPage>)
    ensures DeletedCount(users) == |set i | 0 <= i < |users| && users[i].markedDeleted|
  {
    var marked := set i | 0 <= i < |users| && users[i].markedDeleted;
    if users == [] {
      assert marked == {};
    } else {
      var n, rest := |users| - 1, users[..|users| - 1];
      var before := set i | 0 <= i < |rest| && rest[i].markedDeleted;
      DeletedAre(rest);
      assert marked == if users[n].markedDeleted then before + {n} else before;
    }
  }

  lemma CountsFitIff(h: Header, t: Traversal)
    ensures CountsReconcile(h, t) <==> CountsFit(h, |t.tablePages|, t.partials, t.fulls, t.users)
  {
    FlagsAre(h);
    DeletedAre(t.users);
  }

  lemma PresenceIff(h: Header)
    ensures PresenceFailure(h).None? <==> TablesPresent(h)
  {
    FlagsAre(h);
  }

  // ---- Ranges ----

  lemma PositionIs(volumes: Geometry, s: Sector, b: nat)
    ensures PageInRange(volumes, PageAt(s, b)) <==> PositionExists(volumes, s, b)
  {
  }

  lemma PartialRangeIs(volumes: Geometry, row: PartialSector)
    ensures ClaimInRange(volumes, Claim(row.sector, PartialClaim(row.bitmap))) <==> PartialInRange(volumes, row)
  {
    var c := Claim(row.sector, PartialClaim(row.bitmap));
    forall b: nat | b < 64
      ensures Covers(c.kind, b) <==> Bit(row.bitmap, b)
      ensures PageInRange(volumes, PageAt(row.sector, b)) <==> PositionExists(volumes, row.sector, b)
    {
      PositionIs(volumes, row.sector, b);
    }
  }

  lemma FullRangeIs(volumes: Geometry, row: Sector)
    ensures ClaimInRange(volumes, Claim(row, FullClaim)) <==> FullInRange(volumes, row)
  {
    forall b: nat | b < 64
      ensures Covers(FullClaim, b)
      ensures PageInRange(volumes, PageAt(row, b)) <==> PositionExists(volumes, row, b)
    {
      PositionIs(volumes, row, b);
    }
    var c := Claim(row, FullClaim);
    if ClaimInRange(volumes, c) {
      forall b: nat | b < 64
        ensures PositionExists(volumes, row, b)
      {
        assert Covers(c.kind, b);
      }
    }
  }

  // ---- The first claim out of order ----

  // The claims before k are in order, and claim k repeats a sector.
  ghost predicate RepeatsAt(volumes: Geometry, claims: seq<Claim>, k: nat)
  {
    && k < |claims| && InOrder(volumes, claims, k)
    && exists j :: 0 <= j < k && claims[j].sector == claims[k].sector
  }

  // The claims before k are in order, and claim k has a new sector but a page that does not exist.
  ghost predicate StraysAt(volumes: Geometry, claims: seq<Claim>, k: nat)
  {
    && k < |claims| && InOrder(volumes, claims, k)
    && (forall j :: 0 <= j < k ==> claims[j].sector != claims[k].sector)
    && !Exists(volumes, claims[k])
  }

  lemma ClaimExistsIff(volumes: Geometry, c: Claim)
    ensures ClaimInRange(volumes, c) <==> Exists(volumes, c)
  {
    match c.kind
    case FullClaim => FullRangeIs(volumes, c.sector);
    case PartialClaim(bitmap) => PartialRangeIs(volumes, PartialSector(c.sector, bitmap));
  }

  lemma {:induction false} FaultIs(volumes: Geometry, claims: seq<Claim>, i: nat)
    requires i <= |claims| && InOrder(volumes, claims, i)
    ensures var fault := FirstFault(volumes, claims, i);
      || (fault == None && InOrder(volumes, claims, |claims|))
      || (fault == Some("file.table.sector_unique") && exists k :: RepeatsAt(volumes, claims, k))
      || (fault == Some("file.table.page_range") && exists k :: StraysAt(volumes, claims, k))
    decreases |claims| - i
  {
    if i < |claims| {
      ClaimExistsIff(volumes, claims[i]);
      if SectorRepeats(claims, i) {
        assert RepeatsAt(volumes, claims, i);
      } else if !ClaimInRange(volumes, claims[i]) {
        assert StraysAt(volumes, claims, i);
      } else {
        FaultIs(volumes, claims, i + 1);
      }
    }
  }

  // Claims are in order, or one place repeats a sector, or one place has no such page.
  lemma FaultsExclude(volumes: Geometry, claims: seq<Claim>, k: nat, m: nat)
    requires k < |claims| && (RepeatsAt(volumes, claims, k) || StraysAt(volumes, claims, k))
    ensures !InOrder(volumes, claims, |claims|)
    ensures RepeatsAt(volumes, claims, k) ==> !StraysAt(volumes, claims, m)
    ensures StraysAt(volumes, claims, k) ==> !RepeatsAt(volumes, claims, m)
  {
  }

  lemma FaultIff(volumes: Geometry, claims: seq<Claim>)
    ensures var fault := FirstFault(volumes, claims, 0);
      && (fault == None <==> InOrder(volumes, claims, |claims|))
      && (fault == Some("file.table.sector_unique") <==> exists k :: RepeatsAt(volumes, claims, k))
      && (fault == Some("file.table.page_range") <==> exists k :: StraysAt(volumes, claims, k))
    ensures FirstFault(volumes, claims, 0) in
      {None, Some("file.table.sector_unique"), Some("file.table.page_range")}
  {
    FaultIs(volumes, claims, 0);
    forall k: nat, m: nat | k < |claims| && (RepeatsAt(volumes, claims, k) || StraysAt(volumes, claims, k))
      ensures !InOrder(volumes, claims, |claims|)
      ensures RepeatsAt(volumes, claims, k) ==> !StraysAt(volumes, claims, m)
      ensures StraysAt(volumes, claims, k) ==> !RepeatsAt(volumes, claims, m)
    {
      FaultsExclude(volumes, claims, k, m);
    }
  }

  // ---- Pages ----

  lemma CoveredIff(t: Traversal, v: Vpid)
    ensures v in AllPages(ClaimsOf(t)) <==> RowCovers(t.partials, t.fulls, v)
  {
    var claims, n := ClaimsOf(t), |t.partials|;
    PageOfSomeClaim(claims, v);
    forall k | 0 <= k < |claims|
      ensures v in PagesOf(claims[k]) <==>
        if k < n then t.partials[k].sector == Sector(v.vol, v.page / 64) && Bit(t.partials[k].bitmap, v.page % 64)
        else t.fulls[k - n] == Sector(v.vol, v.page / 64)
    {
      PageOfClaim(claims[k], v);
    }
    if i :| 0 <= i < n && t.partials[i].sector == Sector(v.vol, v.page / 64) && Bit(t.partials[i].bitmap, v.page % 64) {
      assert v in PagesOf(claims[i]);
    }
    if i :| 0 <= i < |t.fulls| && t.fulls[i] == Sector(v.vol, v.page / 64) {
      assert v in PagesOf(claims[n + i]);
    }
    if k :| 0 <= k < |claims| && v in PagesOf(claims[k]) {
      assert k >= n ==> t.fulls[k - n] == Sector(v.vol, v.page / 64);
    }
  }

  lemma FactsMatchIff(t: Traversal, facts: Facts)
    ensures facts == Facts(AllPages(ClaimsOf(t)), ClaimsOf(t)) <==> FactsMatch(t.partials, t.fulls, facts)
  {
    var claims, n := ClaimsOf(t), |t.partials|;
    forall v
      ensures v in AllPages(claims) <==> RowCovers(t.partials, t.fulls, v)
    {
      CoveredIff(t, v);
    }
    if FactsMatch(t.partials, t.fulls, facts) {
      assert facts.claims == claims;
      assert facts.pages == AllPages(claims);
    }
  }

  // The reconciliation gives these facts exactly if the rows account for the file.
  lemma ReconcileIff(volumes: Geometry, h: Header, t: Traversal, limit: u64, facts: Facts)
    ensures Reconcile(volumes, h, t, limit) == Success(facts)
       <==> Accounts(volumes, h, t.tablePages, t.partials, t.fulls, t.users, limit, facts)
  {
    CountsFitIff(h, t);
    FactsMatchIff(t, facts);
    ReconcileGives(volumes, h, t, limit, Facts(AllPages(ClaimsOf(t)), ClaimsOf(t)));
  }

  lemma ReconcileGives(volumes: Geometry, h: Header, t: Traversal, limit: u64, facts: Facts)
    requires facts == Facts(AllPages(ClaimsOf(t)), ClaimsOf(t))
    ensures var r := Reconcile(volumes, h, t, limit);
      && (r.Success? <==>
            && CountsReconcile(h, t) && InOrder(volumes, facts.claims, |facts.claims|)
            && PagesFit(h, t.tablePages, t.users, facts.pages)
            && 16 * |facts.pages| + 24 * |facts.claims| <= limit)
      && (r.Success? ==> r.value == facts)
  {
    FaultIff(volumes, facts.claims);
  }

  // ---- The collection ----

  // What makes the collection give these facts: the three tables can be read and afforded, and
  // their rows account for the file.
  ghost predicate Gives(input: Input, volumes: Geometry, h: Header, facts: Facts)
  {
    && TablesPresent(h)
    && exists p, q, u ::
         && TablesRead(input, h, p, q, u) && TablesAfforded(input, p, q, u)
         && Accounts(volumes, h, {Vpid(h.vfid.vol, h.vfid.file)} + Visited(p) + Visited(q) + Visited(u),
                     PartialRows(p), FullRows(q), UserRows(u), input.policy.memoryLimit, facts)
  }

  // The collection of a file gives its facts exactly if the chains of its tables can be read and
  // afforded and their rows, all of them and in order, account for the file.
  lemma CollectionGivesIff(input: Input, volumes: Geometry, h: Header, r: Result<Facts, TableError>, facts: Facts)
    requires IsCollection(input, volumes, h, r)
    ensures r == Success(facts) <==> Gives(input, volumes, h, facts)
  {
    PresenceIff(h);
    if PresenceFailure(h).None? {
      var failure, t :| TablesWalked(input, h, failure, t)
        && r == if failure.Some? then Failure(failure.value)
                else Reconcile(volumes, h, t, input.policy.memoryLimit);
      if r == Success(facts) {
        CollectedGives(input, volumes, h, t, facts);
      }
      if Gives(input, volumes, h, facts) {
        GivenIsCollected(input, volumes, h, failure, t, facts);
      }
    }
  }

  lemma CollectedGives(input: Input, volumes: Geometry, h: Header, t: Traversal, facts: Facts)
    requires TablesPresent(h) && TablesWalked(input, h, None, t)
    requires Reconcile(volumes, h, t, input.policy.memoryLimit) == Success(facts)
    ensures Gives(input, volumes, h, facts)
  {
    TablesWalkedIff(input, h, t);
    var p, q, u :| TablesRead(input, h, p, q, u) && TablesAfforded(input, p, q, u) && t == AllRead(h, p, q, u);
    ReconcileIff(volumes, h, t, input.policy.memoryLimit, facts);
  }

  lemma GivenIsCollected(input: Input, volumes: Geometry, h: Header, failure: Option<TableError>, t: Traversal,
                         facts: Facts)
    requires TablesWalked(input, h, failure, t) && Gives(input, volumes, h, facts)
    ensures failure.None? && Reconcile(volumes, h, t, input.policy.memoryLimit) == Success(facts)
  {
    var p, q, u :|
      && TablesRead(input, h, p, q, u) && TablesAfforded(input, p, q, u)
      && Accounts(volumes, h, {Vpid(h.vfid.vol, h.vfid.file)} + Visited(p) + Visited(q) + Visited(u),
                  PartialRows(p), FullRows(q), UserRows(u), input.policy.memoryLimit, facts);
    ReadAreWalked(input, h, p, q, u);
    TablesWalkedUnique(input, h, failure, t, None, AllRead(h, p, q, u));
    ReconcileIff(volumes, h, t, input.policy.memoryLimit, facts);
  }

  // ---- The refusals ----

  // The rule a file with readable tables is refused with: its counts, its first row out of order,
  // its totals, or the memory its facts would keep.
  ghost predicate Refused(volumes: Geometry, h: Header, tablePages: set<Vpid>, users: seq<UserPage>, limit: nat,
                          facts: Facts, counts: bool, r: Result<Facts, TableError>)
  {
    var rows := InOrder(volumes, facts.claims, |facts.claims|);
    var pages := PagesFit(h, tablePages, users, facts.pages);
    && (r == Failure(Decode("file.table.count_reconciliation")) <==> !counts)
    && (r == Failure(Decode("file.table.sector_unique")) <==>
          counts && exists k :: RepeatsAt(volumes, facts.claims, k))
    && (r == Failure(Decode("file.table.page_range")) <==> counts && exists k :: StraysAt(volumes, facts.claims, k))
    && (r == Failure(Decode("file.table.page_reconciliation")) <==> counts && rows && !pages)
    && (r == Failure(Operation(Arithmetic)) <==>
          counts && rows && pages && 16 * |facts.pages| + 24 * |facts.claims| > 0xFFFF_FFFF_FFFF_FFFF)
    && (r == Failure(Operation(LimitHit)) <==>
          counts && rows && pages && limit < 16 * |facts.pages| + 24 * |facts.claims| <= 0xFFFF_FFFF_FFFF_FFFF)
  }

  // Where the tables can be read and afforded, each refusal has exactly its own reason.
  lemma RefusalIsExact(input: Input, volumes: Geometry, h: Header, r: Result<Facts, TableError>, p: seq<TablePage>,
                       q: seq<TablePage>, u: seq<TablePage>, facts: Facts)
    requires IsCollection(input, volumes, h, r) && TablesPresent(h)
    requires TablesRead(input, h, p, q, u) && TablesAfforded(input, p, q, u)
    requires FactsMatch(PartialRows(p), FullRows(q), facts)
    ensures var tablePages := {Vpid(h.vfid.vol, h.vfid.file)} + Visited(p) + Visited(q) + Visited(u);
      Refused(volumes, h, tablePages, UserRows(u), input.policy.memoryLimit, facts,
              CountsFit(h, |tablePages|, PartialRows(p), FullRows(q), UserRows(u)), r)
  {
    PresenceIff(h);
    var failure, t :| TablesWalked(input, h, failure, t)
      && r == if failure.Some? then Failure(failure.value)
              else Reconcile(volumes, h, t, input.policy.memoryLimit);
    ReadAreWalked(input, h, p, q, u);
    TablesWalkedUnique(input, h, failure, t, None, AllRead(h, p, q, u));
    FactsMatchIff(t, facts);
    CountsFitIff(h, t);
    ReconcileRefuses(volumes, h, t, input.policy.memoryLimit, facts);
  }

  lemma ReconcileRefuses(volumes: Geometry, h: Header, t: Traversal, limit: u64, facts: Facts)
    requires facts == Facts(AllPages(ClaimsOf(t)), ClaimsOf(t))
    ensures Refused(volumes, h, t.tablePages, t.users, limit, facts, CountsReconcile(h, t),
                    Reconcile(volumes, h, t, limit))
  {
    FaultIff(volumes, facts.claims);
  }

  // A header whose tables do not go with its flags is refused before any table is read.
  lemma PresenceRefused(input: Input, volumes: Geometry, h: Header, r: Result<Facts, TableError>)
    requires IsCollection(input, volumes, h, r) && !TablesPresent(h)
    ensures r == Failure(Decode(
      if h.partialOffset.None? then "file.header.partial_table_required"
      else if h.fullOffset.Some? == Bit(h.flags, 1) then "file.header.full_table_presence"
      else "file.header.user_table_presence"))
  {
    FlagsAre(h);
  }
}
