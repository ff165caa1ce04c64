// From the tables of one file to its validated allocations: `collect_file_allocations`
// in `src/inspection.rs`.
module Allocation {
  import opened Wrappers
  import opened Bits
  import opened Pages
  import opened FileTable
  import opened Claims

  // Total sectors per volume, as the volume headers declare them.
  type Geometry = map<nat, nat>

  // The sector totals that volume headers can declare.
  predicate GeometryAccepted(volumes: Geometry)
  {
    forall v :: v in volumes ==> 0 < volumes[v] <= I32_MAX && volumes[v] % 64 == 0
  }

  // `PageId` conversion followed by the existence check of `GraphView::page`.
  predicate PageInRange(volumes: Geometry, v: Vpid)
  {
    && v.page <= I32_MAX
    && v.vol in volumes
    && volumes[v.vol] * SECTOR_PAGES <= U32_MAX
    && v.page < volumes[v.vol] * SECTOR_PAGES
  }

  predicate Temporary(h: Header)
  {
    BitAnd(h.flags, 2) != 0
  }

  predicate Numerable(h: Header)
  {
    BitAnd(h.flags, 1) != 0
  }

  function HeaderPage(h: Header): Vpid
  {
    Vpid(h.vfid.vol, h.vfid.file)
  }

  function Monus(a: nat, b: nat): nat
  {
    if a < b then 0 else a - b
  }

  function PartialClaims(partials: seq<PartialSector>): (claims: seq<Claim>)
    ensures |claims| == |partials|
    ensures forall i :: 0 <= i < |claims| ==>
      claims[i] == Claim(partials[i].sector, PartialClaim(partials[i].bitmap))
  {
    seq(|partials|, i requires 0 <= i < |partials| =>
      Claim(partials[i].sector, PartialClaim(partials[i].bitmap)))
  }

  function FullClaims(fulls: seq<Sector>): (claims: seq<Claim>)
    ensures |claims| == |fulls|
    ensures forall i :: 0 <= i < |claims| ==> claims[i] == Claim(fulls[i], FullClaim)
  {
    seq(|fulls|, i requires 0 <= i < |fulls| => Claim(fulls[i], FullClaim))
  }

  function ClaimsOf(t: Traversal): seq<Claim>
  {
    PartialClaims(t.partials) + FullClaims(t.fulls)
  }

  function DeletedCount(users: seq<UserPage>): nat
  {
    if users == [] then 0
    else DeletedCount(users[..|users| - 1]) + if users[|users| - 1].markedDeleted then 1 else 0
  }

  predicate CountsReconcile(h: Header, t: Traversal)
  {
    && |t.partials| == (if Temporary(h) then h.sectorTotal else h.sectorPartial)
    && (!Temporary(h) ==> |t.fulls| == h.sectorFull)
    && |t.tablePages| == h.pageFtab
    && (Numerable(h) ==> |t.users| == h.pageUser)
    && DeletedCount(t.users) == h.pageMarkedDelete
  }

  predicate SectorRepeats(claims: seq<Claim>, i: nat)
    requires i < |claims|
  {
    exists j :: 0 <= j < i && claims[j].sector == claims[i].sector
  }

  predicate ClaimInRange(volumes: Geometry, c: Claim)
  {
    forall b: nat :: b < SECTOR_PAGES && Covers(c.kind, b) ==> PageInRange(volumes, PageAt(c.sector, b))
  }

  // The first claim, from i on, that repeats a sector or covers a page out of range.
  function FirstFault(volumes: Geometry, claims: seq<Claim>, i: nat): Option<string>
    requires i <= |claims|
    decreases |claims| - i
  {
    if i == |claims| then None
    else if SectorRepeats(claims, i) then Some("file.table.sector_unique")
    else if !ClaimInRange(volumes, claims[i]) then Some("file.table.page_range")
    else FirstFault(volumes, claims, i + 1)
  }

  predicate PagesReconcile(h: Header, t: Traversal, pages: set<Vpid>)
  {
    && |pages| == Monus(h.pageTotal, h.pageFree)
    && t.tablePages <= pages
    && forall i :: 0 <= i < |t.users| ==> t.users[i].vpid in pages
  }

  function RetainedBytes(pages: set<Vpid>, claims: seq<Claim>): nat
  {
    |pages| * ALLOCATION_BYTES + |claims| * CLAIM_BYTES
  }

  // What the code concludes from completely walked tables.
  function Reconcile(volumes: Geometry, h: Header, t: Traversal, limit: nat): Result<Facts, TableError>
  {
    var claims := ClaimsOf(t);
    if !CountsReconcile(h, t) then Failure(Decode("file.table.count_reconciliation"))
    else match FirstFault(volumes, claims, 0)
      case Some(rule) => Failure(Decode(rule))
      case None =>
        var pages := AllPages(claims);
        if !PagesReconcile(h, t, pages) then Failure(Decode("file.table.page_reconciliation"))
        else if RetainedBytes(pages, claims) > U64_MAX then Failure(Operation(Arithmetic))
        else if RetainedBytes(pages, claims) > limit then Failure(Operation(LimitHit))
        else Success(Facts(pages, claims))
  }

  function PresenceFailure(h: Header): Option<string>
  {
    if h.partialOffset.None? then Some("file.header.partial_table_required")
    else if h.fullOffset.Some? == Temporary(h) then Some("file.header.full_table_presence")
    else if h.userOffset.Some? != Numerable(h) then Some("file.header.user_table_presence")
    else None
  }

  // A table that the header may lack.
  ghost predicate OptionalWalk(
    input: Input, start: Vpid, offset: Option<nat>, kind: Kind, before: Traversal, r: Option<TableError>,
    after: Traversal)
  {
    if offset.None? then r.None? && after == before
    else IsWalk(Walk(input, start, offset.value, kind, before), r, after)
  }

  // The partial, full and user tables walked in turn until one fails.
  ghost predicate TablesWalked(input: Input, h: Header, r: Option<TableError>, after: Traversal)
  {
    var start := HeaderPage(h);
    var initial := Traversal({start}, [], [], [], [], 0, 0);
    exists r1, t1 ::
      && OptionalWalk(input, start, h.partialOffset, Partial, initial, r1, t1)
      && if r1.Some? then r == r1 else RestWalked(input, h, t1, r, after)
  }

  ghost predicate RestWalked(input: Input, h: Header, t1: Traversal, r: Option<TableError>, after: Traversal)
  {
    var start := HeaderPage(h);
    exists r2, t2 ::
      && OptionalWalk(input, start, h.fullOffset, Full, t1, r2, t2)
      && if r2.Some? then r == r2 else OptionalWalk(input, start, h.userOffset, User, t2, r, after)
  }

  ghost predicate IsCollection(input: Input, volumes: Geometry, h: Header, r: Result<Facts, TableError>)
  {
    if PresenceFailure(h).Some? then r == Failure(Decode(PresenceFailure(h).value))
    else exists failure, t ::
      && TablesWalked(input, h, failure, t)
      && r == if failure.Some? then Failure(failure.value)
              else Reconcile(volumes, h, t, input.policy.memoryLimit)
  }

  // ---- The method ----

  method CollectFileAllocations(input: Input, volumes: Geometry, h: Header)
    returns (r: Result<Facts, TableError>)
    ensures IsCollection(input, volumes, h, r)
  {
    if h.partialOffset.None? {
      return Failure(Decode("file.header.partial_table_required"));
    }
    if h.fullOffset.Some? == Temporary(h) {
      return Failure(Decode("file.header.full_table_presence"));
    }
    if h.userOffset.Some? != Numerable(h) {
      return Failure(Decode("file.header.user_table_presence"));
    }
    var start := HeaderPage(h);
    var traversal := new FileTraversal(start);
    var failure := traversal.WalkFileTable(input, start, h.partialOffset.value, Partial);
    ghost var r1, t1 := failure, traversal.View();
    assert OptionalWalk(input, start, h.partialOffset, Partial, Traversal({start}, [], [], [], [], 0, 0), r1, t1);
    if failure.Some? {
      assert TablesWalked(input, h, failure, t1);
      return Failure(failure.value);
    }
    if h.fullOffset.Some? {
      failure := traversal.WalkFileTable(input, start, h.fullOffset.value, Full);
    }
    ghost var r2, t2 := failure, traversal.View();
    assert OptionalWalk(input, start, h.fullOffset, Full, t1, r2, t2);
    if failure.Some? {
      assert RestWalked(input, h, t1, failure, t2);
      assert TablesWalked(input, h, failure, t2);
      return Failure(failure.value);
    }
    if h.userOffset.Some? {
      failure := traversal.WalkFileTable(input, start, h.userOffset.value, User);
    }
    ghost var t3 := traversal.View();
    assert OptionalWalk(input, start, h.userOffset, User, t2, failure, t3);
    assert RestWalked(input, h, t1, failure, t3);
    assert TablesWalked(input, h, failure, t3);
    if failure.Some? {
      return Failure(failure.value);
    }
    r := ReconcileTables(traversal, volumes, h, input.policy.memoryLimit);
  }

  method CountDeleted(users: seq<UserPage>) returns (deleted: nat)
    ensures deleted == DeletedCount(users)
  {
    deleted := 0;
    for i := 0 to |users|
      invariant deleted == DeletedCount(users[..i])
    {
      assert users[..i + 1][..i] == users[..i];
      if users[i].markedDeleted {
        deleted := deleted + 1;
      }
    }
    assert users[..|users|] == users;
  }

  method CountsAgree(traversal: FileTraversal, h: Header) returns (agree: bool)
    ensures agree == CountsReconcile(h, traversal.View())
  {
    var deleted := CountDeleted(traversal.users);
    agree := !(|traversal.partials| != (if Temporary(h) then h.sectorTotal else h.sectorPartial)
               || (!Temporary(h) && |traversal.fulls| != h.sectorFull)
               || |traversal.tablePages| != h.pageFtab
               || (Numerable(h) && |traversal.users| != h.pageUser)
               || deleted != h.pageMarkedDelete);
  }

  method PagesAgree(traversal: FileTraversal, h: Header, allocations: set<Vpid>) returns (agree: bool)
    ensures agree == PagesReconcile(h, traversal.View(), allocations)
  {
    agree := !(|allocations| != Monus(h.pageTotal, h.pageFree)
               || !(traversal.tablePages <= allocations)
               || (exists i :: 0 <= i < |traversal.users| && traversal.users[i].vpid !in allocations));
  }

  method ReconcileTables(traversal: FileTraversal, volumes: Geometry, h: Header, limit: u64)
    returns (r: Result<Facts, TableError>)
    ensures r == Reconcile(volumes, h, traversal.View(), limit)
  {
    var counted := CountsAgree(traversal, h);
    if !counted {
      return Failure(Decode("file.table.count_reconciliation"));
    }
    var rows := PartialClaims(traversal.partials) + FullClaims(traversal.fulls);
    var fault, allocations, claims := ExpandClaims(volumes, rows);
    if fault.Some? {
      return Failure(Decode(fault.value));
    }
    var paged := PagesAgree(traversal, h, allocations);
    if !paged {
      return Failure(Decode("file.table.page_reconciliation"));
    }
    var retained := |allocations| * ALLOCATION_BYTES + |claims| * CLAIM_BYTES;
    if retained > U64_MAX {
      return Failure(Operation(Arithmetic));
    }
    if retained > limit {
      return Failure(Operation(LimitHit));
    }
    r := Success(Facts(allocations, claims));
  }

  // The loops over partial and full sectors: unique sectors, pages in range, pages collected.
  method ExpandClaims(volumes: Geometry, rows: seq<Claim>)
    returns (fault: Option<string>, allocations: set<Vpid>, claims: seq<Claim>)
    ensures fault == FirstFault(volumes, rows, 0)
    ensures fault.None? ==> allocations == AllPages(rows) && claims == rows
  {
    var sectors: set<Sector> := {};
    allocations, claims := {}, [];
    for i := 0 to |rows|
      invariant FirstFault(volumes, rows, 0) == FirstFault(volumes, rows, i)
      invariant sectors == set j | 0 <= j < i :: rows[j].sector
      invariant allocations == AllPages(rows[..i])
      invariant claims == rows[..i]
    {
      var c := rows[i];
      if c.sector in sectors {
        return Some("file.table.sector_unique"), allocations, claims;
      }
      sectors := sectors + {c.sector};
      claims := claims + [c];
      for b := 0 to SECTOR_PAGES
        invariant forall d: nat :: d < b && Covers(c.kind, d) ==> PageInRange(volumes, PageAt(c.sector, d))
        invariant allocations == AllPages(rows[..i]) + PagesBelow(c, b)
      {
        if Covers(c.kind, b) {
          var vpid := PageAt(c.sector, b);
          if !PageInRange(volumes, vpid) {
            assert !ClaimInRange(volumes, c);
            return Some("file.table.page_range"), allocations, claims;
          }
          allocations := allocations + {vpid};
        }
        PagesBelowGrows(c, b);
      }
      assert rows[..i + 1][..i] == rows[..i];
    }
    assert rows[..|rows|] == rows;
    fault := None;
  }

  lemma PagesBelowGrows(c: Claim, b: nat)
    requires b < SECTOR_PAGES
    ensures PagesBelow(c, b + 1) == PagesBelow(c, b) + if Covers(c.kind, b) then {PageAt(c.sector, b)} else {}
  {
  }

  // ---- What a successful collection proves ----

  lemma {:induction false} NoFaultFrom(volumes: Geometry, claims: seq<Claim>, i: nat)
    requires i <= |claims|
    ensures FirstFault(volumes, claims, i).None? <==>
      forall k :: i <= k < |claims| ==> !SectorRepeats(claims, k) && ClaimInRange(volumes, claims[k])
    decreases |claims| - i
  {
    if i < |claims| {
      NoFaultFrom(volumes, claims, i + 1);
    }
  }

  // The tables of a file that were all walked to their end.
  lemma WalkedTablesCountSteps(input: Input, h: Header, t: Traversal)
    requires h.partialOffset.Some? && TablesWalked(input, h, None, t)
    ensures var walks := 1 + (if h.fullOffset.Some? then 1 else 0) + (if h.userOffset.Some? then 1 else 0);
      |t.tablePages| + walks == t.steps + 1
    ensures HeaderPage(h) in t.tablePages && t.steps <= input.policy.maxChainSteps
  {
    var start := HeaderPage(h);
    var initial := Traversal({start}, [], [], [], [], 0, 0);
    var r1, t1 :| OptionalWalk(input, start, h.partialOffset, Partial, initial, r1, t1)
      && if r1.Some? then None == r1 else RestWalked(input, h, t1, None, t);
    TablePagesCountSteps(Walk(input, start, h.partialOffset.value, Partial, initial), t1);
    var r2, t2 :| OptionalWalk(input, start, h.fullOffset, Full, t1, r2, t2)
      && if r2.Some? then None == r2 else OptionalWalk(input, start, h.userOffset, User, t2, None, t);
    if h.fullOffset.Some? {
      TablePagesCountSteps(Walk(input, start, h.fullOffset.value, Full, t1), t2);
    }
    if h.userOffset.Some? {
      TablePagesCountSteps(Walk(input, start, h.userOffset.value, User, t2), t);
    }
  }

  // Facts whose page set is exactly the disjoint union of its claims' pages.
  ghost predicate FactsConsistent(facts: Facts)
  {
    && DistinctSectors(facts.claims)
    && facts.pages == AllPages(facts.claims)
  }

  lemma ReconciledFacts(volumes: Geometry, h: Header, t: Traversal, limit: nat)
    requires Reconcile(volumes, h, t, limit).Success?
    ensures var facts := Reconcile(volumes, h, t, limit).value;
      && facts.claims == ClaimsOf(t) && FactsConsistent(facts)
      && CountsReconcile(h, t) && PagesReconcile(h, t, facts.pages)
      && |facts.pages| == AllocatedSum(facts.claims)
    ensures forall i :: 0 <= i < |ClaimsOf(t)| ==> ClaimInRange(volumes, ClaimsOf(t)[i])
  {
    var claims := ClaimsOf(t);
    NoFaultFrom(volumes, claims, 0);
    AllPagesDistinct(claims);
    AllPagesSize(claims);
  }

  // Conservation: the collected pages are the disjoint union of the claims' pages, as many
  // as the bitmaps have set bits plus 64 for each full sector, and as many as the header
  // accounts for; they lie in their volumes and include every table page and user page.
  lemma CollectionIsConservative(input: Input, volumes: Geometry, h: Header, r: Result<Facts, TableError>)
    requires IsCollection(input, volumes, h, r) && r.Success?
    ensures FactsConsistent(r.value)
    ensures |r.value.pages| == AllocatedSum(r.value.claims) == Monus(h.pageTotal, h.pageFree)
    ensures forall v :: v in r.value.pages ==> PageInRange(volumes, v)
    ensures exists t ::
      && TablesWalked(input, h, None, t)
      && r.value.claims == ClaimsOf(t) && CountsReconcile(h, t)
      && t.tablePages <= r.value.pages && HeaderPage(h) in r.value.pages
      && (forall i :: 0 <= i < |t.users| ==> t.users[i].vpid in r.value.pages)
  {
    var failure, t :| TablesWalked(input, h, failure, t)
      && r == if failure.Some? then Failure(failure.value)
              else Reconcile(volumes, h, t, input.policy.memoryLimit);
    WalkedTablesCountSteps(input, h, t);
    ReconciledFacts(volumes, h, t, input.policy.memoryLimit);
    forall v | v in r.value.pages
      ensures PageInRange(volumes, v)
    {
      PagesOfClaimsInRange(volumes, ClaimsOf(t), v);
    }
  }

  lemma PagesOfClaimsInRange(volumes: Geometry, claims: seq<Claim>, v: Vpid)
    requires v in AllPages(claims)
    requires forall i :: 0 <= i < |claims| ==> ClaimInRange(volumes, claims[i])
    ensures PageInRange(volumes, v)
  {
    PageOfSomeClaim(claims, v);
  }

  lemma AllPagesDistinct(claims: seq<Claim>)
    requires forall k :: 0 <= k < |claims| ==> !SectorRepeats(claims, k)
    ensures DistinctSectors(claims)
  {
    forall i, j | 0 <= i < j < |claims|
      ensures claims[i].sector != claims[j].sector
    {
      assert !SectorRepeats(claims, j);
    }
  }

  lemma OptionalWalkUnique(
    input: Input, start: Vpid, offset: Option<nat>, kind: Kind, before: Traversal,
    r: Option<TableError>, t: Traversal, r': Option<TableError>, t': Traversal)
    requires OptionalWalk(input, start, offset, kind, before, r, t)
    requires OptionalWalk(input, start, offset, kind, before, r', t')
    ensures r.None? <==> r'.None?
    ensures r.None? ==> t == t'
  {
    if offset.Some? {
      var w := Walk(input, start, offset.value, kind, before);
      WalkSucceedsIffComplete(w, r, t);
      WalkSucceedsIffComplete(w, r', t');
    }
  }

  // The outcome of the three walks is determined.
  lemma TablesWalkedUnique(
    input: Input, h: Header, r: Option<TableError>, t: Traversal, r': Option<TableError>, t': Traversal)
    requires TablesWalked(input, h, r, t) && TablesWalked(input, h, r', t')
    ensures r.None? <==> r'.None?
    ensures r.None? ==> t == t'
  {
    var start := HeaderPage(h);
    var initial := Traversal({start}, [], [], [], [], 0, 0);
    var r1, t1 :| OptionalWalk(input, start, h.partialOffset, Partial, initial, r1, t1)
      && if r1.Some? then r == r1 else RestWalked(input, h, t1, r, t);
    var s1, u1 :| OptionalWalk(input, start, h.partialOffset, Partial, initial, s1, u1)
      && if s1.Some? then r' == s1 else RestWalked(input, h, u1, r', t');
    OptionalWalkUnique(input, start, h.partialOffset, Partial, initial, r1, t1, s1, u1);
    if r1.None? {
      var r2, t2 :| OptionalWalk(input, start, h.fullOffset, Full, t1, r2, t2)
        && if r2.Some? then r == r2 else OptionalWalk(input, start, h.userOffset, User, t2, r, t);
      var s2, u2 :| OptionalWalk(input, start, h.fullOffset, Full, t1, s2, u2)
        && if s2.Some? then r' == s2 else OptionalWalk(input, start, h.userOffset, User, u2, r', t');
      OptionalWalkUnique(input, start, h.fullOffset, Full, t1, r2, t2, s2, u2);
      if r2.None? {
        OptionalWalkUnique(input, start, h.userOffset, User, t2, r, t, r', t');
      }
    }
  }

  // The tables account for the file: counts, unique sectors in range, page totals, memory.
  ghost predicate Reconciles(volumes: Geometry, h: Header, t: Traversal, limit: nat)
  {
    var claims := ClaimsOf(t);
    && CountsReconcile(h, t)
    && DistinctSectors(claims)
    && (forall i :: 0 <= i < |claims| ==> ClaimInRange(volumes, claims[i]))
    && PagesReconcile(h, t, AllPages(claims))
    && RetainedBytes(AllPages(claims), claims) <= limit
  }

  lemma ReconcileSucceedsIff(volumes: Geometry, h: Header, t: Traversal, limit: u64)
    ensures Reconcile(volumes, h, t, limit).Success? <==> Reconciles(volumes, h, t, limit)
  {
    var claims := ClaimsOf(t);
    NoFaultFrom(volumes, claims, 0);
    if forall k :: 0 <= k < |claims| ==> !SectorRepeats(claims, k) {
      AllPagesDistinct(claims);
    }
  }

  // A collection succeeds exactly when the header's tables all walk to their end and what
  // they hold accounts for the file.
  lemma CollectionSucceedsIff(input: Input, volumes: Geometry, h: Header, r: Result<Facts, TableError>)
    requires IsCollection(input, volumes, h, r)
    ensures r.Success? <==>
      PresenceFailure(h).None?
      && exists t :: TablesWalked(input, h, None, t) && Reconciles(volumes, h, t, input.policy.memoryLimit)
  {
    if PresenceFailure(h).None? {
      var failure, t :| TablesWalked(input, h, failure, t)
        && r == if failure.Some? then Failure(failure.value)
                else Reconcile(volumes, h, t, input.policy.memoryLimit);
      ReconcileSucceedsIff(volumes, h, t, input.policy.memoryLimit);
      forall u | TablesWalked(input, h, None, u)
        ensures failure.None? && u == t
      {
        TablesWalkedUnique(input, h, failure, t, None, u);
      }
    }
  }
}
