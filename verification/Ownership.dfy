// The two ownership indexes of a session, page to file and sector to claims: the inventory
// loop of `enrich_file_inventory`, `publish_file`, `page_file_association`,
// `sector_attribution` and `file_pages` in `src/inspection.rs`.
module Ownership {
  import opened Wrappers
  import opened Pages
  import opened FileTable
  import opened Claims
  import opened Allocation

  datatype SectorClaim = SectorClaim(vfid: Vfid, kind: ClaimKind)

  // `file_allocations` and `sector_claims`.
  datatype Index = Index(owners: map<Vpid, Vfid>, claims: map<Sector, seq<SectorClaim>>)

  datatype FileFacts = FileFacts(vfid: Vfid, facts: Facts)

  function Listed(m: map<Sector, seq<SectorClaim>>, s: Sector): seq<SectorClaim>
  {
    if s in m then m[s] else []
  }

  function AppendClaims(m: map<Sector, seq<SectorClaim>>, f: Vfid, claims: seq<Claim>): map<Sector, seq<SectorClaim>>
  {
    if claims == [] then m
    else
      var c := claims[|claims| - 1];
      var before := AppendClaims(m, f, claims[..|claims| - 1]);
      before[c.sector := Listed(before, c.sector) + [SectorClaim(f, c.kind)]]
  }

  // What a file's claims contribute to one sector's list.
  function OwnAt(f: Vfid, claims: seq<Claim>, s: Sector): seq<SectorClaim>
  {
    if claims == [] then []
    else
      var c := claims[|claims| - 1];
      OwnAt(f, claims[..|claims| - 1], s) + if c.sector == s then [SectorClaim(f, c.kind)] else []
  }

  function WithoutFile(list: seq<SectorClaim>, f: Vfid): seq<SectorClaim>
  {
    if list == [] then []
    else
      var last := list[|list| - 1];
      WithoutFile(list[..|list| - 1], f) + if last.vfid == f then [] else [last]
  }

  function DropFile(m: map<Sector, seq<SectorClaim>>, f: Vfid): map<Sector, seq<SectorClaim>>
  {
    map s | s in m && WithoutFile(m[s], f) != [] :: WithoutFile(m[s], f)
  }

  function Assign(owners: map<Vpid, Vfid>, pages: set<Vpid>, f: Vfid): map<Vpid, Vfid>
  {
    owners + map v | v in pages :: f
  }

  // ---- Agreement of the two indexes ----

  ghost predicate Claimed(list: seq<SectorClaim>, f: Vfid, b: nat)
  {
    exists i :: 0 <= i < |list| && list[i].vfid == f && Covers(list[i].kind, b)
  }

  // A file claims the page at its position of its sector.
  ghost predicate ClaimsPage(ix: Index, f: Vfid, v: Vpid)
  {
    Claimed(Listed(ix.claims, SectorOf(v)), f, v.page % SECTOR_PAGES)
  }

  predicate Owns(ix: Index, f: Vfid, v: Vpid)
  {
    v in ix.owners && ix.owners[v] == f
  }

  ghost predicate Agrees(ix: Index)
  {
    forall f, v :: Owns(ix, f, v) <==> ClaimsPage(ix, f, v)
  }

  ghost predicate DistinctFiles(list: seq<SectorClaim>)
  {
    forall i, j :: 0 <= i < j < |list| ==> list[i].vfid != list[j].vfid
  }

  // Every listed sector has claims, at most one of each file.
  ghost predicate WellListed(ix: Index)
  {
    forall s :: s in ix.claims ==> ix.claims[s] != [] && DistinctFiles(ix.claims[s])
  }

  ghost predicate Known(ix: Index, f: Vfid)
  {
    (exists v :: Owns(ix, f, v)) || exists s, i :: s in ix.claims && 0 <= i < |ix.claims[s]| && ix.claims[s][i].vfid == f
  }

  lemma {:induction false} AppendedAt(m: map<Sector, seq<SectorClaim>>, f: Vfid, claims: seq<Claim>, s: Sector)
    ensures Listed(AppendClaims(m, f, claims), s) == Listed(m, s) + OwnAt(f, claims, s)
    ensures s in AppendClaims(m, f, claims) <==> s in m || OwnAt(f, claims, s) != []
  {
    if claims != [] {
      AppendedAt(m, f, claims[..|claims| - 1], s);
    }
  }

  lemma {:induction false} OwnClaimed(f: Vfid, claims: seq<Claim>, v: Vpid, g: Vfid)
    ensures Claimed(OwnAt(f, claims, SectorOf(v)), g, v.page % SECTOR_PAGES) <==> g == f && v in AllPages(claims)
  {
    if claims != [] {
      var n := |claims| - 1;
      var s, b := SectorOf(v), v.page % SECTOR_PAGES;
      OwnClaimed(f, claims[..n], v, g);
      PageOfClaim(claims[n], v);
      ClaimedConcat(OwnAt(f, claims[..n], s),
                    if claims[n].sector == s then [SectorClaim(f, claims[n].kind)] else [], g, b);
      if claims[n].sector == s {
        ClaimedSingle(SectorClaim(f, claims[n].kind), g, b);
      }
    }
  }

  lemma ClaimedSingle(c: SectorClaim, g: Vfid, b: nat)
    ensures Claimed([c], g, b) <==> g == c.vfid && Covers(c.kind, b)
  {
    if g == c.vfid && Covers(c.kind, b) {
      assert [c][0].vfid == g;
    }
  }

  lemma ClaimedConcat(x: seq<SectorClaim>, y: seq<SectorClaim>, g: Vfid, b: nat)
    ensures Claimed(x + y, g, b) <==> Claimed(x, g, b) || Claimed(y, g, b)
  {
    if Claimed(x, g, b) {
      var i :| 0 <= i < |x| && x[i].vfid == g && Covers(x[i].kind, b);
      assert (x + y)[i] == x[i];
    }
    if Claimed(y, g, b) {
      var i :| 0 <= i < |y| && y[i].vfid == g && Covers(y[i].kind, b);
      assert (x + y)[|x| + i] == y[i];
    }
  }

  lemma {:induction false} ClaimedWithout(list: seq<SectorClaim>, f: Vfid, g: Vfid, b: nat)
    ensures Claimed(WithoutFile(list, f), g, b) <==> g != f && Claimed(list, g, b)
  {
    if list != [] {
      var n := |list| - 1;
      ClaimedWithout(list[..n], f, g, b);
      assert list == list[..n] + [list[n]];
      ClaimedConcat(list[..n], [list[n]], g, b);
      ClaimedSingle(list[n], g, b);
      ClaimedConcat(WithoutFile(list[..n], f), if list[n].vfid == f then [] else [list[n]], g, b);
    }
  }

  lemma {:induction false} WithoutIsSublist(list: seq<SectorClaim>, f: Vfid)
    ensures forall c :: c in WithoutFile(list, f) <==> c in list && c.vfid != f
    ensures DistinctFiles(list) ==> DistinctFiles(WithoutFile(list, f))
  {
    if list != [] {
      var n := |list| - 1;
      WithoutIsSublist(list[..n], f);
      assert list == list[..n] + [list[n]];
      if DistinctFiles(list) {
        forall c | c in WithoutFile(list[..n], f)
          ensures c.vfid != list[n].vfid
        {
          var i :| 0 <= i < n && list[..n][i] == c;
          assert list[i] == c;
        }
      }
    }
  }

  lemma {:induction false} OwnAtIsOwn(f: Vfid, claims: seq<Claim>, s: Sector)
    ensures forall i :: 0 <= i < |OwnAt(f, claims, s)| ==> OwnAt(f, claims, s)[i].vfid == f
    ensures DistinctSectors(claims) ==> |OwnAt(f, claims, s)| <= 1
    ensures OwnAt(f, claims, s) != [] ==> exists i :: 0 <= i < |claims| && claims[i].sector == s
  {
    if claims != [] {
      var n := |claims| - 1;
      OwnAtIsOwn(f, claims[..n], s);
      if OwnAt(f, claims[..n], s) != [] {
        var i :| 0 <= i < n && claims[..n][i].sector == s;
        assert claims[i].sector == s;
      } else if claims[n].sector == s {
        assert claims[|claims| - 1].sector == s;
      }
    }
  }

  // ---- Complete inventory ----

  function Added(ix: Index, file: FileFacts): Index
  {
    Index(Assign(ix.owners, file.facts.pages, file.vfid), AppendClaims(ix.claims, file.vfid, file.facts.claims))
  }

  function Inventory(files: seq<FileFacts>): Index
  {
    if files == [] then Index(map[], map[]) else Added(Inventory(files[..|files| - 1]), files[|files| - 1])
  }

  predicate PagesDisjoint(files: seq<FileFacts>)
  {
    forall i, j :: 0 <= i < j < |files| ==> files[i].facts.pages !! files[j].facts.pages
  }

  // The tracked headers are the values of one map, so their files are distinct.
  ghost predicate DistinctVfids(files: seq<FileFacts>)
  {
    forall i, j :: 0 <= i < j < |files| ==> files[i].vfid != files[j].vfid
  }

  lemma {:induction false} InventoryOwners(files: seq<FileFacts>, v: Vpid)
    ensures v in Inventory(files).owners <==> exists i :: 0 <= i < |files| && v in files[i].facts.pages
  {
    if files != [] {
      var n := |files| - 1;
      InventoryOwners(files[..n], v);
      if v in Inventory(files[..n]).owners {
        var i :| 0 <= i < n && v in files[..n][i].facts.pages;
        assert files[i] == files[..n][i];
      }
      if exists i :: 0 <= i < |files| && v in files[i].facts.pages {
        var i :| 0 <= i < |files| && v in files[i].facts.pages;
        assert i < n ==> files[..n][i] == files[i];
      }
    }
  }

  // The page loop of one file: `None` when a page already has an owner.
  method InsertPages(owners: map<Vpid, Vfid>, pages: set<Vpid>, f: Vfid) returns (r: Option<map<Vpid, Vfid>>)
    ensures r == if pages !! owners.Keys then Some(Assign(owners, pages, f)) else None
  {
    var inserted, left := owners, pages;
    while left != {}
      invariant left <= pages
      invariant inserted == Assign(owners, pages - left, f)
      invariant pages - left !! owners.Keys
      decreases |left|
    {
      var vpid :| vpid in left;
      if vpid in inserted {
        return None;
      }
      inserted := inserted[vpid := f];
      left := left - {vpid};
    }
    assert pages - left == pages;
    r := Some(inserted);
  }

  // The inventory loop: `None` when some page would get a second owner.
  method BuildInventory(files: seq<FileFacts>) returns (r: Option<Index>)
    ensures r == if PagesDisjoint(files) then Some(Inventory(files)) else None
  {
    var owners: map<Vpid, Vfid> := map[];
    var claims: map<Sector, seq<SectorClaim>> := map[];
    for i := 0 to |files|
      invariant Index(owners, claims) == Inventory(files[..i])
      invariant PagesDisjoint(files[..i])
    {
      DisjointGrows(files, i);
      var inserted := InsertPages(owners, files[i].facts.pages, files[i].vfid);
      if inserted.None? {
        return None;
      }
      owners := inserted.value;
      claims := PushClaims(claims, files[i].vfid, files[i].facts.claims);
      assert files[..i + 1][..i] == files[..i];
    }
    assert files[..|files|] == files;
    r := Some(Index(owners, claims));
  }

  lemma DisjointGrows(files: seq<FileFacts>, i: nat)
    requires i < |files| && PagesDisjoint(files[..i])
    ensures files[i].facts.pages !! Inventory(files[..i]).owners.Keys ==> PagesDisjoint(files[..i + 1])
    ensures PagesDisjoint(files) ==> files[i].facts.pages !! Inventory(files[..i]).owners.Keys
  {
    var owners := Inventory(files[..i]).owners;
    forall v
      ensures v in owners <==> exists j :: 0 <= j < i && v in files[j].facts.pages
    {
      InventoryOwners(files[..i], v);
      assert forall j :: 0 <= j < i ==> files[..i][j] == files[j];
    }
    if files[i].facts.pages !! owners.Keys {
      var q := files[..i + 1];
      forall j, k | 0 <= j < k < |q|
        ensures q[j].facts.pages !! q[k].facts.pages
      {
        if k < i {
          assert files[..i][j].facts.pages !! files[..i][k].facts.pages;
        } else {
          assert forall v :: v in files[j].facts.pages ==> v in owners;
        }
      }
    }
  }

  // `sector_claims.entry(key).or_default().push(..)` for every claim of one file.
  method PushClaims(m: map<Sector, seq<SectorClaim>>, f: Vfid, claims: seq<Claim>)
    returns (r: map<Sector, seq<SectorClaim>>)
    ensures r == AppendClaims(m, f, claims)
  {
    r := m;
    for i := 0 to |claims|
      invariant r == AppendClaims(m, f, claims[..i])
    {
      assert claims[..i + 1][..i] == claims[..i];
      r := r[claims[i].sector := Listed(r, claims[i].sector) + [SectorClaim(f, claims[i].kind)]];
    }
    assert claims[..|claims|] == claims;
  }

  lemma AddedAgrees(ix: Index, file: FileFacts)
    requires Agrees(ix) && WellListed(ix) && !Known(ix, file.vfid)
    requires FactsConsistent(file.facts) && file.facts.pages !! ix.owners.Keys
    ensures Agrees(Added(ix, file)) && WellListed(Added(ix, file))
  {
    var f, claims := file.vfid, file.facts.claims;
    var after := Added(ix, file);
    forall g, v
      ensures Owns(after, g, v) <==> ClaimsPage(after, g, v)
    {
      var s, b := SectorOf(v), v.page % SECTOR_PAGES;
      AppendedAt(ix.claims, f, claims, s);
      OwnClaimed(f, claims, v, g);
      ClaimedConcat(Listed(ix.claims, s), OwnAt(f, claims, s), g, b);
      assert Owns(ix, g, v) <==> ClaimsPage(ix, g, v);
    }
    forall s | s in after.claims
      ensures after.claims[s] != [] && DistinctFiles(after.claims[s])
    {
      AppendedAt(ix.claims, f, claims, s);
      OwnAtIsOwn(f, claims, s);
      ListsJoin(ix, f, s, OwnAt(f, claims, s));
    }
  }

  lemma ListsJoin(ix: Index, f: Vfid, s: Sector, own: seq<SectorClaim>)
    requires WellListed(ix)
    requires !Known(ix, f)
    requires |own| <= 1 && forall i :: 0 <= i < |own| ==> own[i].vfid == f
    ensures DistinctFiles(Listed(ix.claims, s) + own)
  {
  }

  lemma {:induction false} InventoryKnows(files: seq<FileFacts>, f: Vfid)
    requires forall i :: 0 <= i < |files| ==> files[i].vfid != f
    ensures !Known(Inventory(files), f)
  {
    if files != [] {
      var n := |files| - 1;
      InventoryKnows(files[..n], f);
      var ix, file := Inventory(files[..n]), files[n];
      var after := Added(ix, file);
      forall v
        ensures !Owns(after, f, v)
      {
        assert !Owns(ix, f, v);
      }
      forall s, i | s in after.claims && 0 <= i < |after.claims[s]|
        ensures after.claims[s][i].vfid != f
      {
        AppendedAt(ix.claims, file.vfid, file.facts.claims, s);
        OwnAtIsOwn(file.vfid, file.facts.claims, s);
      }
    }
  }

  // After a complete inventory the two indexes agree exactly: a page is mapped to a file if
  // and only if that file has a claim on the page's sector covering the page.
  lemma {:induction false} InventoryAgrees(files: seq<FileFacts>)
    requires DistinctVfids(files) && PagesDisjoint(files)
    requires forall i :: 0 <= i < |files| ==> FactsConsistent(files[i].facts)
    ensures Agrees(Inventory(files)) && WellListed(Inventory(files))
  {
    if files != [] {
      var n := |files| - 1;
      InventoryAgrees(files[..n]);
      InventoryKnows(files[..n], files[n].vfid);
      forall v | v in Inventory(files[..n]).owners
        ensures v !in files[n].facts.pages
      {
        InventoryOwners(files[..n], v);
      }
      AddedAgrees(Inventory(files[..n]), files[n]);
    }
  }

  // ---- Publishing one file ----

  predicate OwnedByOther(ix: Index, file: FileFacts)
  {
    exists v :: v in file.facts.pages && v in ix.owners && ix.owners[v] != file.vfid
  }

  function Published(ix: Index, file: FileFacts): Index
  {
    Index(Assign(ix.owners, file.facts.pages, file.vfid),
          AppendClaims(DropFile(ix.claims, file.vfid), file.vfid, file.facts.claims))
  }

  // The page loop of `publish_file`, which overwrites.
  method OverwritePages(owners: map<Vpid, Vfid>, pages: set<Vpid>, f: Vfid) returns (r: map<Vpid, Vfid>)
    ensures r == Assign(owners, pages, f)
  {
    var left := pages;
    r := owners;
    while left != {}
      invariant left <= pages && r == Assign(owners, pages - left, f)
      decreases |left|
    {
      var vpid :| vpid in left;
      r := r[vpid := f];
      left := left - {vpid};
    }
    assert pages - left == pages;
  }

  // `publish_file`: `None` is the owner-conflict path, which leaves both indexes alone.
  method PublishFile(ix: Index, file: FileFacts) returns (r: Option<Index>)
    ensures r == if OwnedByOther(ix, file) then None else Some(Published(ix, file))
  {
    if exists v :: v in file.facts.pages && v in ix.owners && ix.owners[v] != file.vfid {
      return None;
    }
    var owners := OverwritePages(ix.owners, file.facts.pages, file.vfid);
    var claims := map s | s in ix.claims :: WithoutFile(ix.claims[s], file.vfid);
    claims := map s | s in claims && claims[s] != [] :: claims[s];
    assert claims == DropFile(ix.claims, file.vfid);
    claims := PushClaims(claims, file.vfid, file.facts.claims);
    r := Some(Index(owners, claims));
  }

  function FilePages(ix: Index, f: Vfid): set<Vpid>
  {
    set v | v in ix.owners && ix.owners[v] == f
  }

  lemma PublishedClaims(ix: Index, file: FileFacts, g: Vfid, v: Vpid)
    requires Agrees(ix) && FactsConsistent(file.facts)
    ensures ClaimsPage(Published(ix, file), g, v) <==>
      if g == file.vfid then v in file.facts.pages else Owns(ix, g, v)
  {
    var f, claims := file.vfid, file.facts.claims;
    var s, b := SectorOf(v), v.page % SECTOR_PAGES;
    AppendedAt(DropFile(ix.claims, f), f, claims, s);
    assert Listed(DropFile(ix.claims, f), s) == WithoutFile(Listed(ix.claims, s), f);
    OwnClaimed(f, claims, v, g);
    ClaimedConcat(WithoutFile(Listed(ix.claims, s), f), OwnAt(f, claims, s), g, b);
    ClaimedWithout(Listed(ix.claims, s), f, g, b);
    assert Owns(ix, g, v) <==> ClaimsPage(ix, g, v);
  }

  // Publishing replaces the file's claims but only adds to its pages.  The indexes keep
  // agreeing exactly when every page the file owned before is among its new pages, which
  // holds in particular when the file was not published before.
  lemma PublishAgreesIff(ix: Index, file: FileFacts)
    requires Agrees(ix) && WellListed(ix) && FactsConsistent(file.facts) && !OwnedByOther(ix, file)
    ensures Agrees(Published(ix, file)) <==> FilePages(ix, file.vfid) <= file.facts.pages
    ensures WellListed(Published(ix, file))
    ensures Agrees(Published(ix, file)) ==> FilePages(Published(ix, file), file.vfid) == file.facts.pages
    ensures forall g :: g != file.vfid ==> FilePages(Published(ix, file), g) == FilePages(ix, g)
  {
    var after := Published(ix, file);
    forall g, v
      ensures ClaimsPage(after, g, v) <==> if g == file.vfid then v in file.facts.pages else Owns(ix, g, v)
    {
      PublishedClaims(ix, file, g, v);
    }
    forall v | v in FilePages(ix, file.vfid) && v !in file.facts.pages
      ensures Owns(after, file.vfid, v) && !ClaimsPage(after, file.vfid, v)
    {
    }
    if FilePages(ix, file.vfid) <= file.facts.pages {
      forall g, v
        ensures Owns(after, g, v) <==> ClaimsPage(after, g, v)
      {
        assert Owns(ix, file.vfid, v) ==> v in FilePages(ix, file.vfid);
      }
    }
    PublishedWellListed(ix, file);
  }

  lemma PublishedWellListed(ix: Index, file: FileFacts)
    requires WellListed(ix) && FactsConsistent(file.facts)
    ensures WellListed(Published(ix, file))
  {
    var f, claims := file.vfid, file.facts.claims;
    var after := Published(ix, file);
    forall s | s in after.claims
      ensures after.claims[s] != [] && DistinctFiles(after.claims[s])
    {
      AppendedAt(DropFile(ix.claims, f), f, claims, s);
      OwnAtIsOwn(f, claims, s);
      WithoutIsSublist(Listed(ix.claims, s), f);
      var kept, own := WithoutFile(Listed(ix.claims, s), f), OwnAt(f, claims, s);
      assert Listed(DropFile(ix.claims, f), s) == kept;
      assert after.claims[s] == kept + own;
      assert forall i :: 0 <= i < |kept| ==> kept[i] in kept;
    }
  }

  lemma {:induction false} InventoryPages(files: seq<FileFacts>, f: Vfid, v: Vpid)
    ensures Owns(Inventory(files), f, v) ==> exists i :: 0 <= i < |files| && files[i].vfid == f && v in files[i].facts.pages
  {
    if files != [] {
      var n := |files| - 1;
      InventoryPages(files[..n], f, v);
      if Owns(Inventory(files[..n]), f, v) {
        var i :| 0 <= i < n && files[..n][i].vfid == f && v in files[..n][i].facts.pages;
        assert files[i] == files[..n][i];
      }
    }
  }

  lemma OneFileAgrees(file: FileFacts)
    requires FactsConsistent(file.facts)
    ensures var ix := Inventory([file]);
      Agrees(ix) && WellListed(ix) && FilePages(ix, file.vfid) == file.facts.pages && !OwnedByOther(ix, file)
  {
    InventoryAgrees([file]);
    assert [file][..|[file]| - 1] == [];
    assert Inventory([file]) == Added(Inventory([]), file);
  }

  // The facts of a file with one claim.
  function OneClaim(c: Claim): Facts
  {
    Facts(AllPages([c]), [c])
  }

  lemma OneClaimPages(c: Claim, v: Vpid)
    ensures v in OneClaim(c).pages <==> v in PagesOf(c)
  {
    assert [c][..0] == [];
    PageOfSomeClaim([c], v);
  }

  // Republishing one claimed sector with fewer of its pages breaks the agreement.
  lemma ShrinkingDisagrees(f: Vfid, before: Claim, after: Claim, kept: Vpid)
    requires kept in PagesOf(before) && kept !in PagesOf(after) && PagesOf(after) <= PagesOf(before)
    ensures var ix, file := Inventory([FileFacts(f, OneClaim(before))]), FileFacts(f, OneClaim(after));
      && Agrees(ix) && WellListed(ix) && FactsConsistent(file.facts) && !OwnedByOther(ix, file)
      && !Agrees(Published(ix, file))
  {
    var first, again := FileFacts(f, OneClaim(before)), FileFacts(f, OneClaim(after));
    var ix := Inventory([first]);
    OneFileAgrees(first);
    OneClaimPages(before, kept);
    OneClaimPages(after, kept);
    forall v | v in again.facts.pages
      ensures v in FilePages(ix, f)
    {
      OneClaimPages(before, v);
      OneClaimPages(after, v);
    }
    PublishAgreesIff(ix, again);
  }

  // Agreement does break on a republication whose table shrank: a page the file gave up
  // keeps its owner although no claim covers it any more.
  lemma ShrunkenRepublicationDisagrees()
    ensures exists ix: Index, file: FileFacts ::
      Agrees(ix) && WellListed(ix) && FactsConsistent(file.facts) && !OwnedByOther(ix, file)
      && !Agrees(Published(ix, file))
  {
    var full, shrunk := Claim(Sector(0, 1), FullClaim), Claim(Sector(0, 1), PartialClaim(1));
    var kept := Vpid(0, 65);
    PageOfClaim(full, kept);
    PageOfClaim(shrunk, kept);
    forall v | v in PagesOf(shrunk)
      ensures v in PagesOf(full)
    {
      PageOfClaim(shrunk, v);
      PageOfClaim(full, v);
    }
    ShrinkingDisagrees(Vfid(0, 64), full, shrunk, kept);
  }

  // ---- What the agreement gives to readers ----

  function ClaimSum(list: seq<SectorClaim>): nat
  {
    if list == [] then 0 else ClaimSum(list[..|list| - 1]) + AllocatedPages(list[|list| - 1].kind)
  }

  function MaskUnion(list: seq<SectorClaim>): set<nat>
  {
    if list == [] then {} else MaskUnion(list[..|list| - 1]) + Mask(list[|list| - 1].kind)
  }

  ghost predicate MasksDisjoint(list: seq<SectorClaim>)
  {
    forall i, j :: 0 <= i < j < |list| ==> Mask(list[i].kind) !! Mask(list[j].kind)
  }

  lemma {:induction false} MaskUnionOf(list: seq<SectorClaim>, b: nat)
    ensures b in MaskUnion(list) <==> exists i :: 0 <= i < |list| && b in Mask(list[i].kind)
  {
    if list != [] {
      var n := |list| - 1;
      MaskUnionOf(list[..n], b);
      if b in MaskUnion(list[..n]) {
        var i :| 0 <= i < n && b in Mask(list[..n][i].kind);
        assert list[i] == list[..n][i];
      }
      if exists i :: 0 <= i < |list| && b in Mask(list[i].kind) {
        var i :| 0 <= i < |list| && b in Mask(list[i].kind);
        assert i < n ==> list[..n][i] == list[i];
      }
    }
  }

  lemma {:induction false} DisjointMasksAdd(list: seq<SectorClaim>)
    requires MasksDisjoint(list)
    ensures |MaskUnion(list)| == ClaimSum(list)
  {
    if list != [] {
      var n := |list| - 1;
      DisjointMasksAdd(list[..n]);
      MaskSize(list[n].kind);
      forall b | b in MaskUnion(list[..n])
        ensures b !in Mask(list[n].kind)
      {
        MaskUnionOf(list[..n], b);
        var i :| 0 <= i < n && b in Mask(list[..n][i].kind);
        assert Mask(list[i].kind) !! Mask(list[n].kind);
      }
      assert MaskUnion(list[..n]) !! Mask(list[n].kind);
    }
  }

  // All claims on one sector are bitwise disjoint and allocate at most its 64 pages, even
  // where several files claim the sector.
  lemma SectorClaimsFit(ix: Index, s: Sector)
    requires Agrees(ix) && WellListed(ix)
    ensures MasksDisjoint(Listed(ix.claims, s)) && ClaimSum(Listed(ix.claims, s)) <= SECTOR_PAGES
  {
    var list := Listed(ix.claims, s);
    forall i, j | 0 <= i < j < |list|
      ensures Mask(list[i].kind) !! Mask(list[j].kind)
    {
      forall b | b in Mask(list[i].kind)
        ensures b !in Mask(list[j].kind)
      {
        var v := PageAt(s, b);
        assert SectorOf(v) == s && v.page % SECTOR_PAGES == b;
        assert Owns(ix, list[i].vfid, v) <==> ClaimsPage(ix, list[i].vfid, v);
        assert Owns(ix, list[j].vfid, v) <==> ClaimsPage(ix, list[j].vfid, v);
      }
    }
    DisjointMasksAdd(list);
    forall b | b in MaskUnion(list)
      ensures b in Below(SECTOR_PAGES)
    {
      MaskUnionOf(list, b);
    }
    SubsetSize(MaskUnion(list), Below(SECTOR_PAGES));
  }

  lemma {:induction false} SubsetSize(x: set<nat>, y: set<nat>)
    requires x <= y
    ensures |x| <= |y|
  {
    if x != {} {
      var e :| e in x;
      SubsetSize(x - {e}, y - {e});
    }
  }

  datatype Association = Unassociated | AllocatedTo(vfid: Vfid) | ReservedFor(vfid: Vfid) | MixedClaims

  // `page_file_association`.
  function PageAssociation(ix: Index, v: Vpid): Association
  {
    if v in ix.owners then AllocatedTo(ix.owners[v])
    else
      var list := Listed(ix.claims, SectorOf(v));
      if |list| == 0 then Unassociated
      else if |list| == 1 then ReservedFor(list[0].vfid)
      else MixedClaims
  }

  datatype Attribution = Unclaimed | Single(claim: SectorClaim) | Mixed(claims: seq<SectorClaim>)

  // `sector_attribution`.
  function SectorAttribution(ix: Index, s: Sector): Attribution
  {
    var list := Listed(ix.claims, s);
    if |list| == 0 then Unclaimed else if |list| == 1 then Single(list[0]) else Mixed(list)
  }

  // A page's association follows from its sector's claims alone: the file whose claim covers
  // it, or the sole claimant that leaves it free, or the conflict.
  lemma AssociationFollowsClaims(ix: Index, v: Vpid)
    requires Agrees(ix) && WellListed(ix)
    ensures match SectorAttribution(ix, SectorOf(v))
      case Unclaimed => PageAssociation(ix, v) == Unassociated
      case Single(claim) =>
        PageAssociation(ix, v) ==
          (if Covers(claim.kind, v.page % SECTOR_PAGES) then AllocatedTo(claim.vfid) else ReservedFor(claim.vfid))
      case Mixed(claims) =>
        (forall f :: PageAssociation(ix, v) == AllocatedTo(f) <==> Claimed(claims, f, v.page % SECTOR_PAGES))
        && (PageAssociation(ix, v) == MixedClaims <==>
              forall i :: 0 <= i < |claims| ==> !Covers(claims[i].kind, v.page % SECTOR_PAGES))
  {
    var list, b := Listed(ix.claims, SectorOf(v)), v.page % SECTOR_PAGES;
    forall i | 0 <= i < |list| && Covers(list[i].kind, b)
      ensures Owns(ix, list[i].vfid, v)
    {
      assert ClaimsPage(ix, list[i].vfid, v);
    }
    if v in ix.owners {
      assert Owns(ix, ix.owners[v], v);
      assert ClaimsPage(ix, ix.owners[v], v);
    }
  }
}
