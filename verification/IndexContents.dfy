// What the two ownership indexes hold, entry by entry, after an inventory and after a publication:
// `enrich_file_inventory` and `publish_file` in `src/inspection.rs`.
module IndexContents {
  import opened Wrappers
  import opened Pages
  import opened Walks
  import opened FileTable
  import opened Claims
  import opened Allocation
  import opened Ownership

  // What a file claims of a sector, row by row.
  function RowsOf(f: Vfid, claims: seq<Claim>, s: Sector): seq<seq<SectorClaim>>
  {
    seq(|claims|, j requires 0 <= j < |claims| =>
      if claims[j].sector == s then [SectorClaim(f, claims[j].kind)] else [])
  }

  // What each of the files claims of a sector, file by file.
  function ClaimsOn(files: seq<FileFacts>, s: Sector): seq<seq<SectorClaim>>
  {
    seq(|files|, i requires 0 <= i < |files| => Joined(RowsOf(files[i].vfid, files[i].facts.claims, s)))
  }

  // A list without the entries of one file.
  function OthersOf(list: seq<SectorClaim>, f: Vfid): seq<seq<SectorClaim>>
  {
    seq(|list|, i requires 0 <= i < |list| => if list[i].vfid == f then [] else [list[i]])
  }

  // A sector is listed exactly if it is claimed, and with these claims.
  ghost predicate ListsExactly(claims: map<Sector, seq<SectorClaim>>, s: Sector, list: seq<SectorClaim>)
  {
    (s in claims <==> list != []) && (s in claims ==> claims[s] == list)
  }

  lemma {:induction false} OwnAtIs(f: Vfid, claims: seq<Claim>, s: Sector)
    ensures OwnAt(f, claims, s) == Joined(RowsOf(f, claims, s))
  {
    if claims != [] {
      var q, c := claims[..|claims| - 1], claims[|claims| - 1];
      var last := if c.sector == s then [SectorClaim(f, c.kind)] else [];
      OwnAtIs(f, q, s);
      assert RowsOf(f, claims, s) == RowsOf(f, q, s) + [last];
      JoinedLast(RowsOf(f, q, s), last);
    }
  }

  lemma {:induction false} WithoutIs(list: seq<SectorClaim>, f: Vfid)
    ensures WithoutFile(list, f) == Joined(OthersOf(list, f))
  {
    if list != [] {
      var q, c := list[..|list| - 1], list[|list| - 1];
      var last := if c.vfid == f then [] else [c];
      WithoutIs(q, f);
      assert OthersOf(list, f) == OthersOf(q, f) + [last];
      JoinedLast(OthersOf(q, f), last);
    }
  }

  lemma {:induction false} InventoryListed(files: seq<FileFacts>, s: Sector)
    ensures ListsExactly(Inventory(files).claims, s, Joined(ClaimsOn(files, s)))
  {
    if files != [] {
      var q, file := files[..|files| - 1], files[|files| - 1];
      var own := Joined(RowsOf(file.vfid, file.facts.claims, s));
      InventoryListed(q, s);
      AppendedAt(Inventory(q).claims, file.vfid, file.facts.claims, s);
      OwnAtIs(file.vfid, file.facts.claims, s);
      assert ClaimsOn(files, s) == ClaimsOn(q, s) + [own];
      JoinedLast(ClaimsOn(q, s), own);
    }
  }

  lemma {:induction false} InventoryOwned(files: seq<FileFacts>, v: Vpid, i: nat)
    requires PagesDisjoint(files) && i < |files| && v in files[i].facts.pages
    ensures v in Inventory(files).owners && Inventory(files).owners[v] == files[i].vfid
  {
    if i < |files| - 1 {
      InventoryOwned(files[..|files| - 1], v, i);
      assert v !in files[|files| - 1].facts.pages;
    }
  }

  // After an inventory a page has an owner exactly if a file has the page, and that file owns it;
  // a sector has exactly the claims that the files have on it, file by file and row by row.
  lemma InventoryHolds(files: seq<FileFacts>)
    requires PagesDisjoint(files)
    ensures var ix := Inventory(files);
      && (forall v :: v in ix.owners <==> exists i :: 0 <= i < |files| && v in files[i].facts.pages)
      && (forall v, i :: 0 <= i < |files| && v in files[i].facts.pages ==> v in ix.owners && ix.owners[v] == files[i].vfid)
      && (forall s :: ListsExactly(ix.claims, s, Joined(ClaimsOn(files, s))))
  {
    forall v
      ensures v in Inventory(files).owners <==> exists i :: 0 <= i < |files| && v in files[i].facts.pages
    {
      InventoryOwners(files, v);
    }
    forall v, i | 0 <= i < |files| && v in files[i].facts.pages
      ensures v in Inventory(files).owners && Inventory(files).owners[v] == files[i].vfid
    {
      InventoryOwned(files, v, i);
    }
    forall s
      ensures ListsExactly(Inventory(files).claims, s, Joined(ClaimsOn(files, s)))
    {
      InventoryListed(files, s);
    }
  }

  // After a publication the file owns its pages and nothing else changes hands; a sector keeps the
  // claims of other files and then has the file's own rows in place of its earlier ones.
  lemma PublicationHolds(ix: Index, file: FileFacts)
    ensures var r := Published(ix, file);
      && (forall v :: v in r.owners <==> v in ix.owners || v in file.facts.pages)
      && (forall v :: v in r.owners ==>
            r.owners[v] == if v in file.facts.pages then file.vfid else ix.owners[v])
      && (forall s :: ListsExactly(r.claims, s,
            Joined(OthersOf(if s in ix.claims then ix.claims[s] else [], file.vfid))
            + Joined(RowsOf(file.vfid, file.facts.claims, s))))
  {
    forall s
      ensures ListsExactly(Published(ix, file).claims, s,
        Joined(OthersOf(if s in ix.claims then ix.claims[s] else [], file.vfid))
        + Joined(RowsOf(file.vfid, file.facts.claims, s)))
    {
      var before := if s in ix.claims then ix.claims[s] else [];
      AppendedAt(DropFile(ix.claims, file.vfid), file.vfid, file.facts.claims, s);
      OwnAtIs(file.vfid, file.facts.claims, s);
      WithoutIs(before, file.vfid);
    }
  }

  // ---- Conflicts ----

  predicate ClaimsSector(file: FileFacts, s: Sector)
  {
    exists j :: 0 <= j < |file.facts.claims| && file.facts.claims[j].sector == s
  }

  // Two files claim the sector.
  predicate Conflicted(files: seq<FileFacts>, s: Sector)
  {
    exists i, j :: 0 <= i < j < |files| && ClaimsSector(files[i], s) && ClaimsSector(files[j], s)
  }

  lemma {:induction false} OwnRow(f: Vfid, claims: seq<Claim>, s: Sector)
    requires DistinctSectors(claims)
    ensures |OwnAt(f, claims, s)| == if exists j :: 0 <= j < |claims| && claims[j].sector == s then 1 else 0
  {
    OwnAtIsOwn(f, claims, s);
    if j :| 0 <= j < |claims| && claims[j].sector == s {
      RowListed(f, claims, s, j);
    }
  }

  lemma {:induction false} RowListed(f: Vfid, claims: seq<Claim>, s: Sector, j: nat)
    requires j < |claims| && claims[j].sector == s
    ensures OwnAt(f, claims, s) != []
  {
    if j < |claims| - 1 {
      RowListed(f, claims[..|claims| - 1], s, j);
    }
  }

  predicate ClaimedBySome(files: seq<FileFacts>, s: Sector)
  {
    exists i :: 0 <= i < |files| && ClaimsSector(files[i], s)
  }

  lemma {:induction false} ClaimCounts(files: seq<FileFacts>, s: Sector)
    requires forall i :: 0 <= i < |files| ==> DistinctSectors(files[i].facts.claims)
    ensures var n := |Listed(Inventory(files).claims, s)|;
      (n >= 1 <==> ClaimedBySome(files, s)) && (n >= 2 <==> Conflicted(files, s))
  {
    if files != [] {
      var n, q, file := |files| - 1, files[..|files| - 1], files[|files| - 1];
      ClaimCounts(q, s);
      AppendedAt(Inventory(q).claims, file.vfid, file.facts.claims, s);
      OwnRow(file.vfid, file.facts.claims, s);
      LastConflict(files, s);
    }
  }

  lemma LastConflict(files: seq<FileFacts>, s: Sector)
    requires files != []
    ensures var q, file := files[..|files| - 1], files[|files| - 1];
      && (ClaimedBySome(files, s) <==> ClaimedBySome(q, s) || ClaimsSector(file, s))
      && (Conflicted(files, s) <==> Conflicted(q, s) || (ClaimedBySome(q, s) && ClaimsSector(file, s)))
  {
    var n, q := |files| - 1, files[..|files| - 1];
    assert forall i :: 0 <= i < n ==> q[i] == files[i];
    if i :| 0 <= i < n && ClaimsSector(q[i], s) {
      assert ClaimsSector(files[i], s);
    }
    if i, j :| 0 <= i < j < n && ClaimsSector(q[i], s) && ClaimsSector(q[j], s) {
      assert ClaimsSector(files[i], s) && ClaimsSector(files[j], s);
    }
    if i, j :| 0 <= i < j < |files| && ClaimsSector(files[i], s) && ClaimsSector(files[j], s) {
      assert ClaimsSector(q[i], s);
      assert j < n ==> ClaimsSector(q[j], s);
    }
  }

  // The sectors that two files claim.
  function Conflicts(files: seq<FileFacts>): set<Sector>
  {
    set i, j | 0 <= i < |files| && 0 <= j < |files[i].facts.claims| && Conflicted(files, files[i].facts.claims[j].sector)
      :: files[i].facts.claims[j].sector
  }

  lemma ConflictsAre(files: seq<FileFacts>)
    requires forall i :: 0 <= i < |files| ==> DistinctSectors(files[i].facts.claims)
    ensures forall s :: s in Conflicts(files) <==> Conflicted(files, s)
    ensures var claims := Inventory(files).claims; (set s | s in claims && |claims[s]| > 1) == Conflicts(files)
  {
    var claims := Inventory(files).claims;
    forall s
      ensures s in Conflicts(files) <==> Conflicted(files, s)
      ensures s in claims && |claims[s]| > 1 <==> Conflicted(files, s)
    {
      ClaimCounts(files, s);
      if i, j :| 0 <= i < j < |files| && ClaimsSector(files[i], s) && ClaimsSector(files[j], s) {
        var k :| 0 <= k < |files[i].facts.claims| && files[i].facts.claims[k].sector == s;
      }
    }
  }
}
