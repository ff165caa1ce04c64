// The whole revision that each enrichment publishes: its maps, findings, coverage records and
// outcome, for the `publish_*` and `refresh_*` functions of `src/inspection.rs`.
module SessionRecords {
  import opened Wrappers
  import opened Bits
  import opened Pages
  import opened Session
  import opened IndexContents
  import Ownership
  import FileTable
  import Claims

  // ---- Coverage records ----

  function Sum(s: seq<nat>): nat
  {
    if s == [] then 0 else s[0] + Sum(s[1..])
  }

  // Complete if everything evaluated is good.
  ghost function ChainRecord<K>(f: Facet, m: map<K, bool>, failure: Option<string>): CoverageRecord
  {
    CoverageRecord(f, forall k :: k in m ==> m[k], |m|, |set k | k in m && m[k]|, Some(|m|), failure)
  }

  ghost function InterpretationRecord(m: map<Oid, Interpretation>, failure: Option<string>): CoverageRecord
  {
    CoverageRecord(RecordInterpretations, forall o :: o in m ==> m[o].rule.None?, |m|, |set o | o in m && m[o].rule.None?|,
                   Some(|m|), failure)
  }

  // Of all pages, 64 a sector; incomplete by selection if nothing else is the reason.
  ghost function DeepRecord(m: map<Vpid, DeepPage>, sectors: seq<nat>, failure: Option<string>): CoverageRecord
  {
    var total := 64 * Sum(sectors);
    CoverageRecord(DeepPages, |m| == total, |m|, |set v | v in m && m[v].rule.None?|, Some(total),
                   if failure.None? && |m| != total then Some("selective-enrichment") else failure)
  }

  // ---- A revision ----

  predicate CutShortBy(r: CoverageRecord)
  {
    && !r.complete
    && (r.stopReason == Some("resource-limit") || r.stopReason == Some("interrupted")
        || r.stopReason == Some("unreadable"))
  }

  // What the outcome says.
  ghost predicate OutcomeShown(d: SessionData)
  {
    d.outcome ==
      if d.invalidated then FatalOutcome
      else if exists r :: r in d.coverage && CutShortBy(r) then Incomplete
      else if exists f :: f in d.diagnostics && f.severity == Error then Findings
      else SuccessLimited
  }

  // The next revision of d has this evidence, these further findings, and these records in place
  // of those of the same facets.
  ghost predicate NextRevision(d: SessionData, n: SessionData, evidence: Evidence, findings: seq<Finding>,
                               records: set<CoverageRecord>)
  {
    && n.revision == d.revision + 1
    && n.invalidated == d.invalidated && n.volumeSectors == d.volumeSectors && n.decryptedPages == d.decryptedPages
    && n.evidence == evidence && n.diagnostics == d.diagnostics + findings
    && (forall r :: r in n.coverage <==>
          r in records || (r in d.coverage && forall q :: q in records ==> q.facet != r.facet))
    && OutcomeShown(n)
  }

  ghost predicate Publishes(d: SessionData, r: Result<SessionData, OperationError>, evidence: Evidence,
                            findings: seq<Finding>, records: set<CoverageRecord>)
  {
    if d.revision == 0xFFFF_FFFF_FFFF_FFFF then r == Failure(Arithmetic)
    else r.Success? && NextRevision(d, r.value, evidence, findings, records)
  }

  // A failed walk is an error: one of a budget, or one of the chain.
  function WalkFindings(invalid: string, failure: Option<string>): seq<Finding>
  {
    if failure.None? then []
    else if failure.value == "resource-limit" || failure.value == "interrupted" then
      [Finding("inspection.resource_limit", Error, failure.value)]
    else [Finding(invalid, Error, failure.value)]
  }

  // ---- What each enrichment comes to ----

  ghost predicate Refuses(d: SessionData, vpid: Vpid, rule: string, r: Result<SessionData, OperationError>)
  {
    if d.revision < 0xFFFF_FFFF_FFFF_FFFF && vpid !in d.decryptedPages then r == Failure(FactStore)
    else
      var decrypted := vpid in d.decryptedPages && d.decryptedPages[vpid];
      var pages := d.evidence.deepPages[vpid := DeepPage(false, Some(rule))];
      var overrides := d.evidence.pageOverrides + if decrypted then {vpid} else {};
      Publishes(d, r, d.evidence.(deepPages := pages, pageOverrides := overrides),
                [Finding(if decrypted then "tde.decrypted_invalid" else "page.body.invalid", Error, rule)],
                {DeepRecord(pages, d.volumeSectors, Some("corrupt-structure"))})
  }

  ghost predicate PublishesFile(d: SessionData, file: Ownership.FileFacts, r: Result<SessionData, OperationError>)
  {
    var header := Vpid(file.vfid.vol, file.vfid.file);
    var ix := d.evidence.index;
    if exists v :: v in file.facts.pages && v in ix.owners && ix.owners[v] != file.vfid then
      Refuses(d, header, "file.table.owner_unique", r)
    else
      var pages := d.evidence.deepPages[header := DeepPage(true, None)];
      var headers := |set v | v in pages && pages[v].hasFileHeader|;
      Publishes(d, r, d.evidence.(deepPages := pages, index := Ownership.Published(ix, file)), [],
                {DeepRecord(pages, d.volumeSectors, None),
                 CoverageRecord(FileInventory, false, headers, headers, None, Some("selective-enrichment"))})
  }

  // The header pages of the files are on record, and all others as before.
  ghost predicate HeadersInserted(m: map<Vpid, DeepPage>, files: seq<Ownership.FileFacts>, r: map<Vpid, DeepPage>)
  {
    && (forall i :: 0 <= i < |files| ==>
          var header := Vpid(files[i].vfid.vol, files[i].vfid.file);
          header in r && r[header] == DeepPage(true, None))
    && (forall v :: v in m ==> v in r)
    && (forall v :: v in r ==> (v in m && r[v] == m[v]) || IsHeader(files, v))
  }

  predicate IsHeader(files: seq<Ownership.FileFacts>, v: Vpid)
  {
    exists i :: 0 <= i < |files| && v == Vpid(files[i].vfid.vol, files[i].vfid.file)
  }

  ghost predicate PublishesInventory(d: SessionData, files: seq<Ownership.FileFacts>,
                                     r: Result<SessionData, OperationError>)
  {
    if exists i, j, v :: 0 <= i < j < |files| && v in files[i].facts.pages && v in files[j].facts.pages then
      r == Failure(Structural("file.table.owner_unique"))
    else
      var index := Ownership.Inventory(files);
      var conflicts := |set s | s in index.claims && |index.claims[s]| > 1|;
      exists pages ::
        && HeadersInserted(d.evidence.deepPages, files, pages)
        && Publishes(d, r, d.evidence.(index := index, deepPages := pages,
                                       trackedFiles := set i | 0 <= i < |files| :: files[i].vfid),
                     seq(conflicts, i => Finding("file.sector.claim_conflict", Error, "file.table.sector_owner_unique")),
                     {DeepRecord(pages, d.volumeSectors, None),
                      CoverageRecord(FileInventory, true, |files|, |files|, Some(|files|), None)})
  }

  ghost predicate PublishesPass(d: SessionData, pass: Pass, r: Result<SessionData, OperationError>)
  {
    exists evidence ::
      && PassRecorded(d.evidence, pass, evidence)
      && Publishes(d, r, evidence,
                   if pass.failure.None? then []
                   else [Finding("record.interpretation.unavailable", Warning, pass.failure.value)],
                   {InterpretationRecord(evidence.recordInterpretations, pass.failure),
                    ChainRecord(ClassRepresentations, evidence.classRepresentations, pass.failure)})
  }

  // ---- The records as they are made ----

  lemma {:induction false} SumLast(s: seq<nat>, n: nat)
    ensures Sum(s + [n]) == Sum(s) + n
  {
    if s != [] {
      SumLast(s[1..], n);
      assert (s + [n])[1..] == s[1..] + [n];
    }
  }

  lemma {:induction false} TotalIs(sectors: seq<nat>)
    ensures TotalPages(sectors) == 64 * Sum(sectors)
  {
    if sectors != [] {
      var q, n := sectors[..|sectors| - 1], sectors[|sectors| - 1];
      TotalIs(q);
      SumLast(q, n);
      assert q + [n] == sectors;
    }
  }

  lemma AllGood<K>(m: map<K, bool>)
    ensures |set k | k in m && m[k]| == |m| <==> forall k :: k in m ==> m[k]
  {
    var good := set k | k in m && m[k];
    assert |m| == |m.Keys|;
    if forall k :: k in m ==> m[k] {
      assert good == m.Keys;
    } else if |good| == |m| {
      SameSize(good, m.Keys);
    }
  }

  lemma SameSize<K>(x: set<K>, y: set<K>)
    requires x <= y && |x| == |y|
    ensures x == y
  {
    assert |y| == |x| + |y - x| by {
      assert y == x + (y - x);
    }
  }

  lemma AllClean(m: map<Oid, Interpretation>)
    ensures |set o | o in m && m[o].rule.None?| == |m| <==> forall o :: o in m ==> m[o].rule.None?
  {
    var clean := set o | o in m && m[o].rule.None?;
    assert |m| == |m.Keys|;
    if forall o :: o in m ==> m[o].rule.None? {
      assert clean == m.Keys;
    } else if |clean| == |m| {
      SameSize(clean, m.Keys);
    }
  }

  lemma {:induction false} WithoutMembers(records: seq<CoverageRecord>, f: Facet, r: CoverageRecord)
    ensures r in Without(records, f) <==> r in records && r.facet != f
  {
    if records != [] {
      WithoutMembers(records[..|records| - 1], f, r);
      assert records == records[..|records| - 1] + [records[|records| - 1]];
    }
  }

  lemma ChainRecordIs<K>(f: Facet, m: map<K, bool>, failure: Option<string>)
    requires !f.DeepPages?
    ensures RecordFor(Chains(m), f, failure) == ChainRecord(f, m, failure)
  {
    AllGood(m);
  }

  lemma InterpretationRecordIs(e: Evidence, sectors: seq<nat>, failure: Option<string>)
    ensures RecordFor(RecountOf(e, sectors, RecordInterpretations), RecordInterpretations, failure)
         == InterpretationRecord(e.recordInterpretations, failure)
  {
    AllClean(e.recordInterpretations);
  }

  lemma DeepRecordIs(e: Evidence, sectors: seq<nat>, failure: Option<string>)
    ensures RecordFor(RecountOf(e, sectors, DeepPages), DeepPages, failure)
         == DeepRecord(e.deepPages, sectors, failure)
  {
    TotalIs(sectors);
  }

  // ---- Revisions as they are made ----

  lemma OutcomeIs(d: SessionData)
    requires d.outcome == Classify(d)
    ensures OutcomeShown(d)
  {
    if CutShort(d) {
      var i :| 0 <= i < |d.coverage| && Cut(d.coverage[i]);
      assert d.coverage[i] in d.coverage && CutShortBy(d.coverage[i]);
    }
    if r :| r in d.coverage && CutShortBy(r) {
      var i :| 0 <= i < |d.coverage| && d.coverage[i] == r;
      assert Cut(d.coverage[i]);
    }
  }

  // Records put in place of those of their facet.
  ghost predicate Replaced(before: seq<CoverageRecord>, records: set<CoverageRecord>, after: seq<CoverageRecord>)
  {
    forall r :: r in after <==> r in records || (r in before && forall q :: q in records ==> q.facet != r.facet)
  }

  lemma OneReplaced(before: seq<CoverageRecord>, q: CoverageRecord)
    ensures Replaced(before, {q}, Without(before, q.facet) + [q])
  {
    forall r
      ensures r in Without(before, q.facet) + [q] <==> r == q || (r in before && r.facet != q.facet)
    {
      WithoutMembers(before, q.facet, r);
    }
  }

  lemma TwoReplaced(before: seq<CoverageRecord>, p: CoverageRecord, q: CoverageRecord)
    requires p.facet != q.facet
    ensures Replaced(before, {p, q}, Without(Without(before, p.facet) + [p], q.facet) + [q])
  {
    var middle := Without(before, p.facet) + [p];
    forall r
      ensures r in Without(middle, q.facet) + [q] <==>
        r == p || r == q || (r in before && r.facet != p.facet && r.facet != q.facet)
    {
      WithoutMembers(before, p.facet, r);
      WithoutMembers(middle, q.facet, r);
    }
  }

  // A classified clone with these coverage records is the next revision.
  lemma ClonePublishes(d: SessionData, change: Change, coverage: seq<CoverageRecord>, records: set<CoverageRecord>,
                       r: Result<SessionData, OperationError>)
    requires Replaced(d.coverage, records, coverage)
    requires r == match Cloned(d, change)
      case Failure(e) => Failure(e)
      case Success(n) => Success(Classified(n.(coverage := coverage)))
    ensures Publishes(d, r, change.evidence, change.findings, records)
  {
    if r.Success? {
      OutcomeIs(r.value);
    }
  }

  lemma CommittedPublishes(d: SessionData, change: Change, f: Facet, failure: Option<string>, q: CoverageRecord)
    requires Counted(f) && q == RecordFor(RecountOf(change.evidence, d.volumeSectors, f), f, failure)
    ensures Publishes(d, Committed(d, change, f, failure), change.evidence, change.findings, {q})
  {
    OneReplaced(d.coverage, q);
    ClonePublishes(d, change, Without(d.coverage, f) + [q], {q}, Committed(d, change, f, failure));
  }

  lemma FilesPublish(d: SessionData, change: Change, complete: bool, count: nat, total: Option<nat>,
                     reason: Option<string>)
    ensures Publishes(d, CommittedFiles(d, change, complete, count, total, reason), change.evidence, change.findings,
                      {DeepRecord(change.evidence.deepPages, d.volumeSectors, None),
                       CoverageRecord(FileInventory, complete, count, count, total, reason)})
  {
    var p := DeepRecord(change.evidence.deepPages, d.volumeSectors, None);
    var q := CoverageRecord(FileInventory, complete, count, count, total, reason);
    DeepRecordIs(change.evidence, d.volumeSectors, None);
    TwoReplaced(d.coverage, p, q);
    ClonePublishes(d, change, Without(Without(d.coverage, DeepPages) + [p], FileInventory) + [q], {p, q},
                   CommittedFiles(d, change, complete, count, total, reason));
  }

  lemma RecordsPublish(d: SessionData, change: Change, failure: Option<string>)
    ensures Publishes(d, CommittedRecords(d, change, failure), change.evidence, change.findings,
                      {InterpretationRecord(change.evidence.recordInterpretations, failure),
                       ChainRecord(ClassRepresentations, change.evidence.classRepresentations, failure)})
  {
    var p := InterpretationRecord(change.evidence.recordInterpretations, failure);
    var q := ChainRecord(ClassRepresentations, change.evidence.classRepresentations, failure);
    InterpretationRecordIs(change.evidence, d.volumeSectors, failure);
    ChainRecordIs(ClassRepresentations, change.evidence.classRepresentations, failure);
    TwoReplaced(d.coverage, p, q);
    ClonePublishes(d, change, Without(Without(d.coverage, RecordInterpretations) + [p], ClassRepresentations) + [q],
                   {p, q}, CommittedRecords(d, change, failure));
  }

  // ---- The enrichments ----

  // A new walk is recorded, with its failure as a finding; a walk on record changes nothing.
  lemma OosWalkPublishes(d: SessionData, o: Oid, failure: Option<string>, r: Result<SessionData, OperationError>)
    requires r == Attempt(d, OosWalked(o, failure))
    ensures if o in d.evidence.oosChains then r == Success(d)
            else
              var m := d.evidence.oosChains[o := failure.None?];
              Publishes(d, r, d.evidence.(oosChains := m), WalkFindings("oos.chain.invalid", failure),
                        {ChainRecord(OosChains, m, failure)})
  {
    var m := d.evidence.oosChains[o := failure.None?];
    var change := Change(d.evidence.(oosChains := m), FailureFindings("oos.chain.invalid", failure));
    if o !in d.evidence.oosChains {
      assert r == PublishOosChain(d, o, failure);
      ChainRecordIs(OosChains, m, failure);
      CommittedPublishes(d, change, OosChains, failure, ChainRecord(OosChains, m, failure));
    }
  }

  lemma OverflowWalkPublishes(d: SessionData, o: Oid, failure: Option<string>, r: Result<SessionData, OperationError>)
    requires r == Attempt(d, OverflowWalked(o, failure))
    ensures if o in d.evidence.overflowChains then r == Success(d)
            else
              var m := d.evidence.overflowChains[o := failure.None?];
              Publishes(d, r, d.evidence.(overflowChains := m), WalkFindings("overflow.chain.invalid", failure),
                        {ChainRecord(OverflowChains, m, failure)})
  {
    var m := d.evidence.overflowChains[o := failure.None?];
    var change := Change(d.evidence.(overflowChains := m), FailureFindings("overflow.chain.invalid", failure));
    if o !in d.evidence.overflowChains {
      assert r == PublishOverflowChain(d, o, failure);
      ChainRecordIs(OverflowChains, m, failure);
      CommittedPublishes(d, change, OverflowChains, failure, ChainRecord(OverflowChains, m, failure));
    }
  }

  lemma RelocationPublishes(d: SessionData, o: Oid, failure: Option<string>, r: Result<SessionData, OperationError>)
    requires r == Attempt(d, RelocationChecked(o, failure))
    ensures if o in d.evidence.relocationEdges then r == Success(d)
            else
              var m := d.evidence.relocationEdges[o := failure.None?];
              Publishes(d, r, d.evidence.(relocationEdges := m), WalkFindings("heap.relocation.invalid", failure),
                        {ChainRecord(RelocationEdges, m, failure)})
  {
    var m := d.evidence.relocationEdges[o := failure.None?];
    var change := Change(d.evidence.(relocationEdges := m), FailureFindings("heap.relocation.invalid", failure));
    if o !in d.evidence.relocationEdges {
      assert r == PublishRelocationEdge(d, o, failure);
      ChainRecordIs(RelocationEdges, m, failure);
      CommittedPublishes(d, change, RelocationEdges, failure, ChainRecord(RelocationEdges, m, failure));
    }
  }

  // A decoded page is recorded unless it is known, with its file header if it has one; a refused
  // page is recorded with its rule, as an error.
  lemma PagePublishes(d: SessionData, vpid: Vpid, fact: DeepPage, rule: string)
    ensures var r, m := Attempt(d, PageDecoded(vpid, fact)), d.evidence.deepPages;
      if vpid in m && (fact.hasFileHeader ==> m[vpid].hasFileHeader) then r == Success(d)
      else Publishes(d, r, d.evidence.(deepPages := m[vpid := fact]), [],
                     {DeepRecord(m[vpid := fact], d.volumeSectors, None)})
    ensures Refuses(d, vpid, rule, Attempt(d, PageRefused(vpid, rule)))
  {
    var e := WithDeepPage(d.evidence, vpid, fact);
    DeepRecordIs(e, d.volumeSectors, None);
    CommittedPublishes(d, Change(e, []), DeepPages, None, DeepRecord(e.deepPages, d.volumeSectors, None));
    RefusalPublishes(d, vpid, rule);
  }

  lemma RefusalPublishes(d: SessionData, vpid: Vpid, rule: string)
    ensures Refuses(d, vpid, rule, PageDecodeFailure(d, vpid, rule))
  {
    var decrypted := vpid in d.decryptedPages && d.decryptedPages[vpid];
    var e := d.evidence.(deepPages := d.evidence.deepPages[vpid := DeepPage(false, Some(rule))],
                         pageOverrides := d.evidence.pageOverrides + if decrypted then {vpid} else {});
    var findings := [Finding(if decrypted then "tde.decrypted_invalid" else "page.body.invalid", Error, rule)];
    DeepRecordIs(e, d.volumeSectors, Some("corrupt-structure"));
    CommittedPublishes(d, Change(e, findings), DeepPages, Some("corrupt-structure"),
                       DeepRecord(e.deepPages, d.volumeSectors, Some("corrupt-structure")));
    assert d.evidence.pageOverrides + {} == d.evidence.pageOverrides;
  }

  lemma FileIndexed(d: SessionData, file: Ownership.FileFacts, pages: map<Vpid, DeepPage>, evidence: Evidence,
                    headers: nat)
    requires !Ownership.OwnedByOther(d.evidence.index, file)
    requires pages == d.evidence.deepPages[Vpid(file.vfid.vol, file.vfid.file) := DeepPage(true, None)]
    requires evidence == d.evidence.(deepPages := pages, index := Ownership.Published(d.evidence.index, file))
    requires headers == |set v | v in pages && pages[v].hasFileHeader|
    ensures Publishes(d, PublishFile(d, file), evidence, [],
                      {DeepRecord(pages, d.volumeSectors, None),
                       CoverageRecord(FileInventory, false, headers, headers, None, Some("selective-enrichment"))})
  {
    FilesPublish(d, Change(evidence, []), false, headers, None, Some("selective-enrichment"));
  }

  lemma FileIsPublished(d: SessionData, file: Ownership.FileFacts, r: Result<SessionData, OperationError>)
    requires r == PublishFile(d, file)
    ensures PublishesFile(d, file, r)
  {
    var header := Vpid(file.vfid.vol, file.vfid.file);
    if Ownership.OwnedByOther(d.evidence.index, file) {
      RefusalPublishes(d, header, "file.table.owner_unique");
    } else {
      var pages := d.evidence.deepPages[header := DeepPage(true, None)];
      FileIndexed(d, file, pages, d.evidence.(deepPages := pages, index := Ownership.Published(d.evidence.index, file)),
                  |set v | v in pages && pages[v].hasFileHeader|);
    }
  }

  // A file with a header on record is known; otherwise it is published, or refused if another
  // file owns one of its pages.
  lemma FilePublishes(d: SessionData, file: Ownership.FileFacts, r: Result<SessionData, OperationError>)
    requires r == Attempt(d, FilePublished(file))
    ensures var m, header := d.evidence.deepPages, Vpid(file.vfid.vol, file.vfid.file);
      if header in m && m[header].hasFileHeader then r == Success(d) else PublishesFile(d, file, r)
  {
    if !AlreadyKnown(d, FilePublished(file)) {
      assert r == PublishFile(d, file);
      FileIsPublished(d, file, r);
    }
  }

  lemma {:induction false} InsertedHeaders(m: map<Vpid, DeepPage>, files: seq<Ownership.FileFacts>)
    ensures HeadersInserted(m, files, InsertHeaders(m, files))
  {
    if files != [] {
      var q := files[..|files| - 1];
      InsertedHeaders(m, q);
      forall i | 0 <= i < |files|
        ensures Vpid(files[i].vfid.vol, files[i].vfid.file) in InsertHeaders(m, files)
        ensures InsertHeaders(m, files)[Vpid(files[i].vfid.vol, files[i].vfid.file)] == DeepPage(true, None)
      {
        assert i < |q| ==> q[i] == files[i];
      }
      forall v | IsHeader(q, v)
        ensures IsHeader(files, v)
      {
        var i :| 0 <= i < |q| && v == Vpid(q[i].vfid.vol, q[i].vfid.file);
        assert files[i] == q[i];
      }
      assert IsHeader(files, HeaderPage(files[|files| - 1].vfid));
    }
  }

  lemma InventoryIsPublished(d: SessionData, files: seq<Ownership.FileFacts>, r: Result<SessionData, OperationError>)
    requires r == PublishInventory(d, files)
    ensures PublishesInventory(d, files, r)
  {
    if Ownership.PagesDisjoint(files) {
      var e, index := Inventoried(d.evidence, files), Ownership.Inventory(files);
      InsertedHeaders(d.evidence.deepPages, files);
      FilesPublish(d, Change(e, ConflictFindings(index.claims)), true, |files|, Some(|files|), None);
      InventoryShown(d, files, r, e.deepPages, e, ConflictFindings(index.claims));
    } else {
      var i, j :| 0 <= i < j < |files| && !(files[i].facts.pages !! files[j].facts.pages);
      var v :| v in files[i].facts.pages && v in files[j].facts.pages;
    }
  }

  lemma InventoryShown(d: SessionData, files: seq<Ownership.FileFacts>, r: Result<SessionData, OperationError>,
                       pages: map<Vpid, DeepPage>, e: Evidence, findings: seq<Finding>)
    requires Ownership.PagesDisjoint(files) && HeadersInserted(d.evidence.deepPages, files, pages)
    requires e == d.evidence.(index := Ownership.Inventory(files), deepPages := pages,
                              trackedFiles := set i | 0 <= i < |files| :: files[i].vfid)
    requires findings == ConflictFindings(Ownership.Inventory(files).claims)
    requires Publishes(d, r, e, findings,
                       {DeepRecord(pages, d.volumeSectors, None),
                        CoverageRecord(FileInventory, true, |files|, |files|, Some(|files|), None)})
    ensures PublishesInventory(d, files, r)
  {
  }

  // An inventory is taken once, and only of files that share no page.
  lemma InventoryPublishes(d: SessionData, files: seq<Ownership.FileFacts>, r: Result<SessionData, OperationError>)
    requires r == Attempt(d, InventoryPublished(files))
    ensures d.evidence.trackedFiles != {} ==> r == Success(d)
    ensures d.evidence.trackedFiles == {} ==> PublishesInventory(d, files, r)
  {
    InventoryAttempted(d, files, r);
    if d.evidence.trackedFiles == {} {
      InventoryIsPublished(d, files, r);
    }
  }

  lemma InventoryAttempted(d: SessionData, files: seq<Ownership.FileFacts>, r: Result<SessionData, OperationError>)
    requires r == Attempt(d, InventoryPublished(files))
    ensures r == if d.evidence.trackedFiles != {} then Success(d) else PublishInventory(d, files)
  {
  }

  // It reports one error for each sector that two files claim.
  lemma InventoryReportsConflicts(files: seq<Ownership.FileFacts>)
    requires forall i :: 0 <= i < |files| ==> Claims.DistinctSectors(files[i].facts.claims)
    ensures ConflictFindings(Ownership.Inventory(files).claims)
         == seq(|Conflicts(files)|, i => Finding("file.sector.claim_conflict", Error, "file.table.sector_owner_unique"))
    ensures forall s :: s in Conflicts(files) <==>
      exists i, j :: 0 <= i < j < |files| && ClaimsSector(files[i], s) && ClaimsSector(files[j], s)
  {
    ConflictsAre(files);
    forall s
      ensures s in Conflicts(files) <==>
        exists i, j :: 0 <= i < j < |files| && ClaimsSector(files[i], s) && ClaimsSector(files[j], s)
    {
      assert s in Conflicts(files) <==> Conflicted(files, s);
    }
  }

  lemma PassIsPublished(d: SessionData, pass: Pass, r: Result<SessionData, OperationError>)
    requires r == PublishInterpretation(d, pass)
    ensures PublishesPass(d, pass, r)
  {
    PassIsRecorded(d.evidence, pass);
    RecordsPublish(d, InterpretationChange(d.evidence, pass), pass.failure);
  }

  // A class is known if it is resolved and the sector's class is on record; otherwise what the
  // pass leaves is recorded.
  lemma ClassPublishes(d: SessionData, vpid: Vpid, key: (Oid, nat), pass: Pass, r: Result<SessionData, OperationError>)
    requires r == Attempt(d, ClassResolved(vpid, key)) && pass == Pass(vpid, [key], [], true, None, None)
    ensures var m := d.evidence.classRepresentations;
      if key in m && m[key] && FileTable.Sector(vpid.vol, vpid.page / 64) in d.evidence.sectorClasses then
        r == Success(d)
      else PublishesPass(d, pass, r)
  {
    if !AlreadyKnown(d, ClassResolved(vpid, key)) {
      assert r == PublishInterpretation(d, pass);
      PassIsPublished(d, pass, r);
    }
  }

  predicate NothingNew(d: SessionData, records: seq<(Oid, Interpretation)>)
  {
    forall i :: 0 <= i < |records| ==> records[i].0 in d.evidence.recordInterpretations
  }

  // A page is known if it has records and all of them have been interpreted.
  lemma RecordsPublishes(d: SessionData, vpid: Vpid, resolved: seq<(Oid, nat)>, records: seq<(Oid, Interpretation)>,
                         pass: Pass, r: Result<SessionData, OperationError>)
    requires r == Attempt(d, PageInterpreted(vpid, resolved, records))
    requires pass == Pass(vpid, resolved, records, true, None, None)
    ensures if records != [] && NothingNew(d, records) then r == Success(d) else PublishesPass(d, pass, r)
  {
    RecordsAttempted(d, vpid, resolved, records, pass, r);
    NothingNewIff(d, records);
    if records == [] || !NothingNew(d, records) {
      PassIsPublished(d, pass, r);
    }
  }

  lemma RecordsAttempted(d: SessionData, vpid: Vpid, resolved: seq<(Oid, nat)>, records: seq<(Oid, Interpretation)>,
                         pass: Pass, r: Result<SessionData, OperationError>)
    requires r == Attempt(d, PageInterpreted(vpid, resolved, records))
    requires pass == Pass(vpid, resolved, records, true, None, None)
    ensures r == if AllInterpreted(d, records) then Success(d) else PublishInterpretation(d, pass)
  {
    var e := PageInterpreted(vpid, resolved, records);
    PassAttempted(d, e);
    assert PassOf(e) == pass;
  }

  lemma PassAttempted(d: SessionData, e: Enrichment)
    requires e.ClassResolved? || e.PageInterpreted? || e.InterpretationFailed?
    ensures Attempt(d, e) == if AlreadyKnown(d, e) then Success(d) else PublishInterpretation(d, PassOf(e))
    ensures e.PageInterpreted? ==> (AlreadyKnown(d, e) <==> AllInterpreted(d, e.records))
  {
  }

  lemma NothingNewIff(d: SessionData, records: seq<(Oid, Interpretation)>)
    ensures AllInterpreted(d, records) <==> records != [] && NothingNew(d, records)
  {
  }

  // A failed pass is recorded with its reason, as a warning.
  lemma FailurePublishes(d: SessionData, vpid: Vpid, known: bool, classOid: Option<Oid>, reason: string, pass: Pass,
                         r: Result<SessionData, OperationError>)
    requires r == Attempt(d, InterpretationFailed(vpid, known, classOid, reason))
    requires pass == Pass(vpid, [], [], known, Some(reason), classOid)
    ensures PublishesPass(d, pass, r)
  {
    assert r == PublishInterpretation(d, pass);
    PassIsPublished(d, pass, r);
  }

  // A changed source invalidates the session once, for good.
  lemma ChangePublishes(d: SessionData)
    ensures var r := Attempt(d, SourceChanged);
      if d.invalidated then r == Success(d)
      else if d.revision == 0xFFFF_FFFF_FFFF_FFFF then r == Failure(Arithmetic)
      else r == Success(d.(
        revision := d.revision + 1, invalidated := true, outcome := FatalOutcome,
        diagnostics := d.diagnostics + [Finding("snapshot.modified", Fatal, "snapshot.file_stamp.stable")]))
  {
  }

  // ---- How a session opens ----

  // A session opens as revision 0 with what the scan evaluated, and no inventory yet.
  lemma OpenedShows(volumeSectors: seq<nat>, decryptedPages: map<Vpid, bool>, evaluated: nat, conclusive: nat,
                    total: nat, stop: Option<string>, invalidated: bool, findings: seq<Finding>)
    ensures var d := Opened(volumeSectors, decryptedPages, evaluated, conclusive, total, stop, invalidated, findings);
      var n, sectors := |volumeSectors|, Sum(volumeSectors);
      && d.revision == 0 && d.invalidated == invalidated && d.diagnostics == findings
      && d.coverage == [CoverageRecord(VolumeTopology, true, n, n, Some(n), None),
                        CoverageRecord(SectorReservation, true, sectors, sectors, Some(sectors), None),
                        CoverageRecord(PageEnvelopes, stop.None?, evaluated, conclusive, Some(total), stop)]
      && OutcomeShown(d)
  {
    SectorsAre(volumeSectors);
    OutcomeIs(Opened(volumeSectors, decryptedPages, evaluated, conclusive, total, stop, invalidated, findings));
  }

  lemma {:induction false} SectorsAre(s: seq<nat>)
    ensures SumOf(s) == Sum(s)
  {
    if s != [] {
      var q, n := s[..|s| - 1], s[|s| - 1];
      SectorsAre(q);
      SumLast(q, n);
      assert q + [n] == s;
    }
  }
}
