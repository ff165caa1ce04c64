// The revisions of one inspection session: the `publish_*` and `refresh_*` functions and
// `classify_session_outcome` in `src/inspection.rs`, and `InspectionOutcome::classify` in
// `src/diagnostics.rs`.
module Session {
  import opened Wrappers
  import opened Bits
  import opened Pages
  import Ownership
  import FileTable
  import Claims

  datatype Severity = Warning | Error | Fatal

  datatype Finding = Finding(code: string, severity: Severity, rule: string)

  datatype Facet =
    | VolumeTopology | SectorReservation | PageEnvelopes | FileInventory
    | DeepPages | OosChains | OverflowChains | RelocationEdges | RecordInterpretations | ClassRepresentations

  datatype CoverageRecord = CoverageRecord(
    facet: Facet, complete: bool, evaluated: nat, conclusive: nat, trustedTotal: Option<nat>, stopReason: Option<string>)

  datatype Outcome = SuccessLimited | Findings | Incomplete | FatalOutcome

  datatype DeepPage = DeepPage(hasFileHeader: bool, rule: Option<string>)

  datatype Interpretation = Interpretation(relocatedFrom: Option<Oid>, rule: Option<string>)

  // The maps the enrichments fill.
  datatype Evidence = Evidence(
    deepPages: map<Vpid, DeepPage>,
    pageOverrides: set<Vpid>,
    index: Ownership.Index,
    oosChains: map<Oid, bool>,
    overflowChains: map<Oid, bool>,
    relocationEdges: map<Oid, bool>,
    classRepresentations: map<(Oid, nat), bool>,
    recordInterpretations: map<Oid, Interpretation>,
    interpretationFailures: map<Vpid, string>,
    trackedFiles: set<Vfid>,
    sectorClasses: set<FileTable.Sector>)

  // `volumeSectors` and `decryptedPages` are what the fast scan recorded: the sector totals, and
  // for each page with a fact whether it was decrypted.
  datatype SessionData = SessionData(
    revision: u64,
    invalidated: bool,
    outcome: Outcome,
    volumeSectors: seq<nat>,
    decryptedPages: map<Vpid, bool>,
    coverage: seq<CoverageRecord>,
    diagnostics: seq<Finding>,
    evidence: Evidence)

  datatype OperationError = Arithmetic | FactStore | Structural(rule: string)

  // ---- Coverage records ----

  // Dropping every record of a facet.
  function Without(records: seq<CoverageRecord>, f: Facet): seq<CoverageRecord>
  {
    if records == [] then []
    else
      var last := records[|records| - 1];
      Without(records[..|records| - 1], f) + if last.facet == f then [] else [last]
  }

  // The number of keys with a good value.
  function CountGood<K>(m: map<K, bool>): nat
  {
    |set k | k in m && m[k]|
  }

  function CleanPages(m: map<Vpid, DeepPage>): nat
  {
    |set v | v in m && m[v].rule.None?|
  }

  function CleanInterpretations(m: map<Oid, Interpretation>): nat
  {
    |set o | o in m && m[o].rule.None?|
  }

  function TotalPages(sectors: seq<nat>): nat
  {
    if sectors == [] then 0 else TotalPages(sectors[..|sectors| - 1]) + sectors[|sectors| - 1] * SECTOR_PAGES
  }

  // What the stored maps say about a facet.
  datatype Recount = Recount(complete: bool, evaluated: nat, conclusive: nat, total: nat)

  function Chains<K>(m: map<K, bool>): Recount
  {
    Recount(CountGood(m) == |m|, |m|, CountGood(m), |m|)
  }

  predicate Counted(f: Facet)
  {
    f in {DeepPages, OosChains, OverflowChains, RelocationEdges, RecordInterpretations, ClassRepresentations}
  }

  function RecountOf(e: Evidence, volumeSectors: seq<nat>, f: Facet): Recount
    requires Counted(f)
  {
    match f
    case DeepPages =>
      Recount(|e.deepPages| == TotalPages(volumeSectors), |e.deepPages|, CleanPages(e.deepPages),
              TotalPages(volumeSectors))
    case OosChains => Chains(e.oosChains)
    case OverflowChains => Chains(e.overflowChains)
    case RelocationEdges => Chains(e.relocationEdges)
    case ClassRepresentations => Chains(e.classRepresentations)
    case _ =>
      var m := e.recordInterpretations;
      Recount(CleanInterpretations(m) == |m|, |m|, CleanInterpretations(m), |m|)
  }

  function RecordFor(c: Recount, f: Facet, failure: Option<string>): CoverageRecord
  {
    CoverageRecord(f, c.complete, c.evaluated, c.conclusive, Some(c.total),
                   if f.DeepPages? && !c.complete && failure.None? then Some("selective-enrichment") else failure)
  }

  // The `refresh_*_coverage` functions.
  function Refreshed(d: SessionData, f: Facet, failure: Option<string>): SessionData
    requires Counted(f)
  {
    d.(coverage := Without(d.coverage, f) + [RecordFor(RecountOf(d.evidence, d.volumeSectors, f), f, failure)])
  }

  // ---- Outcome ----

  predicate Cut(r: CoverageRecord)
  {
    !r.complete && r.stopReason in {Some("resource-limit"), Some("interrupted"), Some("unreadable")}
  }

  predicate HasError(d: SessionData)
  {
    exists i :: 0 <= i < |d.diagnostics| && d.diagnostics[i].severity == Error
  }

  predicate CutShort(d: SessionData)
  {
    exists i :: 0 <= i < |d.coverage| && Cut(d.coverage[i])
  }

  function Classify(d: SessionData): Outcome
  {
    if d.invalidated then FatalOutcome
    else if CutShort(d) then Incomplete
    else if HasError(d) then Findings
    else SuccessLimited
  }

  function Rank(o: Outcome): nat
  {
    match o
    case SuccessLimited => 0
    case Findings => 1
    case Incomplete => 2
    case FatalOutcome => 3
  }

  function Classified(d: SessionData): SessionData
  {
    d.(outcome := Classify(d))
  }

  // ---- Publishing ----

  // What one enrichment adds: the changed maps and the new findings.
  datatype Change = Change(evidence: Evidence, findings: seq<Finding>)

  // The clone of a session with its maps changed, under the next revision number.
  function Cloned(d: SessionData, change: Change): Result<SessionData, OperationError>
  {
    if d.revision == U64_MAX then Failure(Arithmetic)
    else Success(d.(revision := d.revision + 1, evidence := change.evidence,
                    diagnostics := d.diagnostics + change.findings))
  }

  function Committed(d: SessionData, change: Change, f: Facet, failure: Option<string>): Result<SessionData, OperationError>
    requires Counted(f)
  {
    match Cloned(d, change)
    case Failure(e) => Failure(e)
    case Success(n) => Success(Classified(Refreshed(n, f, failure)))
  }

  // A failed chain or edge is an error whose code tells a budget stop from a violation.
  function FailureFindings(invalid: string, failure: Option<string>): seq<Finding>
  {
    match failure
    case None => []
    case Some(rule) =>
      [Finding(if rule == "resource-limit" || rule == "interrupted" then "inspection.resource_limit" else invalid,
               Error, rule)]
  }

  function PublishOosChain(d: SessionData, head: Oid, failure: Option<string>): Result<SessionData, OperationError>
  {
    Committed(d, Change(d.evidence.(oosChains := d.evidence.oosChains[head := failure.None?]),
                        FailureFindings("oos.chain.invalid", failure)), OosChains, failure)
  }

  function PublishOverflowChain(d: SessionData, source: Oid, failure: Option<string>): Result<SessionData, OperationError>
  {
    Committed(d, Change(d.evidence.(overflowChains := d.evidence.overflowChains[source := failure.None?]),
                        FailureFindings("overflow.chain.invalid", failure)), OverflowChains, failure)
  }

  function PublishRelocationEdge(d: SessionData, source: Oid, failure: Option<string>): Result<SessionData, OperationError>
  {
    Committed(d, Change(d.evidence.(relocationEdges := d.evidence.relocationEdges[source := failure.None?]),
                        FailureFindings("heap.relocation.invalid", failure)), RelocationEdges, failure)
  }

  function WithDeepPage(e: Evidence, vpid: Vpid, fact: DeepPage): Evidence
  {
    e.(deepPages := e.deepPages[vpid := fact])
  }

  function PageDecodeFailure(d: SessionData, vpid: Vpid, rule: string): Result<SessionData, OperationError>
  {
    if d.revision < U64_MAX && vpid !in d.decryptedPages then Failure(FactStore)
    else
      var decrypted := vpid in d.decryptedPages && d.decryptedPages[vpid];
      var e := WithDeepPage(d.evidence, vpid, DeepPage(false, Some(rule)));
      Committed(d, Change(if decrypted then e.(pageOverrides := e.pageOverrides + {vpid}) else e,
                          [Finding(if decrypted then "tde.decrypted_invalid" else "page.body.invalid", Error, rule)]),
                DeepPages, Some("corrupt-structure"))
  }

  // A page on record is decoded again only for its file header, see `AlreadyKnown`.
  function PublishDeepPage(d: SessionData, vpid: Vpid, fact: DeepPage): Result<SessionData, OperationError>
  {
    Committed(d, Change(WithDeepPage(d.evidence, vpid, fact), []), DeepPages, None)
  }

  function WithFileInventory(d: SessionData, complete: bool, count: nat, total: Option<nat>,
                             reason: Option<string>): SessionData
  {
    d.(coverage := Without(d.coverage, FileInventory)
                   + [CoverageRecord(FileInventory, complete, count, count, total, reason)])
  }

  // A change of the deep pages that also replaces the file inventory's coverage record.
  function CommittedFiles(d: SessionData, change: Change, complete: bool, count: nat, total: Option<nat>,
                          reason: Option<string>): Result<SessionData, OperationError>
  {
    match Cloned(d, change)
    case Failure(e) => Failure(e)
    case Success(n) =>
      Success(Classified(WithFileInventory(Refreshed(n, DeepPages, None), complete, count, total, reason)))
  }

  function HeaderCount(deepPages: map<Vpid, DeepPage>): nat
  {
    |set v | v in deepPages && deepPages[v].hasFileHeader|
  }

  function HeaderPage(f: Vfid): Vpid
  {
    Vpid(f.vol, f.file)
  }

  function PublishFile(d: SessionData, file: Ownership.FileFacts): Result<SessionData, OperationError>
  {
    var headerPage := HeaderPage(file.vfid);
    if Ownership.OwnedByOther(d.evidence.index, file) then PageDecodeFailure(d, headerPage, "file.table.owner_unique")
    else
      var e := WithDeepPage(d.evidence, headerPage, DeepPage(true, None));
      CommittedFiles(d, Change(e.(index := Ownership.Published(e.index, file)), []),
                     false, HeaderCount(e.deepPages), None, Some("selective-enrichment"))
  }

  function InsertHeaders(m: map<Vpid, DeepPage>, files: seq<Ownership.FileFacts>): map<Vpid, DeepPage>
  {
    if files == [] then m
    else InsertHeaders(m, files[..|files| - 1])[HeaderPage(files[|files| - 1].vfid) := DeepPage(true, None)]
  }

  function ConflictFindings(claims: map<FileTable.Sector, seq<Ownership.SectorClaim>>): seq<Finding>
  {
    seq(|set s | s in claims && |claims[s]| > 1|,
        i => Finding("file.sector.claim_conflict", Error, "file.table.sector_owner_unique"))
  }

  function TrackedFiles(files: seq<Ownership.FileFacts>): set<Vfid>
  {
    set i | 0 <= i < |files| :: files[i].vfid
  }

  function Inventoried(e: Evidence, files: seq<Ownership.FileFacts>): Evidence
  {
    e.(index := Ownership.Inventory(files), deepPages := InsertHeaders(e.deepPages, files),
       trackedFiles := TrackedFiles(files))
  }

  // The complete inventory of the tracked files, one entry a file, whose traversal has succeeded.
  function PublishInventory(d: SessionData, files: seq<Ownership.FileFacts>): Result<SessionData, OperationError>
  {
    if !Ownership.PagesDisjoint(files) then Failure(Structural("file.table.owner_unique"))
    else
      var index := Ownership.Inventory(files);
      var e := Inventoried(d.evidence, files);
      CommittedFiles(d, Change(e, ConflictFindings(index.claims)), true, |files|, Some(|files|), None)
  }

  // A record attributed to the relocation that reached it keeps that attribution.
  function InsertInterpretations(m: map<Oid, Interpretation>, records: seq<(Oid, Interpretation)>): map<Oid, Interpretation>
  {
    if records == [] then m
    else
      var before := InsertInterpretations(m, records[..|records| - 1]);
      var (oid, evidence) := records[|records| - 1];
      if evidence.relocatedFrom.None? && oid in before && before[oid].relocatedFrom.Some? then before
      else before[oid := evidence]
  }

  function InterpretationFailures(e: Evidence, vpid: Vpid, superseded: bool, failure: Option<string>): map<Vpid, string>
  {
    var left := if superseded then e.interpretationFailures - {vpid} else e.interpretationFailures;
    if failure.Some? then left[vpid := failure.value] else left
  }

  // Resolved representations, and the selected page's class as unresolved if the pass failed
  // and nothing is known about it.
  function Representations(e: Evidence, resolved: seq<(Oid, nat)>, failure: Option<string>, classOid: Option<Oid>)
    : map<(Oid, nat), bool>
  {
    var m := e.classRepresentations + map k | k in resolved :: true;
    if failure.Some? && classOid.Some? && (classOid.value, 0) !in m then m[(classOid.value, 0) := false] else m
  }

  // What one interpretation pass over a page gives: representations it resolved, records it
  // interpreted, the class it found for the page's sector, a reason if it failed, and the
  // class a failed pass is attributed to.
  datatype Pass = Pass(
    vpid: Vpid,
    resolved: seq<(Oid, nat)>,
    records: seq<(Oid, Interpretation)>,
    sectorKnown: bool,
    failure: Option<string>,
    classOid: Option<Oid>)

  function SectorClasses(e: Evidence, pass: Pass): set<FileTable.Sector>
  {
    if pass.sectorKnown then e.sectorClasses + {Claims.SectorOf(pass.vpid)} else e.sectorClasses
  }

  function InterpretationChange(e: Evidence, pass: Pass): Change
  {
    Change(e.(classRepresentations := Representations(e, pass.resolved, pass.failure, pass.classOid),
              recordInterpretations := InsertInterpretations(e.recordInterpretations, pass.records),
              interpretationFailures := InterpretationFailures(e, pass.vpid, pass.records != [], pass.failure),
              sectorClasses := SectorClasses(e, pass)),
           if pass.failure.Some? then [Finding("record.interpretation.unavailable", Warning, pass.failure.value)] else [])
  }

  // A change of the interpretations and the class representations.
  function CommittedRecords(d: SessionData, change: Change, failure: Option<string>): Result<SessionData, OperationError>
  {
    match Cloned(d, change)
    case Failure(e) => Failure(e)
    case Success(n) =>
      Success(Classified(Refreshed(Refreshed(n, RecordInterpretations, failure), ClassRepresentations, failure)))
  }

  function PublishInterpretation(d: SessionData, pass: Pass): Result<SessionData, OperationError>
  {
    CommittedRecords(d, InterpretationChange(d.evidence, pass), pass.failure)
  }

  function InvalidatedRevision(d: SessionData): Result<SessionData, OperationError>
  {
    if d.invalidated then Success(d)
    else match Cloned(d, Change(d.evidence, [Finding("snapshot.modified", Fatal, "snapshot.file_stamp.stable")]))
      case Failure(e) => Failure(e)
      case Success(n) => Success(n.(invalidated := true, outcome := FatalOutcome))
  }

  // ---- The updates of one interpretation, step by step ----

  // The record loop of `publish_interpretation`.
  method InsertRecords(m: map<Oid, Interpretation>, records: seq<(Oid, Interpretation)>)
    returns (inserted: map<Oid, Interpretation>)
    ensures inserted == InsertInterpretations(m, records)
  {
    inserted := m;
    for i := 0 to |records|
      invariant inserted == InsertInterpretations(m, records[..i])
    {
      assert records[..i + 1][..i] == records[..i];
      var (oid, evidence) := records[i];
      if evidence.relocatedFrom.None? && oid in inserted && inserted[oid].relocatedFrom.Some? {
        continue;
      }
      inserted := inserted[oid := evidence];
    }
    assert records[..|records|] == records;
  }

  ghost predicate KeepsRelocations(m: map<Oid, Interpretation>, m': map<Oid, Interpretation>)
  {
    forall o :: o in m && m[o].relocatedFrom.Some? ==> o in m' && m'[o].relocatedFrom.Some?
  }

  // What a pass leaves on record.  Its representations are resolved and resolved ones stay so; a
  // class turns up unresolved only as the unknown class of a failed pass.  Exactly its records
  // are added, each with evidence of the pass unless it keeps what it had, and relocation
  // attributions stay.  The page has a failure reason exactly if the pass failed, or had one and
  // the pass interpreted nothing.  Nothing else changes.
  ghost predicate PassRecorded(e: Evidence, pass: Pass, r: Evidence)
  {
    && ClassesRecorded(e.classRepresentations, pass, r.classRepresentations)
    && RecordsRecorded(e.recordInterpretations, pass.records, r.recordInterpretations)
    && FailureRecorded(e.interpretationFailures, pass, r.interpretationFailures)
    && r.sectorClasses == SectorClasses(e, pass)
    && r.deepPages == e.deepPages && r.pageOverrides == e.pageOverrides && r.index == e.index
    && r.oosChains == e.oosChains && r.overflowChains == e.overflowChains
    && r.relocationEdges == e.relocationEdges && r.trackedFiles == e.trackedFiles
  }

  ghost predicate ClassesRecorded(m: map<(Oid, nat), bool>, pass: Pass, r: map<(Oid, nat), bool>)
  {
    && (forall k :: k in pass.resolved || (k in m && m[k]) ==> k in r && r[k])
    && (forall k :: k in m ==> k in r)
    && (forall k :: k in r && !r[k] ==>
          || (k in m && !m[k] && k !in pass.resolved)
          || (k !in m && pass.failure.Some? && pass.classOid.Some? && k == (pass.classOid.value, 0)))
  }

  ghost predicate RecordsRecorded(m: map<Oid, Interpretation>, records: seq<(Oid, Interpretation)>,
                                  r: map<Oid, Interpretation>)
  {
    && (forall o :: o in m ==> o in r)
    && (forall i :: 0 <= i < |records| ==> records[i].0 in r)
    && (forall o :: o in r ==> (o in m && r[o] == m[o]) || (o, r[o]) in records)
    && KeepsRelocations(m, r)
  }

  ghost predicate FailureRecorded(m: map<Vpid, string>, pass: Pass, r: map<Vpid, string>)
  {
    && (pass.vpid in r <==> pass.failure.Some? || (pass.records == [] && pass.vpid in m))
    && (pass.failure.Some? ==> r[pass.vpid] == pass.failure.value)
    && r - {pass.vpid} == m - {pass.vpid}
  }

  lemma {:induction false} InsertedRecorded(m: map<Oid, Interpretation>, records: seq<(Oid, Interpretation)>)
    ensures RecordsRecorded(m, records, InsertInterpretations(m, records))
  {
    if records != [] {
      var front, last := records[..|records| - 1], records[|records| - 1];
      InsertedRecorded(m, front);
      var before, r := InsertInterpretations(m, front), InsertInterpretations(m, records);
      assert records == front + [last];
      forall o | o in r
        ensures (o in m && r[o] == m[o]) || (o, r[o]) in records
      {
        if r == before || o != last.0 {
          assert (o in m && before[o] == m[o]) || (o, before[o]) in front;
        } else {
          assert (o, r[o]) == last;
        }
      }
    }
  }

  lemma ClassesAreRecorded(e: Evidence, pass: Pass)
    ensures ClassesRecorded(e.classRepresentations, pass,
                            Representations(e, pass.resolved, pass.failure, pass.classOid))
  {
  }

  lemma FailureIsRecorded(e: Evidence, pass: Pass)
    ensures FailureRecorded(e.interpretationFailures, pass,
                            InterpretationFailures(e, pass.vpid, pass.records != [], pass.failure))
  {
  }

  lemma PassIsRecorded(e: Evidence, pass: Pass)
    ensures PassRecorded(e, pass, InterpretationChange(e, pass).evidence)
  {
    ClassesAreRecorded(e, pass);
    InsertedRecorded(e.recordInterpretations, pass.records);
    FailureIsRecorded(e, pass);
  }

  method ChangeInterpretations(e: Evidence, pass: Pass) returns (change: Change)
    ensures change == InterpretationChange(e, pass)
    ensures PassRecorded(e, pass, change.evidence)
  {
    var representations := e.classRepresentations + map k | k in pass.resolved :: true;
    var inserted := InsertRecords(e.recordInterpretations, pass.records);
    var failures, findings := e.interpretationFailures, [];
    if pass.records != [] {
      failures := failures - {pass.vpid};
    }
    var sectors := e.sectorClasses;
    if pass.sectorKnown {
      sectors := sectors + {Claims.SectorOf(pass.vpid)};
    }
    if pass.failure.Some? {
      failures := failures[pass.vpid := pass.failure.value];
      findings := [Finding("record.interpretation.unavailable", Warning, pass.failure.value)];
      if pass.classOid.Some? && (pass.classOid.value, 0) !in representations {
        representations := representations[(pass.classOid.value, 0) := false];
      }
    }
    PassIsRecorded(e, pass);
    change := Change(e.(classRepresentations := representations, recordInterpretations := inserted,
                        interpretationFailures := failures, sectorClasses := sectors), findings);
  }

  // ---- Runs ----

  // What one call of an enrichment function comes to.  The first three are the walks of
  // `enrich_oos`, `enrich_bigone` and `enrich_relocation`; a page is decoded or refused by
  // `enrich_page`, or refused by the file enrichments.
  datatype Enrichment =
    | OosWalked(head: Oid, failure: Option<string>)
    | OverflowWalked(source: Oid, failure: Option<string>)
    | RelocationChecked(source: Oid, failure: Option<string>)
    | PageDecoded(vpid: Vpid, fact: DeepPage)
    | PageRefused(vpid: Vpid, rule: string)
    | FilePublished(file: Ownership.FileFacts)
    | InventoryPublished(files: seq<Ownership.FileFacts>)
    | ClassResolved(vpid: Vpid, representation: (Oid, nat))
    | PageInterpreted(vpid: Vpid, resolved: seq<(Oid, nat)>, records: seq<(Oid, Interpretation)>)
    | InterpretationFailed(vpid: Vpid, sectorKnown: bool, classOid: Option<Oid>, reason: string)
    | SourceChanged

  predicate HeaderKnown(d: SessionData, vpid: Vpid)
  {
    vpid in d.evidence.deepPages && d.evidence.deepPages[vpid].hasFileHeader
  }

  predicate AllInterpreted(d: SessionData, records: seq<(Oid, Interpretation)>)
  {
    records != [] && forall i :: 0 <= i < |records| ==> records[i].0 in d.evidence.recordInterpretations
  }

  // The enrichment functions return the session as it is when they find their result on record.
  predicate AlreadyKnown(d: SessionData, e: Enrichment)
  {
    match e
    case OosWalked(head, _) => head in d.evidence.oosChains
    case OverflowWalked(source, _) => source in d.evidence.overflowChains
    case RelocationChecked(source, _) => source in d.evidence.relocationEdges
    case PageDecoded(vpid, fact) => vpid in d.evidence.deepPages && (!fact.hasFileHeader || HeaderKnown(d, vpid))
    case FilePublished(file) => HeaderKnown(d, HeaderPage(file.vfid))
    case InventoryPublished(_) => d.evidence.trackedFiles != {}
    case ClassResolved(vpid, key) =>
      && key in d.evidence.classRepresentations && d.evidence.classRepresentations[key]
      && Claims.SectorOf(vpid) in d.evidence.sectorClasses
    case PageInterpreted(_, _, records) => AllInterpreted(d, records)
    case _ => false
  }

  function PassOf(e: Enrichment): Pass
    requires e.ClassResolved? || e.PageInterpreted? || e.InterpretationFailed?
  {
    match e
    case ClassResolved(vpid, key) => Pass(vpid, [key], [], true, None, None)
    case PageInterpreted(vpid, resolved, records) => Pass(vpid, resolved, records, true, None, None)
    case InterpretationFailed(vpid, sectorKnown, classOid, reason) =>
      Pass(vpid, [], [], sectorKnown, Some(reason), classOid)
  }

  function Attempt(d: SessionData, e: Enrichment): Result<SessionData, OperationError>
  {
    if AlreadyKnown(d, e) then Success(d)
    else match e
      case OosWalked(head, failure) => PublishOosChain(d, head, failure)
      case OverflowWalked(source, failure) => PublishOverflowChain(d, source, failure)
      case RelocationChecked(source, failure) => PublishRelocationEdge(d, source, failure)
      case PageDecoded(vpid, fact) => PublishDeepPage(d, vpid, fact)
      case PageRefused(vpid, rule) => PageDecodeFailure(d, vpid, rule)
      case FilePublished(file) => PublishFile(d, file)
      case InventoryPublished(files) => PublishInventory(d, files)
      case SourceChanged => InvalidatedRevision(d)
      case _ => PublishInterpretation(d, PassOf(e))
  }

  // An enrichment that fails publishes nothing.
  function Enriched(d: SessionData, e: Enrichment): SessionData
  {
    match Attempt(d, e)
    case Success(next) => next
    case Failure(_) => d
  }

  function After(d: SessionData, run: seq<Enrichment>): SessionData
  {
    if run == [] then d else Enriched(After(d, run[..|run| - 1]), run[|run| - 1])
  }

  function NoEvidence(): Evidence
  {
    Evidence(map[], {}, Ownership.Index(map[], map[]), map[], map[], map[], map[], map[], map[], {}, {})
  }

  // The session a completed fast scan opens with, before its file inventory.
  function Opened(volumeSectors: seq<nat>, decryptedPages: map<Vpid, bool>, evaluated: nat, conclusive: nat,
                  total: nat, stop: Option<string>, invalidated: bool, findings: seq<Finding>): SessionData
  {
    var sectors := SumOf(volumeSectors);
    var n := |volumeSectors|;
    Classified(SessionData(0, invalidated, SuccessLimited, volumeSectors, decryptedPages,
                           [CoverageRecord(VolumeTopology, true, n, n, Some(n), None),
                            CoverageRecord(SectorReservation, true, sectors, sectors, Some(sectors), None),
                            CoverageRecord(PageEnvelopes, stop.None?, evaluated, conclusive, Some(total), stop)],
                           findings, NoEvidence()))
  }

  function SumOf(s: seq<nat>): nat
  {
    if s == [] then 0 else SumOf(s[..|s| - 1]) + s[|s| - 1]
  }

  // `with_initial_inventory_result`: the inventory could not be taken or found nothing.
  function WithoutInventory(d: SessionData, complete: bool, total: Option<nat>, reason: Option<string>,
                            finding: Option<Finding>): SessionData
  {
    var d1 := WithFileInventory(d, complete, 0, total, reason);
    Classified(if finding.Some? then d1.(diagnostics := d1.diagnostics + [finding.value]) else d1)
  }

  // The initial inventory came to enrichment e, whichever of its results that is: the session
  // opens with that revision as revision 0.
  function WithInventory(d: SessionData, e: Enrichment): SessionData
  {
    Enriched(d, e).(revision := 0)
  }

  // ---- Every revision is consistent ----

  // The records of one facet.
  function Only(records: seq<CoverageRecord>, f: Facet): seq<CoverageRecord>
  {
    if records == [] then []
    else
      var last := records[|records| - 1];
      Only(records[..|records| - 1], f) + if last.facet == f then [last] else []
  }

  predicate Matches(r: CoverageRecord, c: Recount)
  {
    && r.evaluated == c.evaluated && r.conclusive == c.conclusive
    && r.complete == c.complete && r.trustedTotal == Some(c.total)
  }

  // At most one record for the facet, and it equals a recount of the stored maps.
  ghost predicate FacetOk(d: SessionData, f: Facet)
    requires Counted(f)
  {
    var records := Only(d.coverage, f);
    |records| <= 1 && (|records| == 1 ==> Matches(records[0], RecountOf(d.evidence, d.volumeSectors, f)))
  }

  ghost predicate Consistent(d: SessionData)
  {
    && (forall f: Facet :: Counted(f) ==> FacetOk(d, f))
    && d.outcome == Classify(d)
  }

  lemma {:induction false} OnlyWithout(records: seq<CoverageRecord>, f: Facet, g: Facet)
    ensures Only(Without(records, f), g) == if f == g then [] else Only(records, g)
  {
    if records != [] {
      var front, last := records[..|records| - 1], records[|records| - 1];
      OnlyWithout(front, f, g);
      if last.facet == f {
        assert Without(records, f) == Without(front, f);
      } else {
        OnlyAppend(Without(front, f), last, g);
      }
    }
  }

  lemma {:induction false} NoneOfFacet(records: seq<CoverageRecord>, f: Facet)
    requires forall i :: 0 <= i < |records| ==> records[i].facet != f
    ensures Only(records, f) == [] && Without(records, f) == records
  {
    if records != [] {
      NoneOfFacet(records[..|records| - 1], f);
    }
  }

  lemma OnlyAppend(records: seq<CoverageRecord>, r: CoverageRecord, g: Facet)
    ensures Only(records + [r], g) == Only(records, g) + if r.facet == g then [r] else []
  {
    assert (records + [r])[..|records|] == records;
  }

  lemma RefreshOk(d: SessionData, f: Facet, failure: Option<string>, g: Facet)
    requires Counted(f) && Counted(g) && (g != f ==> FacetOk(d, g))
    ensures FacetOk(Refreshed(d, f, failure), g)
  {
    var r := Refreshed(d, f, failure);
    OnlyWithout(d.coverage, f, g);
    OnlyAppend(Without(d.coverage, f), r.coverage[|r.coverage| - 1], g);
  }

  lemma FileInventoryOk(d: SessionData, complete: bool, count: nat, total: Option<nat>, reason: Option<string>, g: Facet)
    requires Counted(g) && FacetOk(d, g)
    ensures FacetOk(WithFileInventory(d, complete, count, total, reason), g)
  {
    var r := WithFileInventory(d, complete, count, total, reason);
    OnlyWithout(d.coverage, FileInventory, g);
    OnlyAppend(Without(d.coverage, FileInventory), r.coverage[|r.coverage| - 1], g);
  }

  // A change leaves the recount of a facet alone.
  ghost predicate Spares(d: SessionData, e: Evidence, g: Facet)
    requires Counted(g)
  {
    RecountOf(e, d.volumeSectors, g) == RecountOf(d.evidence, d.volumeSectors, g)
  }

  ghost predicate AllOk(d: SessionData)
  {
    forall g: Facet :: Counted(g) ==> FacetOk(d, g)
  }

  lemma ClassifiedConsistent(n: SessionData)
    requires AllOk(n)
    ensures Consistent(Classified(n))
  {
    forall g: Facet | Counted(g)
      ensures FacetOk(Classified(n), g)
    {
      assert FacetOk(n, g);
    }
  }

  // Maps changed for one facet only, and that facet's coverage refreshed.
  lemma RefreshedOk(d: SessionData, change: Change, f: Facet, failure: Option<string>)
    requires Consistent(d) && Counted(f) && Cloned(d, change).Success?
    requires forall g: Facet :: Counted(g) && g != f ==> Spares(d, change.evidence, g)
    ensures AllOk(Refreshed(Cloned(d, change).value, f, failure))
  {
    var n := Cloned(d, change).value;
    forall g: Facet | Counted(g)
      ensures FacetOk(Refreshed(n, f, failure), g)
    {
      assert FacetOk(d, g);
      if g != f {
        assert Spares(d, change.evidence, g);
      }
      RefreshOk(n, f, failure, g);
    }
  }

  lemma CommittedConsistent(d: SessionData, change: Change, f: Facet, failure: Option<string>)
    requires Consistent(d) && Counted(f)
    requires forall g: Facet :: Counted(g) && g != f ==> Spares(d, change.evidence, g)
    ensures Committed(d, change, f, failure).Success? ==> Consistent(Committed(d, change, f, failure).value)
  {
    if Cloned(d, change).Success? {
      RefreshedOk(d, change, f, failure);
      ClassifiedConsistent(Refreshed(Cloned(d, change).value, f, failure));
    }
  }

  lemma CommittedFilesConsistent(d: SessionData, change: Change, complete: bool, count: nat, total: Option<nat>,
                                 reason: Option<string>)
    requires Consistent(d)
    requires forall g: Facet :: Counted(g) && g != DeepPages ==> Spares(d, change.evidence, g)
    ensures var r := CommittedFiles(d, change, complete, count, total, reason);
      r.Success? ==> Consistent(r.value)
  {
    if Cloned(d, change).Success? {
      RefreshedOk(d, change, DeepPages, None);
      var r := Refreshed(Cloned(d, change).value, DeepPages, None);
      forall g: Facet | Counted(g)
        ensures FacetOk(WithFileInventory(r, complete, count, total, reason), g)
      {
        FileInventoryOk(r, complete, count, total, reason, g);
      }
      ClassifiedConsistent(WithFileInventory(r, complete, count, total, reason));
    }
  }

  lemma OosConsistent(d: SessionData, head: Oid, failure: Option<string>)
    requires Consistent(d)
    ensures PublishOosChain(d, head, failure).Success? ==> Consistent(PublishOosChain(d, head, failure).value)
  {
    CommittedConsistent(d, Change(d.evidence.(oosChains := d.evidence.oosChains[head := failure.None?]),
                                  FailureFindings("oos.chain.invalid", failure)), OosChains, failure);
  }

  lemma OverflowConsistent(d: SessionData, source: Oid, failure: Option<string>)
    requires Consistent(d)
    ensures PublishOverflowChain(d, source, failure).Success? ==> Consistent(PublishOverflowChain(d, source, failure).value)
  {
    CommittedConsistent(d, Change(d.evidence.(overflowChains := d.evidence.overflowChains[source := failure.None?]),
                                  FailureFindings("overflow.chain.invalid", failure)), OverflowChains, failure);
  }

  lemma RelocationConsistent(d: SessionData, source: Oid, failure: Option<string>)
    requires Consistent(d)
    ensures PublishRelocationEdge(d, source, failure).Success? ==>
      Consistent(PublishRelocationEdge(d, source, failure).value)
  {
    CommittedConsistent(d, Change(d.evidence.(relocationEdges := d.evidence.relocationEdges[source := failure.None?]),
                                  FailureFindings("heap.relocation.invalid", failure)), RelocationEdges, failure);
  }

  lemma RefusedConsistent(d: SessionData, vpid: Vpid, rule: string)
    requires Consistent(d)
    ensures PageDecodeFailure(d, vpid, rule).Success? ==> Consistent(PageDecodeFailure(d, vpid, rule).value)
  {
    var decrypted := vpid in d.decryptedPages && d.decryptedPages[vpid];
    var e := WithDeepPage(d.evidence, vpid, DeepPage(false, Some(rule)));
    CommittedConsistent(d, Change(if decrypted then e.(pageOverrides := e.pageOverrides + {vpid}) else e,
                                  [Finding(if decrypted then "tde.decrypted_invalid" else "page.body.invalid", Error, rule)]),
                        DeepPages, Some("corrupt-structure"));
  }

  lemma DeepConsistent(d: SessionData, vpid: Vpid, fact: DeepPage)
    requires Consistent(d)
    ensures PublishDeepPage(d, vpid, fact).Success? ==> Consistent(PublishDeepPage(d, vpid, fact).value)
  {
    CommittedConsistent(d, Change(WithDeepPage(d.evidence, vpid, fact), []), DeepPages, None);
  }

  lemma FileConsistent(d: SessionData, file: Ownership.FileFacts)
    requires Consistent(d)
    ensures PublishFile(d, file).Success? ==> Consistent(PublishFile(d, file).value)
  {
    var headerPage := HeaderPage(file.vfid);
    if Ownership.OwnedByOther(d.evidence.index, file) {
      RefusedConsistent(d, headerPage, "file.table.owner_unique");
    } else {
      var e := WithDeepPage(d.evidence, headerPage, DeepPage(true, None));
      CommittedFilesConsistent(d, Change(e.(index := Ownership.Published(e.index, file)), []),
                               false, HeaderCount(e.deepPages), None, Some("selective-enrichment"));
    }
  }

  lemma InventoryConsistent(d: SessionData, files: seq<Ownership.FileFacts>)
    requires Consistent(d)
    ensures PublishInventory(d, files).Success? ==> Consistent(PublishInventory(d, files).value)
  {
    var index := Ownership.Inventory(files);
    var e := Inventoried(d.evidence, files);
    CommittedFilesConsistent(d, Change(e, ConflictFindings(index.claims)), true, |files|, Some(|files|), None);
  }

  lemma InterpretationConsistent(d: SessionData, pass: Pass)
    requires Consistent(d)
    ensures PublishInterpretation(d, pass).Success? ==> Consistent(PublishInterpretation(d, pass).value)
  {
    CommittedRecordsConsistent(d, InterpretationChange(d.evidence, pass), pass.failure);
  }

  lemma CommittedRecordsConsistent(d: SessionData, change: Change, failure: Option<string>)
    requires Consistent(d)
    requires forall g: Facet :: Counted(g) && g != RecordInterpretations && g != ClassRepresentations ==>
      Spares(d, change.evidence, g)
    ensures CommittedRecords(d, change, failure).Success? ==> Consistent(CommittedRecords(d, change, failure).value)
  {
    if Cloned(d, change).Success? {
      TwoFacetsRefreshed(d, change, failure);
      ClassifiedConsistent(Refreshed(Refreshed(Cloned(d, change).value, RecordInterpretations, failure),
                                     ClassRepresentations, failure));
    }
  }

  lemma TwoFacetsRefreshed(d: SessionData, change: Change, failure: Option<string>)
    requires Consistent(d) && Cloned(d, change).Success?
    requires forall g: Facet :: Counted(g) && g != RecordInterpretations && g != ClassRepresentations ==>
      Spares(d, change.evidence, g)
    ensures AllOk(Refreshed(Refreshed(Cloned(d, change).value, RecordInterpretations, failure),
                            ClassRepresentations, failure))
  {
    var n := Cloned(d, change).value;
    var r := Refreshed(n, RecordInterpretations, failure);
    forall g: Facet | Counted(g)
      ensures FacetOk(Refreshed(r, ClassRepresentations, failure), g)
    {
      assert FacetOk(d, g);
      if g != ClassRepresentations {
        if g != RecordInterpretations {
          assert Spares(d, change.evidence, g);
        }
        RefreshOk(n, RecordInterpretations, failure, g);
      }
      RefreshOk(r, ClassRepresentations, failure, g);
    }
  }

  lemma InvalidationConsistent(d: SessionData)
    requires Consistent(d)
    ensures InvalidatedRevision(d).Success? ==> Consistent(InvalidatedRevision(d).value)
  {
    if !d.invalidated && d.revision < U64_MAX {
      forall g: Facet | Counted(g)
        ensures FacetOk(InvalidatedRevision(d).value, g)
      {
        assert FacetOk(d, g);
      }
    }
  }

  lemma EnrichedConsistent(d: SessionData, e: Enrichment)
    requires Consistent(d)
    ensures Consistent(Enriched(d, e))
  {
    match e
    case OosWalked(head, failure) => OosConsistent(d, head, failure);
    case OverflowWalked(source, failure) => OverflowConsistent(d, source, failure);
    case RelocationChecked(source, failure) => RelocationConsistent(d, source, failure);
    case PageDecoded(vpid, fact) => DeepConsistent(d, vpid, fact);
    case PageRefused(vpid, rule) => RefusedConsistent(d, vpid, rule);
    case FilePublished(file) => FileConsistent(d, file);
    case InventoryPublished(files) => InventoryConsistent(d, files);
    case SourceChanged => InvalidationConsistent(d);
    case _ => InterpretationConsistent(d, PassOf(e));
  }

  // Every revision any sequence of enrichments reaches has, for each counted facet, at most one
  // coverage record; it equals a recount of the maps; and its outcome is the classification.
  lemma {:induction false} EveryRevisionConsistent(d: SessionData, run: seq<Enrichment>)
    requires Consistent(d)
    ensures Consistent(After(d, run))
  {
    if run != [] {
      EveryRevisionConsistent(d, run[..|run| - 1]);
      EnrichedConsistent(After(d, run[..|run| - 1]), run[|run| - 1]);
    }
  }

  // Sessions open consistent: after the scan, without an initial inventory, and with the result
  // of one, which the session opens with as its revision 0.
  lemma OpenedConsistent(volumeSectors: seq<nat>, decryptedPages: map<Vpid, bool>, evaluated: nat, conclusive: nat,
                         total: nat, stop: Option<string>, invalidated: bool, findings: seq<Finding>)
    ensures var d := Opened(volumeSectors, decryptedPages, evaluated, conclusive, total, stop, invalidated, findings);
      && Consistent(d)
      && (forall complete, inventoryTotal, reason, finding ::
            Consistent(WithoutInventory(d, complete, inventoryTotal, reason, finding)))
      && (forall e :: Consistent(WithInventory(d, e)))
  {
    var d := Opened(volumeSectors, decryptedPages, evaluated, conclusive, total, stop, invalidated, findings);
    forall g: Facet | Counted(g)
      ensures FacetOk(d, g)
    {
      NoneOfFacet(d.coverage, g);
    }
    forall complete, inventoryTotal, reason, finding
      ensures Consistent(WithoutInventory(d, complete, inventoryTotal, reason, finding))
    {
      UninventoriedConsistent(d, complete, inventoryTotal, reason, finding);
    }
    forall e
      ensures Consistent(WithInventory(d, e))
    {
      InventoriedConsistent(d, e);
    }
  }

  lemma UninventoriedConsistent(d: SessionData, complete: bool, total: Option<nat>, reason: Option<string>,
                                finding: Option<Finding>)
    requires Consistent(d)
    ensures Consistent(WithoutInventory(d, complete, total, reason, finding))
  {
    var w := WithFileInventory(d, complete, 0, total, reason);
    forall g: Facet | Counted(g)
      ensures FacetOk(w, g)
    {
      assert FacetOk(d, g);
      FileInventoryOk(d, complete, 0, total, reason, g);
    }
    var w' := if finding.Some? then w.(diagnostics := w.diagnostics + [finding.value]) else w;
    assert forall g: Facet :: Counted(g) ==> (FacetOk(w, g) <==> FacetOk(w', g));
    ClassifiedConsistent(w');
  }

  lemma InventoriedConsistent(d: SessionData, e: Enrichment)
    requires Consistent(d)
    ensures Consistent(WithInventory(d, e))
  {
    EnrichedConsistent(d, e);
    forall g: Facet | Counted(g)
      ensures FacetOk(WithInventory(d, e), g)
    {
      assert FacetOk(Enriched(d, e), g);
    }
  }

  // ---- What revisions never lose ----

  // A finding once recorded stays and invalidation is permanent; a walk once recorded never
  // changes; a resolved class stays resolved and a record interpreted through a relocation keeps
  // that attribution; and every new revision has the next number.
  ghost predicate Keeps(d: SessionData, r: SessionData)
  {
    && |d.diagnostics| <= |r.diagnostics| && r.diagnostics[..|d.diagnostics|] == d.diagnostics
    && (d.invalidated ==> r.invalidated)
    && (r == d || r.revision == d.revision + 1)
    && KeepsEvidence(d.evidence, r.evidence)
  }

  ghost predicate KeepsEvidence(e: Evidence, r: Evidence)
  {
    && Within(e.oosChains, r.oosChains)
    && Within(e.overflowChains, r.overflowChains)
    && Within(e.relocationEdges, r.relocationEdges)
    && (forall k :: k in e.classRepresentations && e.classRepresentations[k] ==>
          k in r.classRepresentations && r.classRepresentations[k])
    && KeepsRelocations(e.recordInterpretations, r.recordInterpretations)
  }

  predicate Within(m: map<Oid, bool>, m': map<Oid, bool>)
  {
    forall o :: o in m ==> o in m' && m'[o] == m[o]
  }

  ghost predicate KeepsIfPublished(d: SessionData, r: Result<SessionData, OperationError>)
  {
    r.Success? ==>
      Keeps(d, r.value) && r.value.revision == d.revision + 1 && r.value.invalidated == d.invalidated
  }

  lemma CommittedKeeps(d: SessionData, change: Change, f: Facet, failure: Option<string>)
    requires Counted(f) && KeepsEvidence(d.evidence, change.evidence)
    ensures KeepsIfPublished(d, Committed(d, change, f, failure))
  {
  }

  lemma CommittedFilesKeeps(d: SessionData, change: Change, complete: bool, count: nat, total: Option<nat>,
                            reason: Option<string>)
    requires KeepsEvidence(d.evidence, change.evidence)
    ensures KeepsIfPublished(d, CommittedFiles(d, change, complete, count, total, reason))
  {
  }

  lemma CommittedRecordsKeeps(d: SessionData, change: Change, failure: Option<string>)
    requires KeepsEvidence(d.evidence, change.evidence)
    ensures KeepsIfPublished(d, CommittedRecords(d, change, failure))
  {
  }

  lemma ChainsKeep(d: SessionData, o: Oid, failure: Option<string>)
    ensures o !in d.evidence.oosChains ==> KeepsIfPublished(d, PublishOosChain(d, o, failure))
    ensures o !in d.evidence.overflowChains ==> KeepsIfPublished(d, PublishOverflowChain(d, o, failure))
    ensures o !in d.evidence.relocationEdges ==> KeepsIfPublished(d, PublishRelocationEdge(d, o, failure))
  {
    var e, ok := d.evidence, failure.None?;
    if o !in e.oosChains {
      CommittedKeeps(d, Change(e.(oosChains := e.oosChains[o := ok]), FailureFindings("oos.chain.invalid", failure)),
                     OosChains, failure);
    }
    if o !in e.overflowChains {
      CommittedKeeps(d, Change(e.(overflowChains := e.overflowChains[o := ok]),
                               FailureFindings("overflow.chain.invalid", failure)), OverflowChains, failure);
    }
    if o !in e.relocationEdges {
      CommittedKeeps(d, Change(e.(relocationEdges := e.relocationEdges[o := ok]),
                               FailureFindings("heap.relocation.invalid", failure)), RelocationEdges, failure);
    }
  }

  lemma RefusedKeeps(d: SessionData, vpid: Vpid, rule: string)
    ensures KeepsIfPublished(d, PageDecodeFailure(d, vpid, rule))
  {
    var decrypted := vpid in d.decryptedPages && d.decryptedPages[vpid];
    var e := WithDeepPage(d.evidence, vpid, DeepPage(false, Some(rule)));
    CommittedKeeps(d, Change(if decrypted then e.(pageOverrides := e.pageOverrides + {vpid}) else e,
                             [Finding(if decrypted then "tde.decrypted_invalid" else "page.body.invalid", Error, rule)]),
                   DeepPages, Some("corrupt-structure"));
  }

  lemma DeepKeeps(d: SessionData, vpid: Vpid, fact: DeepPage)
    ensures KeepsIfPublished(d, PublishDeepPage(d, vpid, fact))
  {
    CommittedKeeps(d, Change(WithDeepPage(d.evidence, vpid, fact), []), DeepPages, None);
  }

  lemma FileKeeps(d: SessionData, file: Ownership.FileFacts)
    ensures KeepsIfPublished(d, PublishFile(d, file))
  {
    RefusedKeeps(d, HeaderPage(file.vfid), "file.table.owner_unique");
    var e := WithDeepPage(d.evidence, HeaderPage(file.vfid), DeepPage(true, None));
    CommittedFilesKeeps(d, Change(e.(index := Ownership.Published(e.index, file)), []),
                        false, HeaderCount(e.deepPages), None, Some("selective-enrichment"));
  }

  lemma InventoryKeeps(d: SessionData, files: seq<Ownership.FileFacts>)
    ensures KeepsIfPublished(d, PublishInventory(d, files))
  {
    CommittedFilesKeeps(d, Change(Inventoried(d.evidence, files), ConflictFindings(Ownership.Inventory(files).claims)),
                        true, |files|, Some(|files|), None);
  }

  lemma InterpretationKeeps(d: SessionData, pass: Pass)
    ensures KeepsIfPublished(d, PublishInterpretation(d, pass))
  {
    InsertedRecorded(d.evidence.recordInterpretations, pass.records);
    CommittedRecordsKeeps(d, InterpretationChange(d.evidence, pass), pass.failure);
  }

  // `publish_interpretation`: what the pass leaves on record is all that changes in the maps; the
  // new revision keeps what is never lost and stays consistent.
  method RecordPass(d: SessionData, pass: Pass) returns (r: Result<SessionData, OperationError>)
    ensures r == PublishInterpretation(d, pass)
    ensures r.Success? <==> d.revision < U64_MAX
    ensures r.Success? ==>
      && PassRecorded(d.evidence, pass, r.value.evidence)
      && Keeps(d, r.value) && r.value.revision == d.revision + 1
      && (Consistent(d) ==> Consistent(r.value))
  {
    if d.revision == U64_MAX {
      return Failure(Arithmetic);
    }
    var change := ChangeInterpretations(d.evidence, pass);
    InterpretationKeeps(d, pass);
    if Consistent(d) {
      InterpretationConsistent(d, pass);
    }
    r := CommittedRecords(d, change, pass.failure);
  }

  lemma EnrichedKeeps(d: SessionData, e: Enrichment)
    ensures Keeps(d, Enriched(d, e))
    ensures !e.SourceChanged? && !AlreadyKnown(d, e) ==> KeepsIfPublished(d, Attempt(d, e))
  {
    if !AlreadyKnown(d, e) {
      match e
      case OosWalked(head, failure) => ChainsKeep(d, head, failure);
      case OverflowWalked(source, failure) => ChainsKeep(d, source, failure);
      case RelocationChecked(source, failure) => ChainsKeep(d, source, failure);
      case PageDecoded(vpid, fact) => DeepKeeps(d, vpid, fact);
      case PageRefused(vpid, rule) => RefusedKeeps(d, vpid, rule);
      case FilePublished(file) => FileKeeps(d, file);
      case InventoryPublished(files) => InventoryKeeps(d, files);
      case SourceChanged =>
      case _ => InterpretationKeeps(d, PassOf(e));
    }
  }

  // Evidence is kept over whole runs: recorded walks never change, resolved classes stay
  // resolved, relocation attributions stay.
  lemma {:induction false} RunKeepsEvidence(d: SessionData, run: seq<Enrichment>)
    ensures KeepsEvidence(d.evidence, After(d, run).evidence)
  {
    if run != [] {
      RunKeepsEvidence(d, run[..|run| - 1]);
      EnrichedKeeps(After(d, run[..|run| - 1]), run[|run| - 1]);
    }
  }

  lemma ErrorsKept(d: SessionData, r: SessionData)
    requires Keeps(d, r) && HasError(d)
    ensures HasError(r)
  {
    var i :| 0 <= i < |d.diagnostics| && d.diagnostics[i].severity == Error;
    assert r.diagnostics[..|d.diagnostics|][i] == r.diagnostics[i];
  }

  // Once an error is recorded the outcome stays at least Findings; once the source has changed
  // it stays Fatal.
  lemma {:induction false} OutcomeFloor(d: SessionData, run: seq<Enrichment>)
    requires Consistent(d)
    ensures HasError(d) ==> HasError(After(d, run)) && Rank(After(d, run).outcome) >= Rank(Findings)
    ensures d.invalidated ==> After(d, run).invalidated && After(d, run).outcome == FatalOutcome
  {
    EveryRevisionConsistent(d, run);
    if run != [] {
      var before := After(d, run[..|run| - 1]);
      OutcomeFloor(d, run[..|run| - 1]);
      EnrichedKeeps(before, run[|run| - 1]);
      if HasError(before) {
        ErrorsKept(before, After(d, run));
      }
    }
  }

  lemma CommittedContents(d: SessionData, change: Change, f: Facet, failure: Option<string>)
    requires Counted(f)
    ensures var r := Committed(d, change, f, failure);
      r.Success? ==>
        && r.value.evidence == change.evidence
        && r.value.diagnostics == d.diagnostics + change.findings
        && r.value.outcome == Classify(r.value)
  {
  }

  // The chain and edge maps of two sessions agree but for one walk.
  predicate OthersKept(m: map<Oid, bool>, m': map<Oid, bool>, o: Oid)
  {
    m' - {o} == m - {o}
  }

  // A walk is recorded as complete exactly when it did not fail; a failure is an error finding
  // and keeps the outcome at Findings or above, a success adds no finding; all other walks and
  // all other maps stay as they are.
  ghost predicate WalkRecorded(d: SessionData, r: Result<SessionData, OperationError>, failure: Option<string>)
  {
    r.Success? ==>
      && (failure.Some? ==> HasError(r.value) && Rank(r.value.outcome) >= Rank(Findings))
      && (failure.None? ==> r.value.diagnostics == d.diagnostics)
      && r.value.evidence.deepPages == d.evidence.deepPages
      && r.value.evidence.index == d.evidence.index
      && r.value.evidence.recordInterpretations == d.evidence.recordInterpretations
      && r.value.evidence.classRepresentations == d.evidence.classRepresentations
  }

  lemma CommittedWalkRecorded(d: SessionData, evidence: Evidence, invalid: string, f: Facet, failure: Option<string>)
    requires Counted(f) && evidence.deepPages == d.evidence.deepPages && evidence.index == d.evidence.index
    requires evidence.recordInterpretations == d.evidence.recordInterpretations
    requires evidence.classRepresentations == d.evidence.classRepresentations
    ensures WalkRecorded(d, Committed(d, Change(evidence, FailureFindings(invalid, failure)), f, failure), failure)
  {
    var change := Change(evidence, FailureFindings(invalid, failure));
    CommittedContents(d, change, f, failure);
    var r := Committed(d, change, f, failure);
    if r.Success? && failure.Some? {
      assert r.value.diagnostics[|d.diagnostics|].severity == Error;
    }
  }

  lemma OosWalkRecorded(d: SessionData, head: Oid, failure: Option<string>)
    ensures var r := PublishOosChain(d, head, failure);
      && WalkRecorded(d, r, failure)
      && (r.Success? ==>
            && head in r.value.evidence.oosChains && r.value.evidence.oosChains[head] == failure.None?
            && OthersKept(d.evidence.oosChains, r.value.evidence.oosChains, head)
            && r.value.evidence.overflowChains == d.evidence.overflowChains
            && r.value.evidence.relocationEdges == d.evidence.relocationEdges)
  {
    var e := d.evidence.(oosChains := d.evidence.oosChains[head := failure.None?]);
    CommittedWalkRecorded(d, e, "oos.chain.invalid", OosChains, failure);
    CommittedContents(d, Change(e, FailureFindings("oos.chain.invalid", failure)), OosChains, failure);
  }

  lemma OverflowWalkRecorded(d: SessionData, source: Oid, failure: Option<string>)
    ensures var r := PublishOverflowChain(d, source, failure);
      && WalkRecorded(d, r, failure)
      && (r.Success? ==>
            && source in r.value.evidence.overflowChains && r.value.evidence.overflowChains[source] == failure.None?
            && OthersKept(d.evidence.overflowChains, r.value.evidence.overflowChains, source)
            && r.value.evidence.oosChains == d.evidence.oosChains
            && r.value.evidence.relocationEdges == d.evidence.relocationEdges)
  {
    var e := d.evidence.(overflowChains := d.evidence.overflowChains[source := failure.None?]);
    CommittedWalkRecorded(d, e, "overflow.chain.invalid", OverflowChains, failure);
    CommittedContents(d, Change(e, FailureFindings("overflow.chain.invalid", failure)), OverflowChains, failure);
  }

  lemma RelocationRecorded(d: SessionData, source: Oid, failure: Option<string>)
    ensures var r := PublishRelocationEdge(d, source, failure);
      && WalkRecorded(d, r, failure)
      && (r.Success? ==>
            && source in r.value.evidence.relocationEdges && r.value.evidence.relocationEdges[source] == failure.None?
            && OthersKept(d.evidence.relocationEdges, r.value.evidence.relocationEdges, source)
            && r.value.evidence.oosChains == d.evidence.oosChains
            && r.value.evidence.overflowChains == d.evidence.overflowChains)
  {
    var e := d.evidence.(relocationEdges := d.evidence.relocationEdges[source := failure.None?]);
    CommittedWalkRecorded(d, e, "heap.relocation.invalid", RelocationEdges, failure);
    CommittedContents(d, Change(e, FailureFindings("heap.relocation.invalid", failure)), RelocationEdges, failure);
  }

  // A refused page stays on record with its rule, is overridden exactly when it had been
  // decrypted, and is an error; a page without a fast fact is refused an answer.
  lemma RefusedPageRecorded(d: SessionData, vpid: Vpid, rule: string)
    ensures var r := PageDecodeFailure(d, vpid, rule);
      && (r.Success? <==> d.revision < U64_MAX && vpid in d.decryptedPages)
      && (r.Success? ==>
            && r.value.evidence.deepPages == d.evidence.deepPages[vpid := DeepPage(false, Some(rule))]
            && r.value.evidence.pageOverrides
               == d.evidence.pageOverrides + (if d.decryptedPages[vpid] then {vpid} else {})
            && HasError(r.value) && Rank(r.value.outcome) >= Rank(Findings))
  {
    var decrypted := vpid in d.decryptedPages && d.decryptedPages[vpid];
    var e := WithDeepPage(d.evidence, vpid, DeepPage(false, Some(rule)));
    var change := Change(if decrypted then e.(pageOverrides := e.pageOverrides + {vpid}) else e,
                         [Finding(if decrypted then "tde.decrypted_invalid" else "page.body.invalid", Error, rule)]);
    CommittedContents(d, change, DeepPages, Some("corrupt-structure"));
    var r := Committed(d, change, DeepPages, Some("corrupt-structure"));
    if r.Success? {
      assert r.value.diagnostics[|d.diagnostics|].severity == Error;
    }
  }
}
