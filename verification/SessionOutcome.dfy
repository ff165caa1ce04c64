// How enrichments move a session's outcome, and what its recorded walks say about it.
module SessionOutcome {
  import opened Wrappers
  import opened Bits
  import opened Pages
  import Ownership
  import opened Session

  // ---- What one enrichment does to the coverage, in terms of the earlier revision ----

  predicate CutReason(reason: Option<string>)
  {
    reason in {Some("resource-limit"), Some("interrupted"), Some("unreadable")}
  }

  // The enrichment publishes a new revision.
  predicate Publishes(d: SessionData, e: Enrichment)
  {
    && d.revision < U64_MAX && !AlreadyKnown(d, e)
    && match e
       case PageRefused(vpid, _) => vpid in d.decryptedPages
       case FilePublished(file) =>
         Ownership.OwnedByOther(d.evidence.index, file) ==> HeaderPage(file.vfid) in d.decryptedPages
       case InventoryPublished(files) => Ownership.PagesDisjoint(files)
       case SourceChanged => !d.invalidated
       case _ => true
  }

  // The facets whose coverage records it replaces.
  function Replaced(d: SessionData, e: Enrichment): set<Facet>
  {
    match e
    case OosWalked(_, _) => {OosChains}
    case OverflowWalked(_, _) => {OverflowChains}
    case RelocationChecked(_, _) => {RelocationEdges}
    case PageDecoded(_, _) => {DeepPages}
    case PageRefused(_, _) => {DeepPages}
    case FilePublished(file) =>
      if Ownership.OwnedByOther(d.evidence.index, file) then {DeepPages} else {DeepPages, FileInventory}
    case InventoryPublished(_) => {DeepPages, FileInventory}
    case SourceChanged => {}
    case _ => {RecordInterpretations, ClassRepresentations}
  }

  // Some interpretation has a rule against it, or some class is or will be unresolved.
  ghost predicate Unfinished(e: Evidence, classOid: Option<Oid>)
  {
    || (exists o :: o in e.recordInterpretations && e.recordInterpretations[o].rule.Some?)
    || (exists k :: k in e.classRepresentations && !e.classRepresentations[k])
    || (classOid.Some? && (classOid.value, 0) !in e.classRepresentations)
  }

  // A record it writes is cut short.
  ghost predicate Cuts(d: SessionData, e: Enrichment)
  {
    match e
    case OosWalked(_, failure) => CutReason(failure)
    case OverflowWalked(_, failure) => CutReason(failure)
    case RelocationChecked(_, failure) => CutReason(failure)
    case InterpretationFailed(_, _, classOid, reason) => CutReason(Some(reason)) && Unfinished(d.evidence, classOid)
    case _ => false
  }

  // A record of none of these facets is cut short.
  ghost predicate CutOutside(records: seq<CoverageRecord>, fs: set<Facet>)
  {
    exists i :: 0 <= i < |records| && Cut(records[i]) && records[i].facet !in fs
  }

  lemma CutAppend(records: seq<CoverageRecord>, r: CoverageRecord, fs: set<Facet>)
    ensures CutOutside(records + [r], fs) <==> CutOutside(records, fs) || (Cut(r) && r.facet !in fs)
  {
    var all := records + [r];
    if CutOutside(records, fs) {
      var i :| 0 <= i < |records| && Cut(records[i]) && records[i].facet !in fs;
      assert all[i] == records[i];
    }
    if Cut(r) && r.facet !in fs {
      assert all[|records|] == r;
    }
  }

  lemma {:induction false} CutWithout(records: seq<CoverageRecord>, f: Facet, fs: set<Facet>)
    ensures CutOutside(Without(records, f), fs) <==> CutOutside(records, fs + {f})
  {
    if records != [] {
      var front, last := records[..|records| - 1], records[|records| - 1];
      CutWithout(front, f, fs);
      assert records == front + [last];
      CutAppend(front, last, fs + {f});
      if last.facet == f {
        assert Without(records, f) == Without(front, f);
      } else {
        CutAppend(Without(front, f), last, fs);
      }
    }
  }

  lemma CutReplaced(records: seq<CoverageRecord>, r: CoverageRecord, fs: set<Facet>)
    ensures CutOutside(Without(records, r.facet) + [r], fs)
       <==> CutOutside(records, fs + {r.facet}) || (Cut(r) && r.facet !in fs)
  {
    CutAppend(Without(records, r.facet), r, fs);
    CutWithout(records, r.facet, fs);
  }

  lemma CutShortIsOutside(d: SessionData)
    ensures CutShort(d) <==> CutOutside(d.coverage, {})
  {
  }

  // ---- When a recount is incomplete ----

  lemma AllGood<K>(m: map<K, bool>)
    ensures CountGood(m) == |m| <==> forall k :: k in m ==> m[k]
  {
    var good := set k | k in m && m[k];
    assert good <= m.Keys;
    if good == m.Keys {
      assert forall k :: k in m ==> k in good;
    } else {
      var k :| k in m.Keys && k !in good;
      assert good <= m.Keys - {k};
      SmallerSubset(good, m.Keys - {k});
    }
  }

  lemma {:induction false} SmallerSubset<T>(a: set<T>, b: set<T>)
    requires a <= b
    ensures |a| <= |b|
  {
    if a != {} {
      var x :| x in a;
      SmallerSubset(a - {x}, b - {x});
    }
  }

  lemma AllClean(m: map<Oid, Interpretation>)
    ensures CleanInterpretations(m) == |m| <==> forall o :: o in m ==> m[o].rule.None?
  {
    var clean := set o | o in m && m[o].rule.None?;
    assert clean <= m.Keys;
    if clean == m.Keys {
      assert forall o :: o in m ==> o in clean;
    } else {
      var o :| o in m.Keys && o !in clean;
      SmallerSubset(clean, m.Keys - {o});
    }
  }

  lemma FailedWalkIncomplete(m: map<Oid, bool>, o: Oid, failure: Option<string>)
    ensures failure.Some? ==> !Chains(m[o := failure.None?]).complete
  {
    AllGood(m[o := failure.None?]);
    assert o in m[o := failure.None?];
  }

  // ---- The new revision's coverage ----

  lemma CommittedCut(d: SessionData, change: Change, f: Facet, failure: Option<string>)
    requires Counted(f) && Committed(d, change, f, failure).Success?
    ensures CutShort(Committed(d, change, f, failure).value)
       <==> Cut(RecordFor(RecountOf(change.evidence, d.volumeSectors, f), f, failure)) || CutOutside(d.coverage, {f})
  {
    var r := Committed(d, change, f, failure).value;
    CutShortIsOutside(r);
    CutReplaced(d.coverage, RecordFor(RecountOf(change.evidence, d.volumeSectors, f), f, failure), {});
    assert {} + {f} == {f};
  }

  // Two records of different facets replaced one after the other.
  lemma TwoReplaced(records: seq<CoverageRecord>, first: CoverageRecord, second: CoverageRecord)
    requires first.facet != second.facet
    ensures CutOutside(Without(Without(records, first.facet) + [first], second.facet) + [second], {})
       <==> CutOutside(records, {first.facet, second.facet}) || Cut(first) || Cut(second)
  {
    CutReplaced(Without(records, first.facet) + [first], second, {});
    CutReplaced(records, first, {second.facet});
    assert {} + {second.facet} == {second.facet};
    assert {second.facet} + {first.facet} == {first.facet, second.facet};
  }

  lemma CommittedFilesCut(d: SessionData, change: Change, complete: bool, count: nat, total: Option<nat>,
                          reason: Option<string>)
    requires CommittedFiles(d, change, complete, count, total, reason).Success? && !CutReason(reason)
    ensures CutShort(CommittedFiles(d, change, complete, count, total, reason).value)
       <==> CutOutside(d.coverage, {DeepPages, FileInventory})
  {
    var deep := RecordFor(RecountOf(change.evidence, d.volumeSectors, DeepPages), DeepPages, None);
    CutShortIsOutside(CommittedFiles(d, change, complete, count, total, reason).value);
    TwoReplaced(d.coverage, deep, CoverageRecord(FileInventory, complete, count, count, total, reason));
  }

  // Interpretations and representations are counted as finished.
  predicate Finished(e: Evidence)
  {
    && CleanInterpretations(e.recordInterpretations) == |e.recordInterpretations|
    && CountGood(e.classRepresentations) == |e.classRepresentations|
  }

  lemma CommittedRecordsCut(d: SessionData, change: Change, failure: Option<string>)
    requires CommittedRecords(d, change, failure).Success?
    ensures CutShort(CommittedRecords(d, change, failure).value)
       <==> || CutOutside(d.coverage, {RecordInterpretations, ClassRepresentations})
            || (CutReason(failure) && !Finished(change.evidence))
  {
    var e := change.evidence;
    var records := RecordFor(RecountOf(e, d.volumeSectors, RecordInterpretations), RecordInterpretations, failure);
    var classes := RecordFor(RecountOf(e, d.volumeSectors, ClassRepresentations), ClassRepresentations, failure);
    CutShortIsOutside(CommittedRecords(d, change, failure).value);
    TwoReplaced(d.coverage, records, classes);
    RecordsCutIff(e, d.volumeSectors, failure);
  }

  lemma RecordsCutIff(e: Evidence, volumeSectors: seq<nat>, failure: Option<string>)
    ensures CutReason(failure) && !Finished(e) <==>
      || Cut(RecordFor(RecountOf(e, volumeSectors, RecordInterpretations), RecordInterpretations, failure))
      || Cut(RecordFor(RecountOf(e, volumeSectors, ClassRepresentations), ClassRepresentations, failure))
  {
  }

  // The new revision is cut short exactly if the enrichment cuts a record or an earlier cut
  // record is not replaced.
  ghost predicate CutAsPredicted(d: SessionData, e: Enrichment)
  {
    CutShort(Enriched(d, e)) <==> Cuts(d, e) || CutOutside(d.coverage, Replaced(d, e))
  }

  lemma WalkCut(d: SessionData, e: Enrichment)
    requires Publishes(d, e) && (e.OosWalked? || e.OverflowWalked? || e.RelocationChecked?)
    ensures CutAsPredicted(d, e)
  {
    match e
    case OosWalked(o, failure) =>
      var m := d.evidence.oosChains[o := failure.None?];
      FailedWalkIncomplete(d.evidence.oosChains, o, failure);
      CommittedCut(d, Change(d.evidence.(oosChains := m), FailureFindings("oos.chain.invalid", failure)),
                   OosChains, failure);
    case OverflowWalked(o, failure) =>
      var m := d.evidence.overflowChains[o := failure.None?];
      FailedWalkIncomplete(d.evidence.overflowChains, o, failure);
      CommittedCut(d, Change(d.evidence.(overflowChains := m), FailureFindings("overflow.chain.invalid", failure)),
                   OverflowChains, failure);
    case RelocationChecked(o, failure) =>
      var m := d.evidence.relocationEdges[o := failure.None?];
      FailedWalkIncomplete(d.evidence.relocationEdges, o, failure);
      CommittedCut(d, Change(d.evidence.(relocationEdges := m), FailureFindings("heap.relocation.invalid", failure)),
                   RelocationEdges, failure);
  }

  lemma RefusedCut(d: SessionData, vpid: Vpid, rule: string)
    requires PageDecodeFailure(d, vpid, rule).Success?
    ensures CutShort(PageDecodeFailure(d, vpid, rule).value) <==> CutOutside(d.coverage, {DeepPages})
  {
    var decrypted := vpid in d.decryptedPages && d.decryptedPages[vpid];
    var e := WithDeepPage(d.evidence, vpid, DeepPage(false, Some(rule)));
    CommittedCut(d, Change(if decrypted then e.(pageOverrides := e.pageOverrides + {vpid}) else e,
                           [Finding(if decrypted then "tde.decrypted_invalid" else "page.body.invalid", Error, rule)]),
                 DeepPages, Some("corrupt-structure"));
  }

  lemma PageCut(d: SessionData, e: Enrichment)
    requires Publishes(d, e) && (e.PageDecoded? || e.PageRefused?)
    ensures CutAsPredicted(d, e)
  {
    match e
    case PageDecoded(vpid, fact) =>
      CommittedCut(d, Change(WithDeepPage(d.evidence, vpid, fact), []), DeepPages, None);
    case PageRefused(vpid, rule) => RefusedCut(d, vpid, rule);
  }

  lemma FileCut(d: SessionData, e: Enrichment)
    requires Publishes(d, e) && (e.FilePublished? || e.InventoryPublished?)
    ensures CutAsPredicted(d, e)
  {
    match e
    case FilePublished(file) =>
      if Ownership.OwnedByOther(d.evidence.index, file) {
        RefusedCut(d, HeaderPage(file.vfid), "file.table.owner_unique");
      } else {
        var w := WithDeepPage(d.evidence, HeaderPage(file.vfid), DeepPage(true, None));
        CommittedFilesCut(d, Change(w.(index := Ownership.Published(w.index, file)), []),
                          false, HeaderCount(w.deepPages), None, Some("selective-enrichment"));
      }
    case InventoryPublished(files) =>
      CommittedFilesCut(d, Change(Inventoried(d.evidence, files), ConflictFindings(Ownership.Inventory(files).claims)),
                        true, |files|, Some(|files|), None);
  }

  lemma FailedPassUnfinished(e: Evidence, pass: Pass)
    requires pass.resolved == [] && pass.records == [] && pass.failure.Some?
    ensures var r := InterpretationChange(e, pass).evidence;
      Unfinished(e, pass.classOid) <==> !Finished(r)
  {
    var r := InterpretationChange(e, pass).evidence;
    AllClean(r.recordInterpretations);
    AllGood(r.classRepresentations);
    FailedPassClasses(e, pass);
  }

  lemma FailedPassClasses(e: Evidence, pass: Pass)
    requires pass.resolved == [] && pass.failure.Some?
    ensures var m := Representations(e, pass.resolved, pass.failure, pass.classOid);
      (exists k :: k in m && !m[k]) <==>
        || (exists k :: k in e.classRepresentations && !e.classRepresentations[k])
        || (pass.classOid.Some? && (pass.classOid.value, 0) !in e.classRepresentations)
  {
    var m := Representations(e, pass.resolved, pass.failure, pass.classOid);
    if pass.classOid.Some? && (pass.classOid.value, 0) !in e.classRepresentations {
      assert (pass.classOid.value, 0) in m && !m[(pass.classOid.value, 0)];
    }
    if k :| k in e.classRepresentations && !e.classRepresentations[k] {
      assert k in m && !m[k];
    }
  }

  lemma PassCut(d: SessionData, pass: Pass)
    requires PublishInterpretation(d, pass).Success?
    requires pass.failure.Some? ==> pass.resolved == [] && pass.records == []
    ensures CutShort(PublishInterpretation(d, pass).value)
       <==> || CutOutside(d.coverage, {RecordInterpretations, ClassRepresentations})
            || (CutReason(pass.failure) && Unfinished(d.evidence, pass.classOid))
  {
    CommittedRecordsCut(d, InterpretationChange(d.evidence, pass), pass.failure);
    if pass.failure.Some? {
      FailedPassUnfinished(d.evidence, pass);
    }
  }

  lemma PassEnriched(d: SessionData, e: Enrichment)
    requires Publishes(d, e) && (e.ClassResolved? || e.PageInterpreted? || e.InterpretationFailed?)
    ensures PublishInterpretation(d, PassOf(e)) == Success(Enriched(d, e))
  {
    InterpretationPublishes(d, PassOf(e));
  }

  lemma PassCuts(d: SessionData, e: Enrichment)
    requires e.ClassResolved? || e.PageInterpreted? || e.InterpretationFailed?
    ensures var pass := PassOf(e);
      && (pass.failure.Some? ==> pass.resolved == [] && pass.records == [])
      && (Cuts(d, e) <==> CutReason(pass.failure) && Unfinished(d.evidence, pass.classOid))
  {
  }

  lemma InterpretationCut(d: SessionData, e: Enrichment)
    requires Publishes(d, e) && (e.ClassResolved? || e.PageInterpreted? || e.InterpretationFailed?)
    ensures CutAsPredicted(d, e)
  {
    PassEnriched(d, e);
    PassCuts(d, e);
    PassCut(d, PassOf(e));
  }

  lemma PublishedCut(d: SessionData, e: Enrichment)
    requires Publishes(d, e) && !e.SourceChanged?
    ensures CutAsPredicted(d, e)
  {
    match e
    case OosWalked(_, _) => WalkCut(d, e);
    case OverflowWalked(_, _) => WalkCut(d, e);
    case RelocationChecked(_, _) => WalkCut(d, e);
    case PageDecoded(_, _) => PageCut(d, e);
    case PageRefused(_, _) => PageCut(d, e);
    case FilePublished(_) => FileCut(d, e);
    case InventoryPublished(_) => FileCut(d, e);
    case _ => InterpretationCut(d, e);
  }

  lemma WalkPublishes(d: SessionData, o: Oid, failure: Option<string>)
    ensures PublishOosChain(d, o, failure).Success? <==> d.revision < U64_MAX
    ensures PublishOverflowChain(d, o, failure).Success? <==> d.revision < U64_MAX
    ensures PublishRelocationEdge(d, o, failure).Success? <==> d.revision < U64_MAX
  {
  }

  lemma PagePublishes(d: SessionData, vpid: Vpid, fact: DeepPage, rule: string)
    ensures PublishDeepPage(d, vpid, fact).Success? <==> d.revision < U64_MAX
    ensures PageDecodeFailure(d, vpid, rule).Success? <==> d.revision < U64_MAX && vpid in d.decryptedPages
  {
  }

  lemma FilePublishes(d: SessionData, file: Ownership.FileFacts)
    ensures PublishFile(d, file).Success? <==>
      && d.revision < U64_MAX
      && (Ownership.OwnedByOther(d.evidence.index, file) ==> HeaderPage(file.vfid) in d.decryptedPages)
  {
    PagePublishes(d, HeaderPage(file.vfid), DeepPage(false, None), "file.table.owner_unique");
  }

  lemma InventoryPublishes(d: SessionData, files: seq<Ownership.FileFacts>)
    ensures PublishInventory(d, files).Success? <==> d.revision < U64_MAX && Ownership.PagesDisjoint(files)
  {
  }

  lemma InterpretationPublishes(d: SessionData, pass: Pass)
    ensures PublishInterpretation(d, pass).Success? <==> d.revision < U64_MAX
  {
  }

  // Nothing on record, and nothing in the way, is what it takes to publish.
  lemma PublishesIff(d: SessionData, e: Enrichment)
    ensures Publishes(d, e) ==> Enriched(d, e).revision == d.revision + 1
    ensures !Publishes(d, e) ==> Enriched(d, e) == d
    ensures !e.SourceChanged? ==> Enriched(d, e).invalidated == d.invalidated
  {
    EnrichedKeeps(d, e);
    match e
    case OosWalked(head, failure) => WalkPublishes(d, head, failure);
    case OverflowWalked(source, failure) => WalkPublishes(d, source, failure);
    case RelocationChecked(source, failure) => WalkPublishes(d, source, failure);
    case PageDecoded(vpid, fact) => PagePublishes(d, vpid, fact, "");
    case PageRefused(vpid, rule) => PagePublishes(d, vpid, DeepPage(false, None), rule);
    case FilePublished(file) => FilePublishes(d, file);
    case InventoryPublished(files) => InventoryPublishes(d, files);
    case SourceChanged =>
    case _ => InterpretationPublishes(d, PassOf(e));
  }

  // ---- When the outcome falls ----

  // An enrichment lowers the outcome exactly if it publishes a revision of an incomplete
  // session, cuts no record itself, and replaces every record that was cut short.
  lemma OutcomeDropsIff(d: SessionData, e: Enrichment)
    requires Consistent(d)
    ensures Rank(Enriched(d, e).outcome) < Rank(d.outcome) <==>
      && d.outcome == Incomplete && Publishes(d, e)
      && !Cuts(d, e) && !CutOutside(d.coverage, Replaced(d, e))
  {
    EnrichedConsistent(d, e);
    EnrichedKeeps(d, e);
    PublishesIff(d, e);
    if HasError(d) {
      ErrorsKept(d, Enriched(d, e));
    }
    if Publishes(d, e) && !e.SourceChanged? {
      PublishedCut(d, e);
    }
    CutShortIsOutside(d);
  }

  lemma CutOnlyIn(records: seq<CoverageRecord>, f: Facet)
    ensures !CutOutside(records, {f}) <==> forall i :: 0 <= i < |records| && Cut(records[i]) ==> records[i].facet == f
  {
  }

  // The three walks, spelled out: the outcome falls exactly if the head is new, the walk is not
  // stopped by a limit, and every record cut short is about walks of its kind.
  lemma WalkDropsIff(d: SessionData, head: Oid, failure: Option<string>)
    requires Consistent(d) && d.revision < U64_MAX
    ensures Rank(Enriched(d, OosWalked(head, failure)).outcome) < Rank(d.outcome) <==>
      && d.outcome == Incomplete && head !in d.evidence.oosChains && !CutReason(failure)
      && forall i :: 0 <= i < |d.coverage| && Cut(d.coverage[i]) ==> d.coverage[i].facet == OosChains
    ensures Rank(Enriched(d, OverflowWalked(head, failure)).outcome) < Rank(d.outcome) <==>
      && d.outcome == Incomplete && head !in d.evidence.overflowChains && !CutReason(failure)
      && forall i :: 0 <= i < |d.coverage| && Cut(d.coverage[i]) ==> d.coverage[i].facet == OverflowChains
    ensures Rank(Enriched(d, RelocationChecked(head, failure)).outcome) < Rank(d.outcome) <==>
      && d.outcome == Incomplete && head !in d.evidence.relocationEdges && !CutReason(failure)
      && forall i :: 0 <= i < |d.coverage| && Cut(d.coverage[i]) ==> d.coverage[i].facet == RelocationEdges
  {
    OutcomeDropsIff(d, OosWalked(head, failure));
    CutOnlyIn(d.coverage, OosChains);
    OutcomeDropsIff(d, OverflowWalked(head, failure));
    CutOnlyIn(d.coverage, OverflowChains);
    OutcomeDropsIff(d, RelocationChecked(head, failure));
    CutOnlyIn(d.coverage, RelocationEdges);
  }

  // A session with no record cut short, whose revisions are not used up.
  ghost predicate Uncut(s: SessionData)
  {
    Consistent(s) && s.revision + 2 <= U64_MAX && !s.invalidated && !CutOutside(s.coverage, {})
  }

  // Every complete scan opens such a session, with any findings, if there are no file tables.
  lemma OpenedUncut(volumeSectors: seq<nat>, decryptedPages: map<Vpid, bool>, n: nat, findings: seq<Finding>)
    ensures Uncut(WithoutInventory(Opened(volumeSectors, decryptedPages, n, n, n, None, false, findings),
                                   true, Some(0), None, None))
  {
    var scanned := Opened(volumeSectors, decryptedPages, n, n, n, None, false, findings);
    OpenedConsistent(volumeSectors, decryptedPages, n, n, n, None, false, findings);
    NoneOfFacet(scanned.coverage, FileInventory);
  }

  // It does fall, in every session without records cut short: one OOS walk stops at its limit and
  // a walk of another head then succeeds.
  lemma OutcomeCanDrop(s: SessionData, stopped: Oid, other: Oid)
    requires Uncut(s) && stopped != other
    requires stopped !in s.evidence.oosChains && other !in s.evidence.oosChains
    ensures var first, second := OosWalked(stopped, Some("resource-limit")), OosWalked(other, None);
      && Rank(s.outcome) < Rank(Incomplete)
      && After(s, [first]).outcome == Incomplete
      && After(s, [first, second]).outcome == Findings
  {
    TwoSteps(s, OosWalked(stopped, Some("resource-limit")), OosWalked(other, None));
    CutShortIsOutside(s);
    FirstWalkStops(s, stopped);
    SecondWalkDrops(s, stopped, other, Enriched(s, OosWalked(stopped, Some("resource-limit"))));
  }

  lemma FirstWalkStops(s: SessionData, stopped: Oid)
    requires Uncut(s) && stopped !in s.evidence.oosChains
    ensures var d := Enriched(s, OosWalked(stopped, Some("resource-limit")));
      && Consistent(d) && d.outcome == Incomplete && d.revision == s.revision + 1 && HasError(d)
      && OthersKept(s.evidence.oosChains, d.evidence.oosChains, stopped)
      && forall i :: 0 <= i < |d.coverage| && Cut(d.coverage[i]) ==> d.coverage[i].facet == OosChains
  {
    var first := OosWalked(stopped, Some("resource-limit"));
    EnrichedConsistent(s, first);
    PublishedCut(s, first);
    OosWalkRecorded(s, stopped, Some("resource-limit"));
    OnlyWalkCut(s, stopped);
  }

  lemma SecondWalkDrops(s: SessionData, stopped: Oid, other: Oid, d: SessionData)
    requires Uncut(s) && stopped != other
    requires stopped !in s.evidence.oosChains && other !in s.evidence.oosChains
    requires d == Enriched(s, OosWalked(stopped, Some("resource-limit")))
    ensures Enriched(d, OosWalked(other, None)).outcome == Findings
  {
    FirstWalkStops(s, stopped);
    NotWalked(s.evidence.oosChains, d.evidence.oosChains, stopped, other);
    WalkDropsIff(d, other, None);
    OutcomeFloor(d, [OosWalked(other, None)]);
    TwoSteps(d, OosWalked(other, None), OosWalked(other, None));
  }

  lemma NotWalked(m: map<Oid, bool>, m': map<Oid, bool>, stopped: Oid, other: Oid)
    requires OthersKept(m, m', stopped) && stopped != other && other !in m
    ensures other !in m'
  {
    assert other in m' ==> other in m' - {stopped};
  }

  lemma TwoSteps(s: SessionData, first: Enrichment, second: Enrichment)
    ensures After(s, [first]) == Enriched(s, first)
    ensures After(s, [first, second]) == Enriched(Enriched(s, first), second)
  {
    assert [first, second][..1] == [first] && [first][..0] == [];
  }

  lemma OnlyWalkCut(s: SessionData, stopped: Oid)
    requires !CutOutside(s.coverage, {})
    ensures var d := Enriched(s, OosWalked(stopped, Some("resource-limit")));
      Publishes(s, OosWalked(stopped, Some("resource-limit"))) ==>
        forall i :: 0 <= i < |d.coverage| && Cut(d.coverage[i]) ==> d.coverage[i].facet == OosChains
  {
    var d := Enriched(s, OosWalked(stopped, Some("resource-limit")));
    if Publishes(s, OosWalked(stopped, Some("resource-limit"))) {
      var last := d.coverage[|d.coverage| - 1];
      CutReplaced(s.coverage, last, {OosChains});
      assert d.coverage == Without(s.coverage, OosChains) + [last];
      assert !CutOutside(s.coverage, {OosChains} + {OosChains});
    }
  }
}
