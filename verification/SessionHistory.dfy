// What the walks a session has on record say about the enrichments that led to it.
module SessionHistory {
  import opened Wrappers
  import opened Bits
  import opened Pages
  import Ownership
  import opened Session

  datatype WalkKind = OosWalk | OverflowWalk | RelocationWalk

  function Recorded(e: Evidence, kind: WalkKind): map<Oid, bool>
  {
    match kind
    case OosWalk => e.oosChains
    case OverflowWalk => e.overflowChains
    case RelocationWalk => e.relocationEdges
  }

  function Lookup(m: map<Oid, bool>, o: Oid): Option<bool>
  {
    if o in m then Some(m[o]) else None
  }

  // Whether the enrichment is a walk of this kind from this head, and if so whether it succeeds.
  function WalkResult(e: Enrichment, kind: WalkKind, o: Oid): Option<bool>
  {
    match (e, kind)
    case (OosWalked(head, failure), OosWalk) => if head == o then Some(failure.None?) else None
    case (OverflowWalked(head, failure), OverflowWalk) => if head == o then Some(failure.None?) else None
    case (RelocationChecked(head, failure), RelocationWalk) => if head == o then Some(failure.None?) else None
    case _ => None
  }

  function FirstWalk(run: seq<Enrichment>, kind: WalkKind, o: Oid): Option<bool>
  {
    if run == [] then None
    else
      var earlier := FirstWalk(run[..|run| - 1], kind, o);
      if earlier.Some? then earlier else WalkResult(run[|run| - 1], kind, o)
  }

  ghost predicate SameWalks(e: Evidence, r: Evidence)
  {
    r.oosChains == e.oosChains && r.overflowChains == e.overflowChains && r.relocationEdges == e.relocationEdges
  }

  lemma PagesKeepWalks(d: SessionData, vpid: Vpid, fact: DeepPage, rule: string)
    ensures PublishDeepPage(d, vpid, fact).Success? ==>
      SameWalks(d.evidence, PublishDeepPage(d, vpid, fact).value.evidence)
    ensures PageDecodeFailure(d, vpid, rule).Success? ==>
      SameWalks(d.evidence, PageDecodeFailure(d, vpid, rule).value.evidence)
  {
  }

  lemma FileKeepsWalks(d: SessionData, file: Ownership.FileFacts)
    ensures PublishFile(d, file).Success? ==> SameWalks(d.evidence, PublishFile(d, file).value.evidence)
  {
    PagesKeepWalks(d, HeaderPage(file.vfid), DeepPage(false, None), "file.table.owner_unique");
  }

  lemma InventoryKeepsWalks(d: SessionData, files: seq<Ownership.FileFacts>)
    ensures PublishInventory(d, files).Success? ==> SameWalks(d.evidence, PublishInventory(d, files).value.evidence)
  {
  }

  lemma PassesKeepWalks(d: SessionData, pass: Pass)
    ensures PublishInterpretation(d, pass).Success? ==>
      SameWalks(d.evidence, PublishInterpretation(d, pass).value.evidence)
  {
  }

  lemma OthersKeepWalks(d: SessionData, e: Enrichment, r: Result<SessionData, OperationError>)
    requires r == Attempt(d, e)
    ensures !e.OosWalked? && !e.OverflowWalked? && !e.RelocationChecked? && r.Success? ==>
      SameWalks(d.evidence, r.value.evidence)
  {
    match e
    case OosWalked(_, _) =>
    case OverflowWalked(_, _) =>
    case RelocationChecked(_, _) =>
    case PageDecoded(vpid, fact) => PagesKeepWalks(d, vpid, fact, "");
    case PageRefused(vpid, rule) => PagesKeepWalks(d, vpid, DeepPage(false, None), rule);
    case FilePublished(file) => FileKeepsWalks(d, file);
    case InventoryPublished(files) => InventoryKeepsWalks(d, files);
    case SourceChanged =>
    case _ => PassesKeepWalks(d, PassOf(e));
  }

  // One enrichment records a walk exactly if it is the first from its head.
  lemma EnrichedWalks(d: SessionData, e: Enrichment, kind: WalkKind, o: Oid)
    requires d.revision < U64_MAX
    ensures Lookup(Recorded(Enriched(d, e).evidence, kind), o)
         == if o in Recorded(d.evidence, kind) then Lookup(Recorded(d.evidence, kind), o) else WalkResult(e, kind, o)
  {
    match e
    case OosWalked(head, failure) =>
      OosWalkRecorded(d, head, failure);
      KeptElsewhere(d.evidence.oosChains, PublishOosChain(d, head, failure).value.evidence.oosChains, head, o);
    case OverflowWalked(head, failure) =>
      OverflowWalkRecorded(d, head, failure);
      KeptElsewhere(d.evidence.overflowChains, PublishOverflowChain(d, head, failure).value.evidence.overflowChains,
                    head, o);
    case RelocationChecked(head, failure) =>
      RelocationRecorded(d, head, failure);
      KeptElsewhere(d.evidence.relocationEdges, PublishRelocationEdge(d, head, failure).value.evidence.relocationEdges,
                    head, o);
    case _ => OthersKeepWalks(d, e, Attempt(d, e));
  }

  lemma KeptElsewhere(m: map<Oid, bool>, m': map<Oid, bool>, head: Oid, o: Oid)
    requires OthersKept(m, m', head)
    ensures o != head ==> Lookup(m', o) == Lookup(m, o)
  {
    assert o != head ==> (o in m <==> o in m - {head}) && (o in m' <==> o in m' - {head});
  }

  lemma {:induction false} RevisionsCounted(d: SessionData, run: seq<Enrichment>)
    ensures After(d, run).revision <= d.revision + |run|
  {
    if run != [] {
      RevisionsCounted(d, run[..|run| - 1]);
      EnrichedKeeps(After(d, run[..|run| - 1]), run[|run| - 1]);
    }
  }

  // Over every run a head has a walk on record if and only if it had one before or was walked,
  // and what is on record is the result of the first walk: repeating it changes nothing.
  lemma {:induction false} FirstWalkDecides(d: SessionData, run: seq<Enrichment>, kind: WalkKind, o: Oid)
    requires d.revision + |run| <= U64_MAX
    ensures Lookup(Recorded(After(d, run).evidence, kind), o)
         == if o in Recorded(d.evidence, kind) then Lookup(Recorded(d.evidence, kind), o)
            else FirstWalk(run, kind, o)
  {
    if run != [] {
      var before := After(d, run[..|run| - 1]);
      FirstWalkDecides(d, run[..|run| - 1], kind, o);
      RevisionsCounted(d, run[..|run| - 1]);
      EnrichedWalks(before, run[|run| - 1], kind, o);
    }
  }

  // A walk on record as incomplete has its error among the findings.
  ghost predicate FailuresReported(d: SessionData)
  {
    forall kind, o :: o in Recorded(d.evidence, kind) && !Recorded(d.evidence, kind)[o] ==> HasError(d)
  }

  lemma WalkReports(d: SessionData, e: Enrichment, kind: WalkKind, o: Oid)
    requires WalkResult(e, kind, o) == Some(false) && o !in Recorded(d.evidence, kind) && d.revision < U64_MAX
    ensures HasError(Enriched(d, e))
  {
    match e
    case OosWalked(head, failure) => OosWalkRecorded(d, head, failure);
    case OverflowWalked(head, failure) => OverflowWalkRecorded(d, head, failure);
    case RelocationChecked(head, failure) => RelocationRecorded(d, head, failure);
  }

  lemma EnrichedReports(d: SessionData, e: Enrichment)
    requires FailuresReported(d)
    ensures FailuresReported(Enriched(d, e))
  {
    EnrichedKeeps(d, e);
    if HasError(d) {
      ErrorsKept(d, Enriched(d, e));
    } else if d.revision < U64_MAX {
      forall kind, o | o in Recorded(Enriched(d, e).evidence, kind) && !Recorded(Enriched(d, e).evidence, kind)[o]
        ensures HasError(Enriched(d, e))
      {
        EnrichedWalks(d, e, kind, o);
        WalkReports(d, e, kind, o);
      }
    } else {
      NothingAtLastRevision(d, e);
    }
  }

  lemma NothingAtLastRevision(d: SessionData, e: Enrichment)
    requires d.revision == U64_MAX
    ensures Enriched(d, e) == d
  {
    EnrichedKeeps(d, e);
  }

  // In every revision of every session each chain or edge on record as incomplete is behind an
  // error finding, so such a session's outcome is at least Findings.
  lemma {:induction false} IncompleteWalksReported(d: SessionData, run: seq<Enrichment>, kind: WalkKind, o: Oid)
    requires Consistent(d) && FailuresReported(d)
    requires Lookup(Recorded(After(d, run).evidence, kind), o) == Some(false)
    ensures HasError(After(d, run)) && Rank(After(d, run).outcome) >= Rank(Findings)
  {
    RunReports(d, run);
    EveryRevisionConsistent(d, run);
  }

  lemma {:induction false} RunReports(d: SessionData, run: seq<Enrichment>)
    requires FailuresReported(d)
    ensures FailuresReported(After(d, run))
  {
    if run != [] {
      RunReports(d, run[..|run| - 1]);
      EnrichedReports(After(d, run[..|run| - 1]), run[|run| - 1]);
    }
  }
}
