// What a session reports of a chain walk, from the pages on disk to the finding: `enrich_bigone`,
// `enrich_oos` and the publications of their walks in `src/inspection.rs`.
module ChainReports {
  import opened Wrappers
  import opened Bits
  import opened Pages
  import opened Session
  import opened SessionRecords
  import Over = OverflowChain
  import OverExits = OverflowExits
  import Oos = OosChain
  import OosExit = OosExits

  const RESOURCE_LIMIT: string := "resource-limit"
  const INTERRUPTED: string := "interrupted"

  // `OverflowTraversalFailure::inspection_rule`.
  function InspectionRule(f: Over.Failure): string
  {
    match f
    case Interrupted => "interrupted"
    case ResourceLimitHit => "resource-limit"
    case PageOwner => "overflow.chain.page_role"
    case PageRoleMismatch => "overflow.chain.page_role"
    case EncryptedPage => "overflow.chain.encrypted"
    case DecryptFailed => "tde.page.decrypt"
    case FormatRule(rule) => rule
  }

  function RuleOf(failure: Option<Over.Failure>): Option<string>
  {
    if failure.None? then None else Some(InspectionRule(failure.value))
  }

  // The walk came to the end of a run of pages where this is the reason to stop.
  ghost predicate StopsFor(c: Over.Chain, f: Over.Failure)
  {
    exists p, total :: OverExits.Reached(c, p, total) && OverExits.Reason(c, p, total, f)
  }

  // The pages themselves give no rule with a budget's name.
  ghost predicate RulesApart(c: Over.Chain)
  {
    !StopsFor(c, Over.FormatRule("resource-limit")) && !StopsFor(c, Over.FormatRule("interrupted"))
  }

  predicate Reports(d: SessionData, n: SessionData, code: string)
  {
    && |n.diagnostics| == |d.diagnostics| + 1 && n.diagnostics[..|d.diagnostics|] == d.diagnostics
    && n.diagnostics[|d.diagnostics|].code == code && n.diagnostics[|d.diagnostics|].severity == Error
  }

  lemma WalkStops(c: Over.Chain, r: Over.Traversal, f: Over.Failure)
    requires Over.IsWalk(c, r)
    ensures r.Walked? && r.failure == Some(f) <==> StopsFor(c, f)
  {
    if r.Walked? && r.failure == Some(f) {
      OverExits.WalkStopsIff(c, r, r.pages, f);
    }
    if p, total :| OverExits.Reached(c, p, total) && OverExits.Reason(c, p, total, f) {
      OverExits.WalkStopsIff(c, r, p, f);
    }
  }

  lemma OverflowRecorded(d: SessionData, source: Oid, rule: Option<string>, n: SessionData)
    requires source !in d.evidence.overflowChains && Attempt(d, OverflowWalked(source, rule)) == Success(n)
    ensures n.evidence.overflowChains == d.evidence.overflowChains[source := rule.None?]
    ensures n.diagnostics == d.diagnostics + WalkFindings("overflow.chain.invalid", rule)
  {
    OverflowWalkPublishes(d, source, rule, Success(n));
  }

  // A published overflow walk is complete exactly if it found no reason to stop.  It reports a budget
  // exactly if the cancel token or a limit stopped it, and a broken chain for every other reason.
  lemma OverflowReported(c: Over.Chain, r: Over.Traversal, d: SessionData, source: Oid, n: SessionData)
    requires Over.IsWalk(c, r) && r.Walked? && source !in d.evidence.overflowChains && RulesApart(c)
    requires Attempt(d, OverflowWalked(source, RuleOf(r.failure))) == Success(n)
    ensures source in n.evidence.overflowChains
    ensures n.evidence.overflowChains[source] <==> forall f :: !StopsFor(c, f)
    ensures n.diagnostics == d.diagnostics <==> forall f :: !StopsFor(c, f)
    ensures Reports(d, n, "inspection.resource_limit") <==>
      StopsFor(c, Over.Interrupted) || StopsFor(c, Over.ResourceLimitHit)
    ensures Reports(d, n, "overflow.chain.invalid") <==>
      exists f :: StopsFor(c, f) && f != Over.Interrupted && f != Over.ResourceLimitHit
  {
    OverflowRecorded(d, source, RuleOf(r.failure), n);
    if r.failure.None? {
      forall f
        ensures !StopsFor(c, f)
      {
        WalkStops(c, r, f);
      }
    } else {
      StoppedReported(c, r, r.failure.value, d, n);
    }
  }

  lemma StoppedReported(c: Over.Chain, r: Over.Traversal, f: Over.Failure, d: SessionData, n: SessionData)
    requires Over.IsWalk(c, r) && r.Walked? && r.failure == Some(f) && RulesApart(c)
    requires n.diagnostics == d.diagnostics + WalkFindings("overflow.chain.invalid", Some(InspectionRule(f)))
    ensures StopsFor(c, f) && n.diagnostics != d.diagnostics
    ensures Reports(d, n, "inspection.resource_limit") <==>
      StopsFor(c, Over.Interrupted) || StopsFor(c, Over.ResourceLimitHit)
    ensures Reports(d, n, "overflow.chain.invalid") <==>
      exists g :: StopsFor(c, g) && g != Over.Interrupted && g != Over.ResourceLimitHit
  {
    forall g
      ensures f == g <==> StopsFor(c, g)
    {
      WalkStops(c, r, g);
    }
    RuleReported(d, n, "overflow.chain.invalid", InspectionRule(f));
  }

  lemma RuleReported(d: SessionData, n: SessionData, invalid: string, rule: string)
    requires n.diagnostics == d.diagnostics + WalkFindings(invalid, Some(rule)) && invalid != "inspection.resource_limit"
    ensures n.diagnostics != d.diagnostics
    ensures Reports(d, n, "inspection.resource_limit") <==> rule == "resource-limit" || rule == "interrupted"
    ensures Reports(d, n, invalid) <==> rule != "resource-limit" && rule != "interrupted"
  {
    assert n.diagnostics[..|d.diagnostics|] == d.diagnostics;
    assert |n.diagnostics| == |d.diagnostics| + 1;
  }

  // The same for an OOS walk, whose rules are the reasons.
  ghost predicate OosStopsFor(c: Oos.Chain, rule: string)
  {
    exists p :: OosExit.Reached(c, p) && OosExit.Reason(c, p, rule)
  }

  lemma OosWalkStops(c: Oos.Chain, r: Oos.Outcome, rule: string)
    requires Oos.IsWalk(c, r)
    ensures r.ChainPublished? && r.failure == Some(rule) <==> OosStopsFor(c, rule)
  {
    if r.ChainPublished? && r.failure == Some(rule) {
      OosExit.WalkStopsIff(c, r, r.chunks, rule);
    }
    if p :| OosExit.Reached(c, p) && OosExit.Reason(c, p, rule) {
      OosExit.WalkStopsIff(c, r, p, rule);
    }
  }

  lemma OosRecorded(d: SessionData, head: Oid, rule: Option<string>, n: SessionData)
    requires head !in d.evidence.oosChains && Attempt(d, OosWalked(head, rule)) == Success(n)
    ensures n.evidence.oosChains == d.evidence.oosChains[head := rule.None?]
    ensures n.diagnostics == d.diagnostics + WalkFindings("oos.chain.invalid", rule)
  {
    OosWalkPublishes(d, head, rule, Success(n));
  }

  lemma OosReported(c: Oos.Chain, r: Oos.Outcome, d: SessionData, head: Oid, n: SessionData)
    requires Oos.IsWalk(c, r) && r.ChainPublished? && head !in d.evidence.oosChains
    requires Attempt(d, OosWalked(head, r.failure)) == Success(n)
    ensures head in n.evidence.oosChains
    ensures n.evidence.oosChains[head] <==> forall rule :: !OosStopsFor(c, rule)
    ensures n.diagnostics == d.diagnostics <==> forall rule :: !OosStopsFor(c, rule)
    ensures Reports(d, n, "inspection.resource_limit") <==>
      OosStopsFor(c, RESOURCE_LIMIT) || OosStopsFor(c, INTERRUPTED)
    ensures Reports(d, n, "oos.chain.invalid") <==>
      exists rule :: OosStopsFor(c, rule) && rule != RESOURCE_LIMIT && rule != INTERRUPTED
  {
    OosRecorded(d, head, r.failure, n);
    if r.failure.None? {
      forall rule
        ensures !OosStopsFor(c, rule)
      {
        OosWalkStops(c, r, rule);
      }
    } else {
      OosStoppedReported(c, r, r.failure.value, d, n);
    }
  }

  lemma OosStoppedReported(c: Oos.Chain, r: Oos.Outcome, rule: string, d: SessionData, n: SessionData)
    requires Oos.IsWalk(c, r) && r.ChainPublished? && r.failure == Some(rule)
    requires n.diagnostics == d.diagnostics + WalkFindings("oos.chain.invalid", Some(rule))
    ensures OosStopsFor(c, rule) && n.diagnostics != d.diagnostics
    ensures Reports(d, n, "inspection.resource_limit") <==>
      OosStopsFor(c, RESOURCE_LIMIT) || OosStopsFor(c, INTERRUPTED)
    ensures Reports(d, n, "oos.chain.invalid") <==>
      exists other :: OosStopsFor(c, other) && other != RESOURCE_LIMIT && other != INTERRUPTED
  {
    forall other
      ensures rule == other <==> OosStopsFor(c, other)
    {
      OosWalkStops(c, r, other);
    }
    assert OosStopsFor(c, rule);
    RuleReported(d, n, "oos.chain.invalid", rule);
  }
}
