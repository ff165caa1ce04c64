// What the fast scan reports: the findings of a complete scan, and the reason of a stopped one.
module ScanFindings {
  import opened Wrappers
  import opened Bits
  import opened Pages
  import opened PackedFact
  import opened Eligible
  import opened ScanModel

  // ---- The findings of a scan nothing stopped ----

  // What one page's result is reported as, whatever the budgets.
  function PageFindings(v: Volume, result: EnvelopeResult): seq<Diagnostic>
  {
    match result
    case UnreadableResult(_) => []
    case FactResult(fact, diagnostic, hint) =>
      (if diagnostic.None? then []
       else [Diagnostic(CodeName(fact.code), "error", PageSubject(v, fact.page), diagnostic.value)])
      + (if !hint then []
         else [Diagnostic("input.format_profile_alternative", "warning", PageSubject(v, fact.page),
                          "input.format_profile.alternative_evidence")])
  }

  function PagesFindings(c: Config, k: nat, pages: seq<PageNumber>): seq<Diagnostic>
    requires k < |c.volumes|
  {
    if pages == [] then []
    else PagesFindings(c, k, pages[..|pages| - 1])
         + PageFindings(c.volumes[k], ScanResult(c, k, pages[|pages| - 1]))
  }

  function VolumesFindings(c: Config, n: nat): seq<Diagnostic>
    requires n <= |c.volumes|
  {
    if n == 0 then [] else VolumesFindings(c, n - 1) + PagesFindings(c, n - 1, PageNumbers(c.volumes[n - 1]))
  }

  lemma {:induction false} RetainedSumJoins(a: seq<Diagnostic>, b: seq<Diagnostic>)
    ensures RetainedSum(a + b) == RetainedSum(a) + RetainedSum(b)
  {
    if b == [] {
      assert a + b == a;
    } else {
      assert (a + b)[..|a + b| - 1] == a + b[..|b| - 1];
      RetainedSumJoins(a, b[..|b| - 1]);
    }
  }

  // The state has reported exactly these findings since s and accounts for them in memory.
  ghost predicate ReportedSince(s: State, r: State, findings: seq<Diagnostic>)
  {
    r.diagnostics == s.diagnostics + findings && r.resident == s.resident + RetainedSum(findings)
  }

  lemma SinceComposes(s: State, t: State, r: State, a: seq<Diagnostic>, b: seq<Diagnostic>)
    requires ReportedSince(s, t, a) && ReportedSince(t, r, b)
    ensures ReportedSince(s, r, a + b)
  {
    RetainedSumJoins(a, b);
    assert s.diagnostics + a + b == s.diagnostics + (a + b);
  }

  lemma FindingReported(c: Config, s: State, v: Volume, page: PageNumber, d: Diagnostic)
    requires WithFinding(c, s, v, page, d).stop.None?
    ensures ReportedSince(s, WithFinding(c, s, v, page, d), [d])
  {
    assert [d][..0] == [];
    assert RetainedSum([d]) == RetainedBytes(d);
  }

  lemma NothingReported(s: State)
    ensures ReportedSince(s, s, [])
  {
    assert s.diagnostics + [] == s.diagnostics;
  }

  lemma DiagnosticsReported(c: Config, s: State, v: Volume, result: EnvelopeResult)
    requires result.FactResult? && s.stop.None? && WithDiagnostics(c, s, v, result).stop.None?
    ensures ReportedSince(s, WithDiagnostics(c, s, v, result), PageFindings(v, result))
  {
    var page := result.fact.page;
    var error := Diagnostic(CodeName(result.fact.code), "error", PageSubject(v, page),
                            if result.diagnostic.Some? then result.diagnostic.value else "");
    var hint := Diagnostic("input.format_profile_alternative", "warning", PageSubject(v, page),
                           "input.format_profile.alternative_evidence");
    NothingReported(s);
    if result.diagnostic.Some? {
      FindingReported(c, s, v, page, error);
      if result.hint {
        FindingReported(c, WithFinding(c, s, v, page, error), v, page, hint);
        SinceComposes(s, WithFinding(c, s, v, page, error), WithDiagnostics(c, s, v, result), [error], [hint]);
      }
    } else if result.hint {
      FindingReported(c, s, v, page, hint);
    }
  }

  lemma PageReported(c: Config, s: State, k: nat, page: PageNumber)
    requires k < |c.volumes| == |s.stored| && SeqPage(c, s, k, page).stop.None?
    ensures ReportedSince(s, SeqPage(c, s, k, page), PageFindings(c.volumes[k], ScanResult(c, k, page)))
  {
    DiagnosticsReported(c, s, c.volumes[k], ScanResult(c, k, page));
  }

  lemma {:induction false} PagesReported(c: Config, s: State, k: nat, pages: seq<PageNumber>)
    requires k < |c.volumes| == |s.stored| && SeqPages(c, s, k, pages).stop.None?
    ensures s.stop.None? && ReportedSince(s, SeqPages(c, s, k, pages), PagesFindings(c, k, pages))
  {
    if pages == [] {
      NothingReported(s);
    } else {
      var q, page := pages[..|pages| - 1], pages[|pages| - 1];
      var t := SeqPages(c, s, k, q);
      PagesReported(c, s, k, q);
      PageReported(c, t, k, page);
      SinceComposes(s, t, SeqPages(c, s, k, pages), PagesFindings(c, k, q),
                    PageFindings(c.volumes[k], ScanResult(c, k, page)));
    }
  }

  lemma VolumeReported(c: Config, k: nat, s: State, t: State, findings: seq<Diagnostic>)
    requires k < |c.volumes| == |t.stored| && ReportedSince(s, t, findings)
    requires SeqVolume(c, t, k).stop.None?
    ensures ReportedSince(s, SeqVolume(c, t, k), findings + PagesFindings(c, k, PageNumbers(c.volumes[k])))
  {
    var pages := PageNumbers(c.volumes[k]);
    PagesReported(c, t, k, pages);
    SinceComposes(s, t, SeqPages(c, t, k, pages), findings, PagesFindings(c, k, pages));
  }

  lemma {:induction false} VolumesReported(c: Config, n: nat)
    requires n <= |c.volumes| && SeqVolumes(c, n).stop.None?
    ensures ReportedSince(Initial(c), SeqVolumes(c, n), VolumesFindings(c, n))
  {
    if n == 0 {
      NothingReported(Initial(c));
    } else {
      var before := SeqVolumes(c, n - 1);
      if before.stop.Some? {
        StoppedVolume(c, before, n - 1);
      }
      VolumesReported(c, n - 1);
      VolumeReported(c, n - 1, Initial(c), before, VolumesFindings(c, n - 1));
    }
  }

  // A scan nothing stopped reports, after the earlier diagnostics, exactly the findings of all
  // its pages in volume and page order, and the resident bytes account for each of them.
  lemma UnstoppedScanReportsAll(c: Config)
    requires SequentialScan(c).stop.None?
    ensures SequentialScan(c).diagnostics == c.prior + VolumesFindings(c, |c.volumes|)
    ensures SequentialScan(c).resident == InitialResident(c) + RetainedSum(VolumesFindings(c, |c.volumes|))
  {
    VolumesReported(c, |c.volumes|);
  }

  // ---- The reason of a stopped scan ----

  // The last diagnostic says why the scan stopped, and a budget is named only when used up.
  ghost predicate StopExplained(c: Config, s: State)
  {
    s.stop.Some? ==>
      && s.diagnostics != []
      && var last := s.diagnostics[|s.diagnostics| - 1];
         if s.stop == Some("unreadable") then last.code == "input.volume_unreadable"
         else
           && s.stop == Some("resource-limit") && last.code == "inspection.resource_limit"
           && (last.rule == "inspection.resource_policy.resident" ==> OverBase(c))
           && (last.rule == "inspection.resource_policy.spill" ==>
                 Spilled(c) && s.spillUsed + RECORD_SIZE > c.policy.spillLimit)
  }

  lemma DiagnosticsExplained(c: Config, s: State, v: Volume, result: EnvelopeResult)
    requires result.FactResult? && s.stop.None?
    ensures StopExplained(c, WithDiagnostics(c, s, v, result))
  {
  }

  lemma PageExplained(c: Config, s: State, k: nat, page: PageNumber)
    requires k < |c.volumes| == |s.stored| && StopExplained(c, s)
    ensures StopExplained(c, SeqPage(c, s, k, page))
  {
    if s.stop.None? && ScanResult(c, k, page).FactResult? {
      DiagnosticsExplained(c, s, c.volumes[k], ScanResult(c, k, page));
    }
  }

  lemma {:induction false} PagesExplained(c: Config, s: State, k: nat, pages: seq<PageNumber>)
    requires k < |c.volumes| == |s.stored| && StopExplained(c, s)
    ensures StopExplained(c, SeqPages(c, s, k, pages))
  {
    if pages != [] {
      var q := pages[..|pages| - 1];
      PagesExplained(c, s, k, q);
      PageExplained(c, SeqPages(c, s, k, q), k, pages[|pages| - 1]);
    }
  }

  lemma VolumeExplained(c: Config, s: State, k: nat)
    requires k < |c.volumes| == |s.stored| && StopExplained(c, s)
    ensures StopExplained(c, SeqVolume(c, s, k))
  {
    PagesExplained(c, s, k, PageNumbers(c.volumes[k]));
  }

  // A stopped scan ends in the diagnostic that explains the stop; the spill rule is given only
  // when no further record fits the spill limit, the resident rule only when the base does not.
  lemma {:induction false} StopIsExplained(c: Config, n: nat)
    requires n <= |c.volumes|
    ensures StopExplained(c, SeqVolumes(c, n))
  {
    if n > 0 {
      StopIsExplained(c, n - 1);
      var s := SeqVolumes(c, n - 1);
      assert SeqVolumes(c, n) == SeqVolume(c, s, n - 1);
      VolumeExplained(c, s, n - 1);
    }
  }
}
