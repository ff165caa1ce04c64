// The fast scan as a sequential reference: one eligible page at a time, in volume and page
// order.  The wave-parallel scan of `open_profiled_with_mode` in `src/inspection.rs` is
// proved equal to it in module Scan.
module ScanModel {
  import opened Wrappers
  import opened Bits
  import opened Pages
  import opened PackedFact
  import opened Eligible
  import Decimal

  const WORKER_PAGE_BATCH: nat := 16
  const TERMINAL_DIAGNOSTIC_RESERVE: nat := 512
  const DIAGNOSTIC_RECORD_BYTES: nat := 88

  datatype Diagnostic = Diagnostic(code: string, severity: string, subject: string, rule: string)

  // One scan together with everything it reads.  `read(k, p)` is what page p of the k-th
  // volume yields; `prior` are the diagnostics raised before the scan.
  datatype Config = Config(
    volumes: seq<Volume>,
    read: (nat, PageNumber) -> EnvelopeRead,
    hasTdeKey: bool,
    policy: ResourcePolicy,
    availableWorkers: nat,
    volumeRecordBytes: nat,
    prior: seq<Diagnostic>)

  datatype State = State(
    stored: seq<seq<PageFact>>,
    diagnostics: seq<Diagnostic>,
    evaluated: nat,
    conclusive: nat,
    inspected: nat,
    spillUsed: nat,
    resident: nat,
    stop: Option<string>)

  // ---- Budgets fixed before the scan ----

  // `retained_diagnostic_bytes`.
  function RetainedBytes(d: Diagnostic): nat
  {
    2 * DIAGNOSTIC_RECORD_BYTES + |d.subject| + 32
  }

  function RetainedSum(ds: seq<Diagnostic>): nat
  {
    if ds == [] then 0 else RetainedSum(ds[..|ds| - 1]) + RetainedBytes(ds[|ds| - 1])
  }

  // `estimate_base_bytes`.
  function BaseBytes(volumes: seq<Volume>, recordBytes: nat): nat
  {
    if volumes == [] then 0
    else BaseBytes(volumes[..|volumes| - 1], recordBytes) + |volumes[|volumes| - 1].masks| * 8 + recordBytes
  }

  function EligibleTotal(volumes: seq<Volume>): nat
  {
    if volumes == [] then 0
    else EligibleTotal(volumes[..|volumes| - 1]) + |EligiblePages(volumes[|volumes| - 1])|
  }

  function AdmittedBase(c: Config): nat
  {
    BaseBytes(c.volumes, c.volumeRecordBytes) + RetainedSum(c.prior) + TERMINAL_DIAGNOSTIC_RESERVE
  }

  function FactBytes(c: Config): nat
  {
    EligibleTotal(c.volumes) * RECORD_SIZE
  }

  predicate OverBase(c: Config)
  {
    AdmittedBase(c) > c.policy.memoryLimit
  }

  predicate Spilled(c: Config)
  {
    AdmittedBase(c) + FactBytes(c) > c.policy.memoryLimit && !OverBase(c)
  }

  function InitialResident(c: Config): nat
  {
    AdmittedBase(c) + if Spilled(c) then 0 else FactBytes(c)
  }

  // `wave_capacity`.
  function WaveCapacity(c: Config): (n: nat)
    ensures n >= WORKER_PAGE_BATCH
  {
    var workers := if c.policy.workers < c.availableWorkers then c.policy.workers else c.availableWorkers;
    WORKER_PAGE_BATCH * if workers < 1 then 1 else workers
  }

  // ---- One page ----

  function SpillSlots(c: Config, spillUsed: nat): nat
  {
    if c.policy.spillLimit > spillUsed then (c.policy.spillLimit - spillUsed) / RECORD_SIZE else 0
  }

  // The budget rule that refuses the next page, if one does.
  function Gate(c: Config, spillUsed: nat): Option<string>
  {
    if OverBase(c) then Some("inspection.resource_policy.resident")
    else if Spilled(c) && SpillSlots(c, spillUsed) == 0 then Some("inspection.resource_policy.spill")
    else None
  }

  function PageSubject(v: Volume, page: PageNumber): string
  {
    "page:" + Decimal.Print(v.id) + ":" + Decimal.Print(page)
  }

  function LimitDiagnostic(v: Volume, page: PageNumber, rule: string): Diagnostic
  {
    Diagnostic("inspection.resource_limit", "error", PageSubject(v, page), rule)
  }

  function CodeName(code: Option<Code>): string
  {
    match code
    case None => ""
    case Some(IdentityMismatch) => "page.envelope.identity_mismatch"
    case Some(LsaMismatch) => "page.envelope.lsa_mismatch"
    case Some(TypeUnknown) => "page.envelope.type_unknown"
    case Some(TdeFlagsInvalid) => "page.envelope.tde_flags_invalid"
    case Some(EnvelopeInvalid) => "page.envelope.invalid"
    case Some(TdeDecryptedInvalid) => "tde.decrypted_invalid"
    case Some(OtherCode(name)) => name
  }

  function Halted(s: State, d: Diagnostic, reason: string): State
  {
    s.(diagnostics := s.diagnostics + [d], stop := Some(reason))
  }

  predicate Admits(c: Config, s: State, d: Diagnostic)
  {
    s.resident + RetainedBytes(d) <= c.policy.memoryLimit
  }

  // A finding that fits is kept; one that does not stops the scan at its page.
  function WithFinding(c: Config, s: State, v: Volume, page: PageNumber, d: Diagnostic): State
  {
    if Admits(c, s, d) then
      s.(diagnostics := s.diagnostics + [d], resident := s.resident + RetainedBytes(d))
    else
      Halted(s, LimitDiagnostic(v, page, "inspection.resource_policy.diagnostics"), "resource-limit")
  }

  function StoreFact(c: Config, s: State, k: nat, fact: PageFact): State
    requires k < |s.stored|
  {
    s.(stored := s.stored[k := s.stored[k] + [fact]],
       evaluated := s.evaluated + 1,
       conclusive := s.conclusive + 1,
       inspected := s.inspected + 1,
       spillUsed := s.spillUsed + if Spilled(c) then RECORD_SIZE else 0)
  }

  function WithDiagnostics(c: Config, s: State, v: Volume, result: EnvelopeResult): State
    requires result.FactResult?
  {
    var page := result.fact.page;
    var first :=
      if result.diagnostic.None? then s
      else WithFinding(c, s, v, page,
                       Diagnostic(CodeName(result.fact.code), "error", PageSubject(v, page), result.diagnostic.value));
    if first.stop.Some? || !result.hint then first
    else WithFinding(c, first, v, page,
                     Diagnostic("input.format_profile_alternative", "warning", PageSubject(v, page),
                                "input.format_profile.alternative_evidence"))
  }

  function WithUnreadable(c: Config, s: State, v: Volume, page: PageNumber): State
  {
    var finding := Diagnostic("input.volume_unreadable", "error", "volume:" + Decimal.Print(v.id),
                              "source.positional_read.complete");
    if Admits(c, s, finding) then
      s.(diagnostics := s.diagnostics + [finding],
         resident := s.resident + RetainedBytes(finding),
         evaluated := s.evaluated + 1,
         stop := Some("unreadable"))
    else Halted(s, LimitDiagnostic(v, page, "inspection.resource_policy.diagnostics"), "resource-limit")
  }

  // What one scan result of volume k does to the state.
  function AdmitResult(c: Config, s: State, k: nat, result: EnvelopeResult): State
    requires k < |c.volumes| == |s.stored|
  {
    var v := c.volumes[k];
    match result
    case UnreadableResult(page) => WithUnreadable(c, s, v, page)
    case FactResult(fact, _, _) =>
      var s' := WithDiagnostics(c, s, v, result);
      if s'.stop.Some? then s' else StoreFact(c, s', k, fact)
  }

  function ScanResult(c: Config, k: nat, page: PageNumber): EnvelopeResult
  {
    ScanEnvelope(page, c.read(k, page), c.hasTdeKey)
  }

  // ---- The sequential scan ----

  function SeqPage(c: Config, s: State, k: nat, page: PageNumber): (r: State)
    requires k < |c.volumes| == |s.stored|
    ensures |r.stored| == |s.stored|
  {
    if s.stop.Some? then s
    else match Gate(c, s.spillUsed)
      case Some(rule) => Halted(s, LimitDiagnostic(c.volumes[k], page, rule), "resource-limit")
      case None => AdmitResult(c, s, k, ScanResult(c, k, page))
  }

  function SeqPages(c: Config, s: State, k: nat, pages: seq<PageNumber>): (r: State)
    requires k < |c.volumes| == |s.stored|
    ensures |r.stored| == |s.stored|
  {
    if pages == [] then s
    else SeqPage(c, SeqPages(c, s, k, pages[..|pages| - 1]), k, pages[|pages| - 1])
  }

  // The pages before the first one whose number is no i32.
  function Fitting(pages: seq<nat>): (fit: seq<PageNumber>)
    ensures |fit| <= |pages| && forall i :: 0 <= i < |fit| ==> fit[i] == pages[i]
    ensures |fit| < |pages| ==> pages[|fit|] > I32_MAX
  {
    if pages == [] || pages[0] > I32_MAX then [] else [pages[0]] + Fitting(pages[1..])
  }

  // The eligible pages of a volume that the cursor can yield.
  function PageNumbers(v: Volume): seq<PageNumber>
  {
    Fitting(EligiblePages(v))
  }

  // The cursor can yield every eligible page.
  predicate Whole(v: Volume)
  {
    |PageNumbers(v)| == |EligiblePages(v)|
  }

  function Initial(c: Config): (s: State)
    ensures |s.stored| == |c.volumes|
  {
    State(seq(|c.volumes|, i => []), c.prior, 0, 0, 0, 0, InitialResident(c), None)
  }

  // Scanning all pages of volume k.
  function SeqVolume(c: Config, s: State, k: nat): (r: State)
    requires k < |c.volumes| == |s.stored|
    ensures |r.stored| == |s.stored|
  {
    SeqPages(c, s, k, PageNumbers(c.volumes[k]))
  }

  // The state after the first n volumes.
  function SeqVolumes(c: Config, n: nat): (r: State)
    requires n <= |c.volumes|
    ensures |r.stored| == |c.volumes|
  {
    if n == 0 then Initial(c)
    else SeqVolume(c, SeqVolumes(c, n - 1), n - 1)
  }

  function SequentialScan(c: Config): State
  {
    SeqVolumes(c, |c.volumes|)
  }

  // ---- Stopping is final ----

  lemma {:induction false} StopIsFinal(c: Config, s: State, k: nat, pages: seq<PageNumber>, n: nat)
    requires k < |c.volumes| == |s.stored| && n <= |pages|
    requires SeqPages(c, s, k, pages[..n]).stop.Some?
    ensures SeqPages(c, s, k, pages) == SeqPages(c, s, k, pages[..n])
    decreases |pages|
  {
    if n < |pages| {
      var q := pages[..|pages| - 1];
      assert q[..n] == pages[..n];
      StopIsFinal(c, s, k, q, n);
    } else {
      assert pages[..n] == pages;
    }
  }

  lemma {:induction false} StoppedPages(c: Config, s: State, k: nat, pages: seq<PageNumber>)
    requires k < |c.volumes| == |s.stored| && s.stop.Some?
    ensures SeqPages(c, s, k, pages) == s
  {
    if pages != [] {
      StoppedPages(c, s, k, pages[..|pages| - 1]);
    }
  }

  lemma StoppedVolume(c: Config, s: State, k: nat)
    requires k < |c.volumes| == |s.stored| && s.stop.Some?
    ensures SeqVolume(c, s, k) == s
  {
    StoppedPages(c, s, k, PageNumbers(c.volumes[k]));
  }

  lemma {:induction false} StoppedVolumes(c: Config, n: nat, m: nat)
    requires n <= m <= |c.volumes| && SeqVolumes(c, n).stop.Some?
    ensures SeqVolumes(c, m) == SeqVolumes(c, n)
  {
    if n < m {
      StoppedVolumes(c, n, m - 1);
      var s := SeqVolumes(c, m - 1);
      assert SeqVolumes(c, m) == SeqVolume(c, s, m - 1);
      StoppedVolume(c, s, m - 1);
    }
  }

  // ---- Accounting ----

  function StoredCount(stored: seq<seq<PageFact>>): nat
  {
    if stored == [] then 0 else StoredCount(stored[..|stored| - 1]) + |stored[|stored| - 1]|
  }

  lemma {:induction false} StoringCounts(stored: seq<seq<PageFact>>, k: nat, fact: PageFact)
    requires k < |stored|
    ensures StoredCount(stored[k := stored[k] + [fact]]) == StoredCount(stored) + 1
  {
    var n := |stored| - 1;
    var after := stored[k := stored[k] + [fact]];
    if k < n {
      assert after[..n] == stored[..n][k := stored[..n][k] + [fact]];
      StoringCounts(stored[..n], k, fact);
    } else {
      assert after[..n] == stored[..n];
    }
  }

  // What every state of the scan keeps.
  ghost predicate Accounted(c: Config, s: State)
  {
    && |s.stored| == |c.volumes|
    && s.conclusive == s.inspected == StoredCount(s.stored)
    && s.evaluated == s.conclusive + (if s.stop == Some("unreadable") then 1 else 0)
    && s.stop in {None, Some("resource-limit"), Some("unreadable")}
    && s.spillUsed == (if Spilled(c) then s.conclusive * RECORD_SIZE else 0)
    && s.spillUsed <= c.policy.spillLimit
    && (if OverBase(c) then s.conclusive == 0 else s.resident <= c.policy.memoryLimit)
  }

  lemma {:induction false} NothingStored(n: nat)
    ensures StoredCount(seq(n, i => [])) == 0
  {
    if n > 0 {
      var s: seq<seq<PageFact>> := seq(n, i => []);
      assert s[..n - 1] == seq(n - 1, i => []);
      NothingStored(n - 1);
    }
  }

  lemma FindingKeepsAccounts(c: Config, s: State, v: Volume, page: PageNumber, d: Diagnostic)
    requires Accounted(c, s) && s.stop.None?
    ensures Accounted(c, WithFinding(c, s, v, page, d))
    ensures WithFinding(c, s, v, page, d).stop != Some("unreadable")
    ensures WithFinding(c, s, v, page, d).spillUsed == s.spillUsed
  {
  }

  lemma PageKeepsAccounts(c: Config, s: State, k: nat, page: PageNumber)
    requires Accounted(c, s) && k < |c.volumes|
    ensures Accounted(c, SeqPage(c, s, k, page))
  {
    if s.stop.None? && Gate(c, s.spillUsed).None? {
      var result := ScanResult(c, k, page);
      if result.FactResult? {
        DiagnosticsKeepAccounts(c, s, c.volumes[k], result);
        var s' := WithDiagnostics(c, s, c.volumes[k], result);
        if s'.stop.None? {
          StoringCounts(s'.stored, k, result.fact);
        }
      }
    }
  }

  lemma DiagnosticsKeepAccounts(c: Config, s: State, v: Volume, result: EnvelopeResult)
    requires Accounted(c, s) && s.stop.None? && result.FactResult?
    ensures var s' := WithDiagnostics(c, s, v, result);
      Accounted(c, s') && s'.spillUsed == s.spillUsed && s'.stop != Some("unreadable") && s'.stored == s.stored
  {
    var page := result.fact.page;
    if result.diagnostic.Some? {
      var d := Diagnostic(CodeName(result.fact.code), "error", PageSubject(v, page), result.diagnostic.value);
      FindingKeepsAccounts(c, s, v, page, d);
      if result.hint && WithFinding(c, s, v, page, d).stop.None? {
        FindingKeepsAccounts(c, WithFinding(c, s, v, page, d), v, page,
                             Diagnostic("input.format_profile_alternative", "warning", PageSubject(v, page),
                                        "input.format_profile.alternative_evidence"));
      }
    } else if result.hint {
      FindingKeepsAccounts(c, s, v, page,
                           Diagnostic("input.format_profile_alternative", "warning", PageSubject(v, page),
                                      "input.format_profile.alternative_evidence"));
    }
  }

  lemma {:induction false} PagesKeepAccounts(c: Config, s: State, k: nat, pages: seq<PageNumber>)
    requires Accounted(c, s) && k < |c.volumes|
    ensures Accounted(c, SeqPages(c, s, k, pages))
  {
    if pages != [] {
      PagesKeepAccounts(c, s, k, pages[..|pages| - 1]);
      PageKeepsAccounts(c, SeqPages(c, s, k, pages[..|pages| - 1]), k, pages[|pages| - 1]);
    }
  }

  lemma VolumeKeepsAccounts(c: Config, s: State, k: nat)
    requires Accounted(c, s) && k < |c.volumes|
    ensures Accounted(c, SeqVolume(c, s, k))
  {
    PagesKeepAccounts(c, s, k, PageNumbers(c.volumes[k]));
  }

  // Spill bytes never exceed the spill limit; either nothing is stored or the resident bytes
  // stay within the memory limit; conclusive counts the stored facts, and the evaluated
  // count runs ahead of it by one exactly on an unreadable stop.
  lemma {:induction false} ScanIsAccounted(c: Config, n: nat)
    requires n <= |c.volumes|
    ensures Accounted(c, SeqVolumes(c, n))
  {
    if n == 0 {
      NothingStored(|c.volumes|);
    } else {
      ScanIsAccounted(c, n - 1);
      VolumeKeepsAccounts(c, SeqVolumes(c, n - 1), n - 1);
    }
  }

  // ---- What is stored ----

  // The facts of a volume's first eligible pages, in page order.
  ghost predicate FactsOfPrefix(c: Config, k: nat, facts: seq<PageFact>, pages: seq<PageNumber>)
  {
    && |facts| <= |pages|
    && forall i :: 0 <= i < |facts| ==>
         ScanResult(c, k, pages[i]).FactResult? && facts[i] == ScanResult(c, k, pages[i]).fact
  }

  lemma AdmitStores(c: Config, s: State, k: nat, result: EnvelopeResult)
    requires k < |c.volumes| == |s.stored| && s.stop.None?
    ensures var r := AdmitResult(c, s, k, result);
      && (r.stop.None? ==> result.FactResult? && r.stored == s.stored[k := s.stored[k] + [result.fact]])
      && (r.stop.Some? ==> r.stored == s.stored)
  {
    if result.FactResult? {
      DiagnosticsStoreNothing(c, s, c.volumes[k], result);
    }
  }

  lemma DiagnosticsStoreNothing(c: Config, s: State, v: Volume, result: EnvelopeResult)
    requires result.FactResult?
    ensures WithDiagnostics(c, s, v, result).stored == s.stored
    ensures WithDiagnostics(c, s, v, result).spillUsed == s.spillUsed
  {
  }

  lemma PageStores(c: Config, s: State, k: nat, page: PageNumber)
    requires k < |c.volumes| == |s.stored|
    ensures var r := SeqPage(c, s, k, page);
      && (r.stop.None? ==>
            && s.stop.None? && ScanResult(c, k, page).FactResult?
            && r.stored == s.stored[k := s.stored[k] + [ScanResult(c, k, page).fact]])
      && (r.stop.Some? ==> r.stored == s.stored)
  {
    if s.stop.None? && Gate(c, s.spillUsed).None? {
      AdmitStores(c, s, k, ScanResult(c, k, page));
    }
  }

  lemma PrefixGrows(c: Config, k: nat, facts: seq<PageFact>, pages: seq<PageNumber>, page: PageNumber)
    requires FactsOfPrefix(c, k, facts, pages)
    ensures FactsOfPrefix(c, k, facts, pages + [page])
    ensures |facts| == |pages| && ScanResult(c, k, page).FactResult? ==>
      FactsOfPrefix(c, k, facts + [ScanResult(c, k, page).fact], pages + [page])
  {
  }

  lemma {:induction false} PagesStore(c: Config, s: State, k: nat, pages: seq<PageNumber>)
    requires k < |c.volumes| == |s.stored| && s.stored[k] == []
    ensures var r := SeqPages(c, s, k, pages);
      && r.stored == s.stored[k := r.stored[k]]
      && FactsOfPrefix(c, k, r.stored[k], pages)
      && (r.stop.None? ==> s.stop.None? && |r.stored[k]| == |pages|)
  {
    if pages != [] {
      var q, page := pages[..|pages| - 1], pages[|pages| - 1];
      PagesStore(c, s, k, q);
      var before := SeqPages(c, s, k, q);
      PageStores(c, before, k, page);
      assert q + [page] == pages;
      PrefixGrows(c, k, before.stored[k], q, page);
    }
  }

  // Each of the first n volumes holds exactly the facts of an initial run of its eligible
  // pages, all of them when nothing stopped the scan; the other volumes hold none.
  ghost predicate PrefixesStored(c: Config, n: nat, s: State)
    requires n <= |c.volumes| == |s.stored|
  {
    && (forall k :: 0 <= k < n ==> FactsOfPrefix(c, k, s.stored[k], PageNumbers(c.volumes[k])))
    && (forall k :: n <= k < |c.volumes| ==> s.stored[k] == [])
    && (s.stop.None? ==> forall k :: 0 <= k < n ==> |s.stored[k]| == |PageNumbers(c.volumes[k])|)
  }

  lemma PrefixesGrow(c: Config, n: nat, s: State, r: State)
    requires n < |c.volumes| == |s.stored| == |r.stored| && PrefixesStored(c, n, s)
    requires r.stored == s.stored[n := r.stored[n]]
    requires FactsOfPrefix(c, n, r.stored[n], PageNumbers(c.volumes[n]))
    requires r.stop.None? ==> s.stop.None? && |r.stored[n]| == |PageNumbers(c.volumes[n])|
    ensures PrefixesStored(c, n + 1, r)
  {
  }

  lemma PrefixStep(c: Config, n: nat, s: State)
    requires 0 < n <= |c.volumes| == |s.stored| && PrefixesStored(c, n - 1, s)
    ensures PrefixesStored(c, n, SeqVolume(c, s, n - 1))
  {
    PagesStore(c, s, n - 1, PageNumbers(c.volumes[n - 1]));
    PrefixesGrow(c, n - 1, s, SeqPages(c, s, n - 1, PageNumbers(c.volumes[n - 1])));
  }

  lemma NothingStoredYet(c: Config)
    ensures PrefixesStored(c, 0, Initial(c))
  {
  }

  lemma {:induction false} VolumesStorePrefixes(c: Config, n: nat)
    requires n <= |c.volumes|
    ensures PrefixesStored(c, n, SeqVolumes(c, n))
  {
    if n == 0 {
      NothingStoredYet(c);
    } else {
      VolumesStorePrefixes(c, n - 1);
      var s := SeqVolumes(c, n - 1);
      assert SeqVolumes(c, n) == SeqVolume(c, s, n - 1);
      PrefixStep(c, n, s);
    }
  }

  lemma {:induction false} CompleteCount(c: Config, stored: seq<seq<PageFact>>, n: nat)
    requires n <= |c.volumes| == |stored|
    requires forall k :: 0 <= k < n ==> |stored[k]| == |EligiblePages(c.volumes[k])|
    ensures StoredCount(stored[..n]) == EligibleTotal(c.volumes[..n])
  {
    if n > 0 {
      CompleteCount(c, stored, n - 1);
      assert stored[..n][..n - 1] == stored[..n - 1];
      assert c.volumes[..n][..n - 1] == c.volumes[..n - 1];
    }
  }

  // With no stop reason both counts equal the trusted total of eligible pages.
  lemma WholeScanIsComplete(c: Config)
    requires SequentialScan(c).stop.None? && forall k :: 0 <= k < |c.volumes| ==> Whole(c.volumes[k])
    ensures SequentialScan(c).evaluated == SequentialScan(c).conclusive == EligibleTotal(c.volumes)
  {
    var n := |c.volumes|;
    ScanIsAccounted(c, n);
    VolumesStorePrefixes(c, n);
    CompleteCount(c, SequentialScan(c).stored, n);
    assert SequentialScan(c).stored[..n] == SequentialScan(c).stored;
    assert c.volumes[..n] == c.volumes;
  }
}
