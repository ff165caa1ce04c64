// Where the fast scan stops, stated over the flat list of the pages it visits and the bytes they
// cost: the budgets of `open_profiled_with_mode` in `src/inspection.rs`.
module ScanBudget {
  import opened Wrappers
  import opened Bits
  import opened Pages
  import opened Walks
  import opened PackedFact
  import opened Eligible
  import opened ScanModel
  import Decimal

  // ---- The pages of a scan ----

  datatype Place = Place(k: nat, page: PageNumber)

  function PlacesOf(k: nat, pages: seq<PageNumber>): (ps: seq<Place>)
    ensures |ps| == |pages| && forall i :: 0 <= i < |ps| ==> ps[i] == Place(k, pages[i])
  {
    seq(|pages|, i requires 0 <= i < |pages| => Place(k, pages[i]))
  }

  function VolumePlaces(c: Config, n: nat): seq<seq<Place>>
    requires n <= |c.volumes|
  {
    seq(n, k requires 0 <= k < n => PlacesOf(k, PageNumbers(c.volumes[k])))
  }

  // The pages of the first n volumes, volume by volume.
  function PlacesBelow(c: Config, n: nat): seq<Place>
    requires n <= |c.volumes|
  {
    Joined(VolumePlaces(c, n))
  }

  function Places(c: Config): seq<Place>
  {
    PlacesBelow(c, |c.volumes|)
  }

  predicate Within(c: Config, ps: seq<Place>)
  {
    forall i :: 0 <= i < |ps| ==> ps[i].k < |c.volumes|
  }

  // ---- What they are reported as ----

  function ErrorCode(rule: string): string
  {
    if rule == "page.envelope.identity_match" then "page.envelope.identity_mismatch"
    else if rule == "page.envelope.lsa_match" then "page.envelope.lsa_mismatch"
    else if rule == "page.envelope.type_known" then "page.envelope.type_unknown"
    else if rule == "page.envelope.tde_flags" then "page.envelope.tde_flags_invalid"
    else "page.envelope.invalid"
  }

  function Subject(c: Config, at: Place): string
    requires at.k < |c.volumes|
  {
    "page:" + Decimal.Print(c.volumes[at.k].id) + ":" + Decimal.Print(at.page)
  }

  // A rejected page is reported, and once more if the other profile decodes it.
  function Report(c: Config, at: Place): seq<Diagnostic>
    requires at.k < |c.volumes|
  {
    match c.read(at.k, at.page)
    case Rejected(rule, alternativeDecodes) =>
      [Diagnostic(ErrorCode(rule), "error", Subject(c, at), rule)]
      + (if alternativeDecodes then
           [Diagnostic("input.format_profile_alternative", "warning", Subject(c, at),
                       "input.format_profile.alternative_evidence")]
         else [])
    case _ => []
  }

  function Reports(c: Config, ps: seq<Place>): seq<Diagnostic>
    requires Within(c, ps)
  {
    Joined(seq(|ps|, i requires 0 <= i < |ps| => Report(c, ps[i])))
  }

  function Unreadable(c: Config, at: Place): Diagnostic
    requires at.k < |c.volumes|
  {
    Diagnostic("input.volume_unreadable", "error", "volume:" + Decimal.Print(c.volumes[at.k].id),
               "source.positional_read.complete")
  }

  function Limit(c: Config, at: Place, rule: string): Diagnostic
    requires at.k < |c.volumes|
  {
    Diagnostic("inspection.resource_limit", "error", Subject(c, at), rule)
  }

  // ---- What they cost ----

  function Subjects(ds: seq<Diagnostic>): seq<string>
  {
    seq(|ds|, i requires 0 <= i < |ds| => ds[i].subject)
  }

  function Masks(volumes: seq<Volume>): seq<seq<u64>>
  {
    seq(|volumes|, k requires 0 <= k < |volumes| => volumes[k].masks)
  }

  function Eligibles(volumes: seq<Volume>): seq<seq<nat>>
  {
    seq(|volumes|, k requires 0 <= k < |volumes| => EligiblePages(volumes[k]))
  }

  // 208 bytes for each diagnostic, and its subject.
  function Size(ds: seq<Diagnostic>): nat
  {
    208 * |ds| + |Joined(Subjects(ds))|
  }

  // The bytes of the reservation masks, the volume records and the earlier diagnostics, and a reserve.
  function Base(c: Config): nat
  {
    8 * |Joined(Masks(c.volumes))| + c.volumeRecordBytes * |c.volumes| + Size(c.prior) + 512
  }

  function AllEligible(c: Config): nat
  {
    |Joined(Eligibles(c.volumes))|
  }

  // The facts go to the spill file: 16 bytes for each eligible page do not fit beside the base.
  predicate ToSpill(c: Config)
  {
    Base(c) <= c.policy.memoryLimit < Base(c) + 16 * AllEligible(c)
  }

  function Start(c: Config): nat
  {
    Base(c) + if ToSpill(c) then 0 else 16 * AllEligible(c)
  }

  // The limits let all these pages pass, and each of them is readable.
  predicate Passed(c: Config, ps: seq<Place>)
    requires Within(c, ps)
  {
    ps != [] ==>
      && Base(c) <= c.policy.memoryLimit
      && (ToSpill(c) ==> 16 * |ps| <= c.policy.spillLimit)
      && (forall i :: 0 <= i < |ps| ==> !c.read(ps[i].k, ps[i].page).ReadFailed?)
      && Start(c) + Size(Reports(c, ps)) <= c.policy.memoryLimit
  }

  // ---- The closed forms ----

  lemma SizeLast(ds: seq<Diagnostic>, d: Diagnostic)
    ensures Size(ds + [d]) == Size(ds) + RetainedBytes(d)
  {
    assert Subjects(ds + [d]) == Subjects(ds) + [d.subject];
    JoinedLast(Subjects(ds), d.subject);
  }

  lemma {:induction false} SizeIs(ds: seq<Diagnostic>)
    ensures Size(ds) == RetainedSum(ds)
  {
    if ds != [] {
      var q, d := ds[..|ds| - 1], ds[|ds| - 1];
      SizeIs(q);
      SizeLast(q, d);
      assert q + [d] == ds;
    }
  }

  lemma {:induction false} BaseIs(volumes: seq<Volume>, recordBytes: nat)
    ensures BaseBytes(volumes, recordBytes) == 8 * |Joined(Masks(volumes))| + recordBytes * |volumes|
  {
    if volumes != [] {
      var n := |volumes| - 1;
      BaseIs(volumes[..n], recordBytes);
      assert Masks(volumes) == Masks(volumes[..n]) + [volumes[n].masks];
      JoinedLast(Masks(volumes[..n]), volumes[n].masks);
      assert recordBytes * (n + 1) == recordBytes * n + recordBytes;
    }
  }

  lemma {:induction false} EligibleIs(volumes: seq<Volume>)
    ensures EligibleTotal(volumes) == |Joined(Eligibles(volumes))|
  {
    if volumes != [] {
      var n := |volumes| - 1;
      EligibleIs(volumes[..n]);
      assert Eligibles(volumes) == Eligibles(volumes[..n]) + [EligiblePages(volumes[n])];
      JoinedLast(Eligibles(volumes[..n]), EligiblePages(volumes[n]));
    }
  }

  lemma BudgetsAre(c: Config)
    ensures AdmittedBase(c) == Base(c) && FactBytes(c) == 16 * AllEligible(c)
    ensures (Spilled(c) <==> ToSpill(c)) && InitialResident(c) == Start(c)
    ensures OverBase(c) <==> Base(c) > c.policy.memoryLimit
  {
    BaseIs(c.volumes, c.volumeRecordBytes);
    EligibleIs(c.volumes);
    SizeIs(c.prior);
  }

  // ---- The scan as one run over the places ----

  function ScanOf(c: Config, ps: seq<Place>): (s: State)
    requires Within(c, ps)
    ensures |s.stored| == |c.volumes|
  {
    if ps == [] then Initial(c)
    else SeqPage(c, ScanOf(c, ps[..|ps| - 1]), ps[|ps| - 1].k, ps[|ps| - 1].page)
  }

  lemma ScanLast(c: Config, ps: seq<Place>, at: Place)
    requires Within(c, ps) && at.k < |c.volumes|
    ensures Within(c, ps + [at]) && ScanOf(c, ps + [at]) == SeqPage(c, ScanOf(c, ps), at.k, at.page)
  {
    assert (ps + [at])[..|ps|] == ps;
  }

  lemma {:induction false} PagesAreScanned(c: Config, before: seq<Place>, k: nat, pages: seq<PageNumber>)
    requires Within(c, before) && k < |c.volumes|
    ensures Within(c, before + PlacesOf(k, pages))
    ensures ScanOf(c, before + PlacesOf(k, pages)) == SeqPages(c, ScanOf(c, before), k, pages)
  {
    if pages == [] {
      assert before + PlacesOf(k, pages) == before;
    } else {
      var n := |pages| - 1;
      PagesAreScanned(c, before, k, pages[..n]);
      ScanLast(c, before + PlacesOf(k, pages[..n]), Place(k, pages[n]));
      assert before + PlacesOf(k, pages) == before + PlacesOf(k, pages[..n]) + [Place(k, pages[n])];
    }
  }

  lemma PlacesLast(c: Config, n: nat)
    requires n < |c.volumes|
    ensures PlacesBelow(c, n + 1) == PlacesBelow(c, n) + PlacesOf(n, PageNumbers(c.volumes[n]))
  {
    var here := PlacesOf(n, PageNumbers(c.volumes[n]));
    assert VolumePlaces(c, n + 1) == VolumePlaces(c, n) + [here];
    JoinedLast(VolumePlaces(c, n), here);
  }

  // The first n volumes are scanned place by place.
  lemma {:induction false} VolumesAreScanned(c: Config, n: nat, ps: seq<Place>, s: State)
    requires n <= |c.volumes| && ps == PlacesBelow(c, n) && s == SeqVolumes(c, n)
    ensures Within(c, ps) && ScanOf(c, ps) == s
  {
    if n == 0 {
      NothingScanned(c);
    } else {
      var before, t := PlacesBelow(c, n - 1), SeqVolumes(c, n - 1);
      VolumesAreScanned(c, n - 1, before, t);
      VolumeIsScanned(c, n - 1, before, t);
    }
  }

  lemma NothingScanned(c: Config)
    ensures PlacesBelow(c, 0) == [] && ScanOf(c, []) == SeqVolumes(c, 0)
  {
    assert VolumePlaces(c, 0) == [];
  }

  lemma VolumeIsScanned(c: Config, n: nat, ps: seq<Place>, s: State)
    requires n < |c.volumes| && ps == PlacesBelow(c, n) && s == SeqVolumes(c, n)
    requires Within(c, ps) && ScanOf(c, ps) == s
    ensures var all := PlacesBelow(c, n + 1); Within(c, all) && ScanOf(c, all) == SeqVolumes(c, n + 1)
  {
    PlacesLast(c, n);
    PagesAreScanned(c, ps, n, PageNumbers(c.volumes[n]));
    assert SeqVolumes(c, n + 1) == SeqVolume(c, s, n);
  }

  lemma PlacesWithin(c: Config)
    ensures Within(c, Places(c)) && ScanOf(c, Places(c)) == SequentialScan(c)
  {
    VolumesAreScanned(c, |c.volumes|, Places(c), SequentialScan(c));
  }

  // ---- The state behind pages that all pass ----

  // The scan goes on behind these pages: it has kept their reports, at their cost.
  ghost predicate Running(c: Config, ps: seq<Place>, s: State)
    requires Within(c, ps)
  {
    && s.stop.None?
    && s.diagnostics == c.prior + Reports(c, ps)
    && s.resident == Start(c) + Size(Reports(c, ps))
    && s.spillUsed == (if ToSpill(c) then 16 * |ps| else 0)
    && s.evaluated == |ps| && s.conclusive == |ps|
  }

  // The scan stopped behind these pages at this one, in the state s.
  ghost predicate StopsAt(c: Config, ps: seq<Place>, at: Place, s: State)
    requires Within(c, ps) && at.k < |c.volumes|
  {
    var resident := Start(c) + Size(Reports(c, ps));
    var kept := c.prior + Reports(c, ps);
    var report := Report(c, at);
    && s.conclusive == |ps|
    && if Base(c) > c.policy.memoryLimit then
         LimitHalts(c, s, kept, at, "inspection.resource_policy.resident", |ps|, resident)
       else if ToSpill(c) && 16 * (|ps| + 1) > c.policy.spillLimit then
         LimitHalts(c, s, kept, at, "inspection.resource_policy.spill", |ps|, resident)
       else if c.read(at.k, at.page).ReadFailed? then
         var cost := 208 + |Unreadable(c, at).subject|;
         if resident + cost <= c.policy.memoryLimit then
           && s.diagnostics == kept + [Unreadable(c, at)] && s.resident == resident + cost
           && s.evaluated == |ps| + 1 && s.stop == Some("unreadable")
         else LimitHalts(c, s, kept, at, "inspection.resource_policy.diagnostics", |ps|, resident)
       else
         && report != []
         && var cost := 208 + |report[0].subject|;
            if resident + cost <= c.policy.memoryLimit then
              && |report| == 2 && resident + cost + 208 + |report[1].subject| > c.policy.memoryLimit
              && LimitHalts(c, s, kept + [report[0]], at, "inspection.resource_policy.diagnostics", |ps|, resident + cost)
            else LimitHalts(c, s, kept, at, "inspection.resource_policy.diagnostics", |ps|, resident)
  }

  // The scan stopped at this page under a limit, behind these diagnostics.
  predicate LimitHalts(c: Config, s: State, kept: seq<Diagnostic>, at: Place, rule: string, evaluated: nat,
                       resident: nat)
    requires at.k < |c.volumes|
  {
    && s.diagnostics == kept + [Limit(c, at, rule)] && s.resident == resident
    && s.evaluated == evaluated && s.stop == Some("resource-limit")
  }

  lemma ReportsLast(c: Config, ps: seq<Place>, at: Place)
    requires Within(c, ps) && at.k < |c.volumes|
    ensures Within(c, ps + [at]) && Reports(c, ps + [at]) == Reports(c, ps) + Report(c, at)
    ensures Size(Reports(c, ps + [at])) == Size(Reports(c, ps)) + Size(Report(c, at))
  {
    var q := ps + [at];
    var parts := seq(|ps|, i requires 0 <= i < |ps| => Report(c, ps[i]));
    assert seq(|q|, i requires 0 <= i < |q| => Report(c, q[i])) == parts + [Report(c, at)];
    JoinedLast(parts, Report(c, at));
    ReportSize(c, at, Reports(c, ps));
  }

  lemma ReportSize(c: Config, at: Place, before: seq<Diagnostic>)
    requires at.k < |c.volumes|
    ensures var report := Report(c, at); var each := 208 + |Subject(c, at)|;
      && |report| <= 2
      && (forall i :: 0 <= i < |report| ==> report[i].subject == Subject(c, at))
      && Size(report) == (if |report| == 0 then 0 else if |report| == 1 then each else each + each)
      && Size(before + report) == Size(before) + Size(report)
  {
    var report := Report(c, at);
    assert Size([]) == 0;
    if |report| == 1 {
      SizeLast(before, report[0]);
      SizeLast([], report[0]);
      assert [] + [report[0]] == [report[0]] == report;
    } else if |report| == 2 {
      SizeLast(before, report[0]);
      SizeLast(before + [report[0]], report[1]);
      SizeLast([], report[0]);
      SizeLast([report[0]], report[1]);
      assert before + [report[0]] + [report[1]] == before + report;
      assert [] + [report[0]] == [report[0]] && [report[0]] + [report[1]] == report;
    } else {
      assert before + report == before;
    }
  }

  // What a page is reported as is what its fact is reported as.
  lemma ReportIs(c: Config, s: State, at: Place)
    requires at.k < |c.volumes|
    ensures ScanResult(c, at.k, at.page).UnreadableResult? <==> c.read(at.k, at.page).ReadFailed?
    ensures var result := ScanResult(c, at.k, at.page); var report := Report(c, at); var v := c.volumes[at.k];
      result.FactResult? ==>
        && result.fact.page == at.page
        && WithDiagnostics(c, s, v, result) ==
             if report == [] then s
             else
               var first := WithFinding(c, s, v, at.page, report[0]);
               if first.stop.Some? || |report| == 1 then first else WithFinding(c, first, v, at.page, report[1])
  {
  }

  // The findings of a page: all of them fit, or the scan stops at the first that does not.
  lemma FindingsAdmitted(c: Config, s: State, at: Place, r: State)
    requires at.k < |c.volumes| && s.stop.None? && !c.read(at.k, at.page).ReadFailed?
    requires r == WithDiagnostics(c, s, c.volumes[at.k], ScanResult(c, at.k, at.page))
    ensures var report := Report(c, at); var resident := s.resident + Size(report);
      if resident <= c.policy.memoryLimit || report == [] then
        r == s.(diagnostics := s.diagnostics + report, resident := resident)
      else
        && |report| >= 1
        && r.evaluated == s.evaluated && r.conclusive == s.conclusive
        && var cost := 208 + |report[0].subject|;
           if s.resident + cost <= c.policy.memoryLimit then
             && |report| == 2 && s.resident + cost + 208 + |report[1].subject| > c.policy.memoryLimit
             && LimitHalts(c, r, s.diagnostics + [report[0]], at, "inspection.resource_policy.diagnostics", s.evaluated,
                           s.resident + cost)
           else LimitHalts(c, r, s.diagnostics, at, "inspection.resource_policy.diagnostics", s.evaluated, s.resident)
  {
    ReportSize(c, at, []);
    ReportIs(c, s, at);
    var report := Report(c, at);
    if |report| == 2 {
      assert s.diagnostics + [report[0]] + [report[1]] == s.diagnostics + report;
    } else if |report| == 1 {
      assert [report[0]] == report;
    } else {
      assert s.diagnostics + [] == s.diagnostics;
    }
  }

  lemma GateIs(c: Config, ps: seq<Place>, s: State)
    requires Within(c, ps) && Running(c, ps, s)
    requires ToSpill(c) ==> 16 * |ps| <= c.policy.spillLimit
    ensures Gate(c, s.spillUsed) ==
      if Base(c) > c.policy.memoryLimit then Some("inspection.resource_policy.resident")
      else if ToSpill(c) && 16 * (|ps| + 1) > c.policy.spillLimit then Some("inspection.resource_policy.spill")
      else None
  {
    BudgetsAre(c);
  }

  lemma RefusedScanned(c: Config, ps: seq<Place>, at: Place, s: State)
    requires Within(c, ps) && at.k < |c.volumes| && |s.stored| == |c.volumes| && Running(c, ps, s)
    requires Passed(c, ps) && (Gate(c, s.spillUsed).Some? || c.read(at.k, at.page).ReadFailed?)
    ensures StopsAt(c, ps, at, SeqPage(c, s, at.k, at.page)) && !Passed(c, ps + [at])
  {
    GateIs(c, ps, s);
    assert (ps + [at])[|ps|] == at;
  }

  lemma Reading(c: Config, ps: seq<Place>, at: Place, s: State, found: State)
    requires Within(c, ps) && at.k < |c.volumes| && |s.stored| == |c.volumes| && Running(c, ps, s)
    requires Gate(c, s.spillUsed).None? && !c.read(at.k, at.page).ReadFailed?
    requires found == WithDiagnostics(c, s, c.volumes[at.k], ScanResult(c, at.k, at.page))
    ensures |found.stored| == |c.volumes|
    ensures SeqPage(c, s, at.k, at.page) ==
      if found.stop.Some? then found else StoreFact(c, found, at.k, ScanResult(c, at.k, at.page).fact)
  {
    DiagnosticsStoreNothing(c, s, c.volumes[at.k], ScanResult(c, at.k, at.page));
  }

  lemma PassingRead(c: Config, ps: seq<Place>, at: Place, s: State)
    requires Within(c, ps) && at.k < |c.volumes| && |s.stored| == |c.volumes| && Running(c, ps, s)
    requires Gate(c, s.spillUsed).None? && !c.read(at.k, at.page).ReadFailed?
    requires s.resident + Size(Report(c, at)) <= c.policy.memoryLimit
    ensures Within(c, ps + [at]) && Running(c, ps + [at], SeqPage(c, s, at.k, at.page))
  {
    var found := WithDiagnostics(c, s, c.volumes[at.k], ScanResult(c, at.k, at.page));
    Reading(c, ps, at, s, found);
    FindingsAdmitted(c, s, at, found);
    StoredRuns(c, ps, at, s, found, ScanResult(c, at.k, at.page).fact);
  }

  lemma StoredRuns(c: Config, ps: seq<Place>, at: Place, s: State, found: State, fact: PageFact)
    requires Within(c, ps) && at.k < |c.volumes| && |s.stored| == |c.volumes| && Running(c, ps, s)
    requires found == s.(diagnostics := s.diagnostics + Report(c, at), resident := s.resident + Size(Report(c, at)))
    ensures Within(c, ps + [at]) && Running(c, ps + [at], StoreFact(c, found, at.k, fact))
  {
    ReportsLast(c, ps, at);
    BudgetsAre(c);
    assert c.prior + Reports(c, ps) + Report(c, at) == c.prior + (Reports(c, ps) + Report(c, at));
  }

  lemma RefusedRead(c: Config, ps: seq<Place>, at: Place, s: State)
    requires Within(c, ps) && at.k < |c.volumes| && |s.stored| == |c.volumes| && Running(c, ps, s)
    requires Passed(c, ps) && Gate(c, s.spillUsed).None? && !c.read(at.k, at.page).ReadFailed?
    requires s.resident + Size(Report(c, at)) > c.policy.memoryLimit && Report(c, at) != []
    ensures StopsAt(c, ps, at, SeqPage(c, s, at.k, at.page))
  {
    var found := WithDiagnostics(c, s, c.volumes[at.k], ScanResult(c, at.k, at.page));
    Reading(c, ps, at, s, found);
    FindingsAdmitted(c, s, at, found);
    GateIs(c, ps, s);
  }

  lemma PageScanned(c: Config, ps: seq<Place>, at: Place, s: State)
    requires Within(c, ps) && at.k < |c.volumes| && |s.stored| == |c.volumes| && Running(c, ps, s)
    requires Passed(c, ps)
    ensures Within(c, ps + [at])
    ensures if Passed(c, ps + [at]) then Running(c, ps + [at], SeqPage(c, s, at.k, at.page))
            else StopsAt(c, ps, at, SeqPage(c, s, at.k, at.page))
  {
    PassesIff(c, ps, at);
    GateIs(c, ps, s);
    if Gate(c, s.spillUsed).Some? || c.read(at.k, at.page).ReadFailed? {
      RefusedScanned(c, ps, at, s);
    } else if s.resident + Size(Report(c, at)) <= c.policy.memoryLimit {
      PassingRead(c, ps, at, s);
    } else {
      StartFits(c, ps);
      RefusedRead(c, ps, at, s);
    }
  }

  lemma StartFits(c: Config, ps: seq<Place>)
    requires Within(c, ps) && Passed(c, ps) && Base(c) <= c.policy.memoryLimit
    ensures Start(c) + Size(Reports(c, ps)) <= c.policy.memoryLimit
    ensures Size([]) == 0
  {
    assert ps == [] ==> Reports(c, ps) == [];
  }

  // One more page passes if the gate lets it, it is readable, and its reports fit.
  lemma PassesIff(c: Config, ps: seq<Place>, at: Place)
    requires Within(c, ps) && at.k < |c.volumes| && Passed(c, ps)
    ensures Within(c, ps + [at])
    ensures Passed(c, ps + [at]) <==>
      && Base(c) <= c.policy.memoryLimit
      && (ToSpill(c) ==> 16 * (|ps| + 1) <= c.policy.spillLimit)
      && !c.read(at.k, at.page).ReadFailed?
      && Start(c) + Size(Reports(c, ps)) + Size(Report(c, at)) <= c.policy.memoryLimit
  {
    ReportsLast(c, ps, at);
    var q := ps + [at];
    assert q[|ps|] == at && forall i :: 0 <= i < |ps| ==> q[i] == ps[i];
  }

  // ---- The whole scan ----

  lemma PassedBefore(c: Config, ps: seq<Place>, at: Place)
    requires Within(c, ps) && at.k < |c.volumes| && Within(c, ps + [at]) && Passed(c, ps + [at])
    ensures Passed(c, ps)
  {
    ReportsLast(c, ps, at);
    var q := ps + [at];
    assert forall i :: 0 <= i < |ps| ==> q[i] == ps[i];
  }

  // While all pages pass, the scan goes on.
  lemma {:induction false} RunsWhilePassed(c: Config, ps: seq<Place>)
    requires Within(c, ps) && Passed(c, ps)
    ensures Running(c, ps, ScanOf(c, ps))
  {
    if ps == [] {
      BudgetsAre(c);
      assert Reports(c, ps) == [] && c.prior + [] == c.prior && Size([]) == 0;
    } else {
      var q, at := ps[..|ps| - 1], ps[|ps| - 1];
      assert q + [at] == ps;
      PassedBefore(c, q, at);
      RunsWhilePassed(c, q);
      PageScanned(c, q, at, ScanOf(c, q));
    }
  }

  lemma {:induction false} StoppedStays(c: Config, ps: seq<Place>, n: nat)
    requires Within(c, ps) && n <= |ps| && Within(c, ps[..n]) && ScanOf(c, ps[..n]).stop.Some?
    ensures ScanOf(c, ps) == ScanOf(c, ps[..n])
    decreases |ps|
  {
    if n < |ps| {
      assert ps[..|ps| - 1][..n] == ps[..n];
      StoppedStays(c, ps[..|ps| - 1], n);
    } else {
      assert ps[..n] == ps;
    }
  }

  // A scan comes to its end exactly if the limits let all its pages pass and each is readable; it
  // has then kept all their reports.
  lemma ScanCompletesIff(c: Config)
    ensures Within(c, Places(c))
    ensures SequentialScan(c).stop.None? <==> Passed(c, Places(c))
    ensures Passed(c, Places(c)) ==> Running(c, Places(c), SequentialScan(c))
  {
    PlacesWithin(c);
    UnstoppedIff(c, Places(c));
    if Passed(c, Places(c)) {
      RunsWhilePassed(c, Places(c));
    }
  }

  lemma UnstoppedIff(c: Config, ps: seq<Place>)
    requires Within(c, ps)
    ensures ScanOf(c, ps).stop.None? <==> Passed(c, ps)
  {
    if Passed(c, ps) {
      RunsWhilePassed(c, ps);
    } else {
      assert ps[..|ps|] == ps;
      var n := FirstRefused(c, ps, |ps|);
      RefusedAt(c, ps, n, ScanOf(c, ps));
    }
  }

  lemma {:induction false} FirstRefused(c: Config, ps: seq<Place>, m: nat) returns (n: nat)
    requires m <= |ps| && Within(c, ps) && !Passed(c, ps[..m])
    ensures n < m && Passed(c, ps[..n]) && !Passed(c, ps[..n + 1])
  {
    n := m - 1;
    if !Passed(c, ps[..n]) {
      n := FirstRefused(c, ps, n);
    }
  }

  // The page that is refused behind q is the last the scan looks at.
  lemma RefusedIsLast(c: Config, ps: seq<Place>, q: seq<Place>, at: Place, s: State)
    requires Within(c, ps) && q + [at] <= ps && Within(c, q) && s == ScanOf(c, q) && Running(c, q, s)
    requires at.k < |c.volumes| && Passed(c, q) && !Passed(c, q + [at])
    ensures ScanOf(c, ps) == SeqPage(c, s, at.k, at.page)
  {
    RefusalStops(c, q, at, s);
    ScanLast(c, q, at);
    assert ps[..|q| + 1] == q + [at];
    StoppedStays(c, ps, |q| + 1);
  }

  lemma RefusalStops(c: Config, ps: seq<Place>, at: Place, s: State)
    requires Within(c, ps) && at.k < |c.volumes| && |s.stored| == |c.volumes| && Running(c, ps, s)
    requires Passed(c, ps) && !Passed(c, ps + [at])
    ensures SeqPage(c, s, at.k, at.page).stop.Some?
  {
    PageScanned(c, ps, at, s);
  }

  lemma RefusedAt(c: Config, ps: seq<Place>, n: nat, r: State)
    requires n < |ps| && Within(c, ps) && Passed(c, ps[..n]) && !Passed(c, ps[..n + 1]) && r == ScanOf(c, ps)
    ensures StopsAt(c, ps[..n], ps[n], r)
  {
    var q, at := ps[..n], ps[n];
    var s := ScanOf(c, q);
    RunsWhilePassed(c, q);
    assert ps[..n + 1] == q + [at];
    RefusedIsLast(c, ps, q, at, s);
    PageScanned(c, q, at, s);
  }

  // A scan stops at the first page that the limits or the source refuse, for the reason and with
  // the findings that this page gives.
  lemma ScanStopsAt(c: Config, n: nat)
    requires n < |Places(c)| && Within(c, Places(c))
    requires Passed(c, Places(c)[..n]) && !Passed(c, Places(c)[..n + 1])
    ensures StopsAt(c, Places(c)[..n], Places(c)[n], SequentialScan(c))
  {
    PlacesWithin(c);
    RefusedAt(c, Places(c), n, SequentialScan(c));
  }

  // A finding of the page, or of its volume if it is unreadable.
  predicate Yields(c: Config, at: Place, d: Diagnostic)
    requires at.k < |c.volumes|
  {
    if c.read(at.k, at.page).ReadFailed? then d == Unreadable(c, at) else d in Report(c, at)
  }

  // A scan stops for its diagnostics only at a page with a finding that does not fit in memory
  // behind what is kept.
  lemma DiagnosticsStopIsEarned(c: Config)
    requires var s := SequentialScan(c);
      && s.stop == Some("resource-limit") && s.diagnostics != []
      && s.diagnostics[|s.diagnostics| - 1].rule == "inspection.resource_policy.diagnostics"
    ensures Within(c, Places(c))
    ensures exists n, d ::
      && 0 <= n < |Places(c)| && Passed(c, Places(c)[..n]) && Yields(c, Places(c)[n], d)
      && SequentialScan(c).resident + 208 + |d.subject| > c.policy.memoryLimit
  {
    ScanCompletesIff(c);
    assert Places(c)[..|Places(c)|] == Places(c);
    var n := FirstRefused(c, Places(c), |Places(c)|);
    ScanStopsAt(c, n);
    StopYields(c, Places(c)[..n], Places(c)[n], SequentialScan(c));
  }

  lemma StopYields(c: Config, ps: seq<Place>, at: Place, s: State)
    requires Within(c, ps) && at.k < |c.volumes| && StopsAt(c, ps, at, s)
    requires s.diagnostics != [] && s.stop == Some("resource-limit")
    requires s.diagnostics[|s.diagnostics| - 1].rule == "inspection.resource_policy.diagnostics"
    ensures exists d :: Yields(c, at, d) && s.resident + 208 + |d.subject| > c.policy.memoryLimit
  {
    if c.read(at.k, at.page).ReadFailed? {
      assert Yields(c, at, Unreadable(c, at));
    } else if Report(c, at) != [] {
      assert Yields(c, at, Report(c, at)[0]);
      assert |Report(c, at)| == 2 ==> Yields(c, at, Report(c, at)[1]);
    }
  }
}
