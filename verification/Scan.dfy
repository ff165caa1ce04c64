// The wave-parallel fast scan over volumes and its spilled fact stores:
// `open_profiled_with_mode` in `src/inspection.rs`.
module Scan {
  import opened Wrappers
  import opened Bits
  import opened Pages
  import opened PackedFact
  import opened FactStore
  import opened Eligible
  import opened ScanModel
  import opened ReadAhead
  import opened Wave
  import Decimal

  class ScanRun {
    const c: Config
    const file: SpillFile?
    var stores: seq<PageFactStore>
    var diagnostics: seq<Diagnostic>
    var evaluated: nat
    var conclusive: nat
    var inspected: nat
    var spillUsed: nat
    var resident: nat
    var stop: Option<string>
    ghost var stored: seq<seq<PageFact>>

    ghost function View(): State
      reads this
    {
      State(stored, diagnostics, evaluated, conclusive, inspected, spillUsed, resident, stop)
    }

    // Every store holds the packed facts of its volume; all spilled stores are ranges of the
    // one file, which ends at the spill count.
    ghost predicate Valid()
      reads this, file, stores
    {
      && |stores| == |stored| == |c.volumes|
      && (file != null <==> Spilled(c))
      && (file != null ==> |file.bytes| == spillUsed <= c.policy.spillLimit)
      && (forall i, j :: 0 <= i < j < |stores| ==> stores[i] != stores[j])
      && (forall k :: 0 <= k < |stores| ==> stores[k].file == null || stores[k].file == file)
      && (forall k :: 0 <= k < |stores| ==> stores[k].Valid() && stores[k].Contents() == PackAll(stored[k]))
    }

    // The k-th store is the one being filled: in memory, or at the end of the file.
    ghost predicate Filling(k: nat)
      requires k < |stores|
      reads this, file, stores
    {
      stores[k].file == file
      && (file != null ==>
            && stores[k].offset + stores[k].len * RECORD_SIZE == |file.bytes|
            && stores[k].len <= |file.bytes|)
    }

    constructor (config: Config)
      ensures c == config && Valid() && fresh(stores) && (file != null ==> fresh(file))
      ensures View() == Initial(config)
      ensures forall k :: 0 <= k < |stores| ==> stores[k].file == null
    {
      var spill: SpillFile? := null;
      if Spilled(config) {
        spill := new SpillFile();
      }
      var list: seq<PageFactStore> := [];
      while |list| < |config.volumes|
        invariant |list| <= |config.volumes| && fresh(list)
        invariant forall i, j :: 0 <= i < j < |list| ==> list[i] != list[j]
        invariant forall k :: 0 <= k < |list| ==> list[k].file == null && list[k].Valid() && list[k].Contents() == []
        invariant spill != null ==> fresh(spill) && spill.bytes == []
      {
        var store := new PageFactStore.Memory();
        list := list + [store];
      }
      c := config;
      file := spill;
      stores := list;
      diagnostics, evaluated, conclusive, inspected, spillUsed := config.prior, 0, 0, 0, 0;
      resident := InitialResident(config);
      stop := None;
      stored := seq(|config.volumes|, i => []);
    }

    // The store of volume k is put at the current end of the spill file, if there is one.
    method BeginVolume(k: nat)
      requires Valid() && k < |stores| && stored[k] == [] && stores[k].file == null
      modifies this`stores
      ensures Valid() && Filling(k) && View() == old(View())
      ensures |stores| == |old(stores)|
      ensures if Spilled(c) then fresh(stores[k]) && stores[k].offset == spillUsed else stores == old(stores)
      ensures forall j :: 0 <= j < |stores| && j != k ==> stores[j] == old(stores[j])
    {
      if file != null {
        var store := new PageFactStore.Spilled(file, spillUsed);
        stores := stores[k := store];
      }
    }

    // Pushing one record changes no other volume's store.
    method Append(k: nat, fact: PageFact)
      requires Valid() && k < |stores| && Filling(k)
      requires file != null ==> |file.bytes| + RECORD_SIZE <= c.policy.spillLimit
      modifies stores[k], file
      ensures forall j :: 0 <= j < |stores| ==> stores[j].Valid()
      ensures forall j :: 0 <= j < |stores| && j != k ==> stores[j].Contents() == old(stores[j].Contents())
      ensures stores[k].Contents() == old(stores[k].Contents()) + [Pack(fact)] && Filling(k)
      ensures file != null ==> |file.bytes| == old(|file.bytes|) + RECORD_SIZE
    {
      ghost var bytes := if file == null then [] else file.bytes;
      var error := stores[k].Push(fact);
      forall j | 0 <= j < |stores| && j != k
        ensures stores[j].Valid() && stores[j].Contents() == old(stores[j].Contents())
      {
        if stores[j].file != null {
          assert old(stores[j].Valid());
          WriteKeepsOthers(bytes, |bytes|, Pack(fact), stores[j].offset, stores[j].len);
        }
      }
    }

    // Keeping one fact.
    method Store(k: nat, fact: PageFact)
      requires Valid() && k < |stores| && Filling(k)
      requires Spilled(c) ==> spillUsed + RECORD_SIZE <= c.policy.spillLimit
      modifies this`evaluated, this`conclusive, this`inspected, this`spillUsed, this`stored, stores[k], file
      ensures Valid() && Filling(k)
      ensures View() == StoreFact(c, old(View()), k, fact)
    {
      Append(k, fact);
      evaluated := evaluated + 1;
      conclusive := conclusive + 1;
      inspected := inspected + 1;
      if file != null {
        spillUsed := spillUsed + RECORD_SIZE;
      }
      assert PackAll(stored[k] + [fact]) == PackAll(stored[k]) + [Pack(fact)];
      stored := stored[k := stored[k] + [fact]];
    }

    // `admit_diagnostic` and the resource stop it leads to.
    method AdmitFinding(v: Volume, page: PageNumber, d: Diagnostic)
      modifies this`diagnostics, this`resident, this`stop
      ensures View() == WithFinding(c, old(View()), v, page, d)
    {
      if resident + RetainedBytes(d) <= c.policy.memoryLimit {
        diagnostics := diagnostics + [d];
        resident := resident + RetainedBytes(d);
      } else {
        diagnostics := diagnostics + [LimitDiagnostic(v, page, "inspection.resource_policy.diagnostics")];
        stop := Some("resource-limit");
      }
    }

    // An unreadable page ends the scan.
    method AdmitUnreadable(v: Volume, page: PageNumber)
      modifies this`diagnostics, this`resident, this`stop, this`evaluated
      ensures View() == WithUnreadable(c, old(View()), v, page)
    {
      var finding := Diagnostic("input.volume_unreadable", "error", "volume:" + Decimal.Print(v.id),
                                "source.positional_read.complete");
      if resident + RetainedBytes(finding) <= c.policy.memoryLimit {
        evaluated := evaluated + 1;
        diagnostics := diagnostics + [finding];
        resident := resident + RetainedBytes(finding);
        stop := Some("unreadable");
      } else {
        diagnostics := diagnostics + [LimitDiagnostic(v, page, "inspection.resource_policy.diagnostics")];
        stop := Some("resource-limit");
      }
    }

    method AdmitFindings(v: Volume, result: EnvelopeResult)
      requires result.FactResult? && stop.None?
      modifies this`diagnostics, this`resident, this`stop
      ensures View() == WithDiagnostics(c, old(View()), v, result)
    {
      var page := result.fact.page;
      if result.diagnostic.Some? {
        AdmitFinding(v, page, Diagnostic(CodeName(result.fact.code), "error", PageSubject(v, page),
                                         result.diagnostic.value));
        if stop.Some? {
          return;
        }
      }
      if result.hint {
        AdmitFinding(v, page, Diagnostic("input.format_profile_alternative", "warning", PageSubject(v, page),
                                         "input.format_profile.alternative_evidence"));
      }
    }

    // Interpreting one scan result.
    method Admit(k: nat, result: EnvelopeResult)
      requires Valid() && k < |stores| && Filling(k) && stop.None?
      requires Spilled(c) ==> spillUsed + RECORD_SIZE <= c.policy.spillLimit
      modifies this`diagnostics, this`resident, this`stop, this`evaluated, this`conclusive, this`inspected,
               this`spillUsed, this`stored, stores[k], file
      ensures Valid() && Filling(k)
      ensures View() == AdmitResult(c, old(View()), k, result)
    {
      match result {
        case UnreadableResult(page) => AdmitUnreadable(c.volumes[k], page);
        case FactResult(fact, _, _) =>
          AdmitFindings(c.volumes[k], result);
          if stop.None? {
            Store(k, fact);
          }
      }
    }

    // One admitted wave: its results are interpreted in page order until one stops the scan.
    method ScanWave(k: nat, pages: seq<PageNumber>)
      requires Valid() && k < |stores| && Filling(k) && stop.None? && !OverBase(c)
      requires Spilled(c) ==> |pages| <= SpillSlots(c, spillUsed)
      modifies this`diagnostics, this`resident, this`stop, this`evaluated, this`conclusive, this`inspected,
               this`spillUsed, this`stored, stores[k], file
      ensures Valid() && Filling(k)
      ensures View() == SeqPages(c, old(View()), k, pages)
    {
      ghost var before := View();
      var results := RunWave(c, k, pages);
      for i := 0 to |results|
        invariant Valid() && Filling(k) && stop.None?
        invariant View() == SeqPages(c, before, k, pages[..i])
      {
        WaveStep(c, before, k, pages, i);
        Admit(k, results[i]);
        if stop.Some? {
          StopIsFinal(c, before, k, pages, i + 1);
          return;
        }
      }
      assert pages[..|pages|] == pages;
    }

    // The rest of a wave behind its first page, up to the admitted size.  It fails exactly if the
    // admitted wave reaches beyond the pages the cursor can yield.
    method FillWave(v: Volume, cursor: EligiblePageCursor, first: PageNumber, admitted: nat,
                    ghost fit: seq<PageNumber>, ghost all: seq<nat>)
      returns (wave: seq<PageNumber>, failed: bool)
      requires Addressable(v) && cursor.Valid() && admitted > 0 && FittingPart(fit, all)
      requires fit != [] && first == fit[0] && cursor.Remaining(v) == all[1..]
      modifies cursor
      ensures cursor.Valid()
      ensures failed <==> |fit| < |all| && |fit| < admitted
      ensures !failed ==>
        && 0 < |wave| <= |fit| && wave == fit[..|wave|] && cursor.Remaining(v) == all[|wave|..]
        && (|wave| == admitted || (|fit| == |all| == |wave| < admitted))
    {
      wave, failed := [first], false;
      while |wave| < admitted
        invariant cursor.Valid() && 0 < |wave| <= admitted && |wave| <= |fit|
        invariant wave == fit[..|wave|] && cursor.Remaining(v) == all[|wave|..]
      {
        TailOf(all, |wave|);
        var next := cursor.Next(v);
        if next.Done? {
          break;
        }
        if next.TooLarge? {
          failed := true;
          return;
        }
        wave := wave + [next.number];
      }
    }

    // How many pages the next wave may hold; a refused page stops the scan.
    method AdmitWave(k: nat, first: PageNumber) returns (admitted: nat)
      requires Valid() && k < |c.volumes| && stop.None?
      modifies this`diagnostics, this`stop
      ensures Valid()
      ensures stop.None? ==>
        && View() == old(View()) && !OverBase(c)
        && 0 < admitted == Admitted(c, spillUsed) && (Spilled(c) ==> admitted <= SpillSlots(c, spillUsed))
      ensures stop.Some? <==> Gate(c, spillUsed).Some?
      ensures stop.Some? ==> View() == SeqPage(c, old(View()), k, first)
    {
      RefusedIfGated(c, View(), k, first);
      var slots := if file != null then SpillSlots(c, spillUsed) else WaveCapacity(c);
      if OverBase(c) || slots == 0 {
        stop := Some("resource-limit");
        diagnostics := diagnostics + [LimitDiagnostic(c.volumes[k], first,
                                                      if OverBase(c) then "inspection.resource_policy.resident"
                                                      else "inspection.resource_policy.spill")];
      }
      admitted := if slots < WaveCapacity(c) then slots else WaveCapacity(c);
    }

    // Scanning a wave of the rest of the pages, as many as admitted unless they are the last ones:
    // what the scan of the rest comes to, it comes to from behind the wave.
    method ScanRound(k: nat, wave: seq<PageNumber>, ghost rest: seq<PageNumber>, ghost whole: bool)
      requires Valid() && k < |stores| && Filling(k) && stop.None? && Gate(c, spillUsed).None?
      requires 0 < |wave| <= |rest| && wave == rest[..|wave|] && |wave| <= Admitted(c, spillUsed)
      requires |wave| == Admitted(c, spillUsed) || whole
      modifies this`diagnostics, this`resident, this`stop, this`evaluated, this`conclusive, this`inspected,
               this`spillUsed, this`stored, stores[k], file
      ensures Valid() && Filling(k)
      ensures Outcome(c, old(View()), k, rest, whole)
           == if stop.Some? then Some(View()) else Outcome(c, View(), k, rest[|wave|..], whole)
    {
      ghost var start := View();
      ScanWave(k, wave);
      WaveRound(c, start, k, rest, whole, |wave|);
    }

    // Filling and scanning the admitted wave.
    method RunRound(k: nat, cursor: EligiblePageCursor, first: PageNumber, admitted: nat,
                    ghost fit: seq<PageNumber>, ghost all: seq<nat>)
      returns (failed: bool, ghost m: nat)
      requires Valid() && k < |stores| && Filling(k) && stop.None?
      requires Gate(c, spillUsed).None? && 0 < admitted == Admitted(c, spillUsed)
      requires Addressable(c.volumes[k]) && cursor.Valid() && FittingPart(fit, all)
      requires fit != [] && first == fit[0] && cursor.Remaining(c.volumes[k]) == all[1..]
      modifies this`diagnostics, this`resident, this`stop, this`evaluated, this`conclusive, this`inspected,
               this`spillUsed, this`stored, stores[k], file, cursor
      ensures Valid() && Filling(k) && cursor.Valid() && m <= |fit|
      ensures Outcome(c, old(View()), k, fit, |fit| == |all|)
           == if failed then None
              else if stop.Some? then Some(View())
              else Outcome(c, View(), k, fit[m..], |fit| == |all|)
      ensures !failed && stop.None? ==> 0 < m && cursor.Remaining(c.volumes[k]) == all[m..]
    {
      m := 0;
      var wave;
      wave, failed := FillWave(c.volumes[k], cursor, first, admitted, fit, all);
      if failed {
        FailedRound(c, View(), k, fit);
        return;
      }
      m := |wave|;
      ScanRound(k, wave, fit, |fit| == |all|);
    }

    // One round of the scan loop with these pages left, of which the cursor can yield the fitting
    // ones: it fails, or the scan stops, or it goes on behind m more pages, as the scan of the
    // pages left comes to.
    method NextWave(k: nat, cursor: EligiblePageCursor, first: PageNumber,
                    ghost fit: seq<PageNumber>, ghost all: seq<nat>)
      returns (failed: bool, ghost m: nat)
      requires Valid() && k < |stores| && Filling(k) && stop.None?
      requires Addressable(c.volumes[k]) && cursor.Valid() && FittingPart(fit, all)
      requires fit != [] && first == fit[0] && cursor.Remaining(c.volumes[k]) == all[1..]
      modifies this`diagnostics, this`resident, this`stop, this`evaluated, this`conclusive, this`inspected,
               this`spillUsed, this`stored, stores[k], file, cursor
      ensures Valid() && Filling(k) && cursor.Valid() && m <= |fit|
      ensures Outcome(c, old(View()), k, fit, |fit| == |all|)
           == if failed then None
              else if stop.Some? then Some(View())
              else Outcome(c, View(), k, fit[m..], |fit| == |all|)
      ensures !failed && stop.None? ==> 0 < m && cursor.Remaining(c.volumes[k]) == all[m..]
    {
      failed, m := false, 0;
      ghost var start := View();
      var admitted := AdmitWave(k, first);
      if stop.Some? {
        RefusedRound(c, start, k, fit, |fit| == |all|);
        return;
      }
      failed, m := RunRound(k, cursor, first, admitted, fit, all);
    }

    // The waves of the pages left.
    method ScanRest(k: nat, cursor: EligiblePageCursor, ghost pages: seq<PageNumber>, ghost numbers: seq<nat>)
      returns (failed: bool)
      requires Valid() && k < |stores| && Filling(k) && Addressable(c.volumes[k]) && stop.None?
      requires cursor.Valid() && cursor.Remaining(c.volumes[k]) == numbers && FittingPart(pages, numbers)
      modifies this`diagnostics, this`resident, this`stop, this`evaluated, this`conclusive, this`inspected,
               this`spillUsed, this`stored, stores[k], file, cursor
      ensures Valid() && Filling(k)
      ensures Outcome(c, old(View()), k, pages, |pages| == |numbers|) == if failed then None else Some(View())
    {
      var v := c.volumes[k];
      ghost var fit, all, whole := pages, numbers, |pages| == |numbers|;
      ghost var outcome := Outcome(c, View(), k, pages, whole);
      failed := false;
      while true
        invariant cursor.Valid() && cursor.Remaining(v) == all
        invariant FittingPart(fit, all) && whole == (|fit| == |all|)
        invariant Valid() && Filling(k) && stop.None? && !failed
        invariant Outcome(c, View(), k, fit, whole) == outcome
        decreases |fit|
      {
        TailOf(all, 0);
        var first := cursor.Next(v);
        if !first.Page? {
          EndReached(c, View(), k, whole);
          failed := first.TooLarge?;
          return;
        }
        ghost var m;
        failed, m := NextWave(k, cursor, first.number, fit, all);
        if failed || stop.Some? {
          return;
        }
        fit, all := fit[m..], all[m..];
      }
    }

    // All waves of one volume.
    method ScanWaves(k: nat) returns (failed: bool)
      requires Valid() && k < |stores| && Filling(k) && Addressable(c.volumes[k]) && stop.None?
      modifies this`diagnostics, this`resident, this`stop, this`evaluated, this`conclusive, this`inspected,
               this`spillUsed, this`stored, stores[k], file
      ensures Valid() && Filling(k)
      ensures VolumeOutcome(c, old(View()), k) == if failed then None else Some(View())
    {
      var cursor := new EligiblePageCursor();
      failed := ScanRest(k, cursor, PageNumbers(c.volumes[k]), EligiblePages(c.volumes[k]));
    }

    method ScanVolume(k: nat) returns (failed: bool)
      requires Valid() && k < |stores| && Addressable(c.volumes[k]) && stop.None?
      requires stored[k] == [] && stores[k].file == null
      modifies this, stores[k], file
      ensures Valid() && |stores| == |old(stores)|
      ensures forall j :: 0 <= j < |stores| && j != k ==> stores[j] == old(stores[j])
      ensures stores[k] == old(stores[k]) || fresh(stores[k])
      ensures file != null ==> stores[k].offset == old(spillUsed)
      ensures VolumeOutcome(c, old(View()), k) == if failed then None else Some(View())
    {
      BeginVolume(k);
      failed := ScanWaves(k);
    }

    // The spilled stores lie one behind the other in the file.
    ghost predicate Placed()
      requires |stores| == |stored|
      reads this, stores
    {
      forall j :: 0 <= j < |stores| && stores[j].file != null ==>
        stores[j].offset == StoredCount(stored[..j]) * RECORD_SIZE
    }

    // The first k volumes have been scanned.
    ghost predicate Reached(k: nat)
      requires k <= |c.volumes|
      reads this, file, stores
    {
      && Valid() && Placed() && View() == SeqVolumes(c, k) && !OverrunsBelow(c, k)
      && forall j :: k <= j < |stores| ==> stores[j].file == null
    }

    // Scanning volume k as the next one after the first k.
    method ScanNextVolume(k: nat) returns (failed: bool)
      requires k < |c.volumes| && Reached(k) && Addressable(c.volumes[k]) && stop.None?
      modifies this, stores[k], file
      ensures forall j :: k < j < |stores| == |old(stores)| ==> stores[j] == old(stores[j])
      ensures if failed then ScanOverruns(c) else Reached(k + 1)
    {
      ghost var before := View();
      ScanIsAccounted(c, k);
      VolumesStorePrefixes(c, k);
      EmptyTail(stored, k);
      PagesStore(c, before, k, PageNumbers(c.volumes[k]));
      OverrunsBelowGrows(c, k);
      failed := ScanVolume(k);
      if failed {
        return;
      }
      forall j | 0 <= j < |stores|
        ensures stores[j].file != null ==> stores[j].offset == StoredCount(stored[..j]) * RECORD_SIZE
      {
        if j <= k {
          assert stored[..j] == before.stored[..j];
        }
      }
    }

    // The volumes in turn, up to the first that stops the scan.
    method ScanVolumes() returns (failed: bool, k: nat)
      requires AllAddressable(c.volumes) && Reached(0)
      modifies this, stores, file
      ensures if failed then ScanOverruns(c) else k <= |c.volumes| && Reached(k)
      ensures !failed && k < |c.volumes| ==> stop.Some?
    {
      k, failed := 0, false;
      while k < |c.volumes| && stop.None?
        invariant k <= |c.volumes| == |stores| && |old(stores)| == |stores| && Reached(k) && !failed
        invariant forall j :: k <= j < |stores| ==> stores[j] == old(stores)[j]
      {
        failed := ScanNextVolume(k);
        if failed {
          return;
        }
        k := k + 1;
      }
    }

    // The whole scan fails exactly if it reads ahead to a page number beyond i32, and otherwise
    // ends in the state of the sequential scan, whatever the worker count, the memory limit and
    // the spill limit.
    method ScanAll() returns (failed: bool)
      requires AllAddressable(c.volumes) && Reached(0)
      modifies this, stores, file
      ensures failed <==> ScanOverruns(c)
      ensures !failed ==> Valid() && Placed() && View() == SequentialScan(c)
    {
      var n;
      failed, n := ScanVolumes();
      if !failed {
        NoFurtherOverruns(c, n);
      }
    }

    // `page_fact` after the scan, from either kind of store: the fact the page was stored with.
    method PageFactOf(k: nat, page: PageNumber) returns (r: Result<Option<PageFact>, StoreError>)
      requires Valid() && View() == SequentialScan(c) && k < |stores|
      ensures r == Success(Find(SequentialScan(c).stored[k], page))
    {
      StoredFactsInOrder(c, k);
      PackedFactsReadBack(stored[k]);
      r := stores[k].LookUp(page);
    }
  }

  // Counting the pages of all volumes and scanning them.  Null is `OpenFailure::Arithmetic`: a
  // sector's first page is no u32, or the scan reads ahead to a page that is no i32.
  method OpenScan(config: Config) returns (run: ScanRun?)
    ensures run == null <==> !AllAddressable(config.volumes) || ScanOverruns(config)
    ensures run != null ==>
      && fresh(run) && run.c == config && run.Valid() && run.Placed() && run.View() == SequentialScan(config)
  {
    for k := 0 to |config.volumes|
      invariant forall j :: 0 <= j < k ==> Addressable(config.volumes[j])
    {
      var count := EligiblePageCount(config.volumes[k]);
      if count.None? {
        return null;
      }
    }
    var scan := new ScanRun(config);
    var failed := scan.ScanAll();
    run := if failed then null else scan;
  }

  // The numbers before the first one beyond i32.
  ghost predicate FittingPart(fit: seq<PageNumber>, all: seq<nat>)
  {
    && |fit| <= |all| && (forall i :: 0 <= i < |fit| ==> fit[i] == all[i])
    && (|fit| < |all| ==> all[|fit|] > I32_MAX)
  }

  lemma TailOf(all: seq<nat>, n: nat)
    requires n <= |all|
    ensures all[n..] == [] <==> n == |all|
    ensures n < |all| ==> all[n..][0] == all[n] && all[n..][1..] == all[n + 1..]
  {
  }

  lemma NoFurtherOverruns(c: Config, k: nat)
    requires k <= |c.volumes| && !OverrunsBelow(c, k)
    requires k == |c.volumes| || SeqVolumes(c, k).stop.Some?
    ensures !ScanOverruns(c) && SequentialScan(c) == SeqVolumes(c, k)
  {
    if k < |c.volumes| {
      StoppedVolumes(c, k, |c.volumes|);
      forall j | k <= j < |c.volumes|
        ensures !VolumeOverruns(c, j)
      {
        StoppedVolumes(c, k, j);
      }
    }
  }

  lemma {:induction false} EmptyTail(stored: seq<seq<PageFact>>, k: nat)
    requires k <= |stored| && forall j :: k <= j < |stored| ==> stored[j] == []
    ensures StoredCount(stored) == StoredCount(stored[..k])
    decreases |stored|
  {
    if k == |stored| {
      assert stored[..k] == stored;
    } else {
      var rest := stored[..|stored| - 1];
      EmptyTail(rest, k);
      assert rest[..k] == stored[..k];
    }
  }

  // The stored facts of a volume are in page order and survive packing.
  lemma StoredFactsInOrder(c: Config, k: nat)
    requires k < |c.volumes|
    ensures var facts := SequentialScan(c).stored[k];
      && Ascending(facts) && |facts| <= |EligiblePages(c.volumes[k])|
      && forall i :: 0 <= i < |facts| ==> Canonical(facts[i]) && facts[i].page == EligiblePages(c.volumes[k])[i]
  {
    VolumesStorePrefixes(c, |c.volumes|);
    var pages := PageNumbers(c.volumes[k]);
    EligiblePagesExact(c.volumes[k]);
    assert FactsOfPrefix(c, k, SequentialScan(c).stored[k], pages);
  }

  lemma PageIsEligible(v: Volume, page: PageNumber)
    ensures page in PageNumbers(v) <==> page in EligiblePages(v)
  {
    var fit, all := PageNumbers(v), EligiblePages(v);
    EligiblePagesExact(v);
    if i :| 0 <= i < |all| && all[i] == page {
      assert |fit| < |all| ==> all[|fit|] > I32_MAX;
      assert i < |fit| && fit[i] == page;
    }
    if i :| 0 <= i < |fit| && fit[i] == page {
      assert all[i] == page;
    }
  }

  // A page's stored fact is what scanning that page alone yields, and a scan that was not
  // stopped has one for exactly the eligible pages.
  lemma StoredFactIsScanned(c: Config, k: nat, page: PageNumber)
    requires k < |c.volumes|
    ensures var found := Find(SequentialScan(c).stored[k], page);
      && (found.Some? ==>
            && page in EligiblePages(c.volumes[k])
            && ScanResult(c, k, page).FactResult? && found.value == ScanResult(c, k, page).fact)
      && (SequentialScan(c).stop.None? ==> (found.Some? <==> page in EligiblePages(c.volumes[k])))
  {
    var facts, pages := SequentialScan(c).stored[k], PageNumbers(c.volumes[k]);
    VolumesStorePrefixes(c, |c.volumes|);
    StoredFactsInOrder(c, k);
    PageIsEligible(c.volumes[k], page);
    if i :| 0 <= i < |facts| && facts[i].page == page {
      FindAt(facts, i);
      assert pages[i] == page;
    } else {
      FindMissing(facts, page);
    }
  }

  // Workers, memory limit and spill limit change when a scan stops, never what it finds: two
  // scans of the same volumes that both run to the end hold the same facts.
  lemma LimitsDoNotChangeFacts(c: Config, d: Config, k: nat)
    requires d.volumes == c.volumes && d.read == c.read && d.hasTdeKey == c.hasTdeKey
    requires SequentialScan(c).stop.None? && SequentialScan(d).stop.None? && k < |c.volumes|
    ensures SequentialScan(c).stored[k] == SequentialScan(d).stored[k]
  {
    VolumesStorePrefixes(c, |c.volumes|);
    VolumesStorePrefixes(d, |d.volumes|);
    var f, g := SequentialScan(c).stored[k], SequentialScan(d).stored[k];
    var pages := PageNumbers(c.volumes[k]);
    assert FactsOfPrefix(c, k, f, pages) && FactsOfPrefix(d, k, g, pages);
    forall i | 0 <= i < |f|
      ensures f[i] == g[i]
    {
      assert ScanResult(c, k, pages[i]) == ScanResult(d, k, pages[i]);
    }
  }
}
