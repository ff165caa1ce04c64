// The waves of the fast scan on values: how far the scan loop of `open_profiled_with_mode` in
// `src/inspection.rs` reads ahead, and what a wave does to the state.
module ReadAhead {
  import opened Wrappers
  import opened Pages
  import opened PackedFact
  import opened Eligible
  import opened ScanModel

  // How many pages the next wave may hold.
  function Admitted(c: Config, spillUsed: nat): nat
  {
    if Spilled(c) && SpillSlots(c, spillUsed) < WaveCapacity(c) then SpillSlots(c, spillUsed) else WaveCapacity(c)
  }

  // From a wave that starts in state s with these pages left, the cursor is asked for a page whose
  // number is no i32 before the scan stops.  Such a page follows unless these are the whole rest.
  ghost predicate Overruns(c: Config, s: State, k: nat, rest: seq<PageNumber>, whole: bool)
    requires k < |c.volumes| == |s.stored|
    decreases |rest|
  {
    if whole || s.stop.Some? then false
    else if rest == [] then true
    else if Gate(c, s.spillUsed).Some? then false
    else
      var admitted := Admitted(c, s.spillUsed);
      |rest| < admitted || Overruns(c, SeqPages(c, s, k, rest[..admitted]), k, rest[admitted..], whole)
  }

  // What scanning the rest of the pages of volume k comes to: no state if it fails.
  ghost function Outcome(c: Config, s: State, k: nat, rest: seq<PageNumber>, whole: bool): Option<State>
    requires k < |c.volumes| == |s.stored|
  {
    if Overruns(c, s, k, rest, whole) then None else Some(SeqPages(c, s, k, rest))
  }

  ghost function VolumeOutcome(c: Config, s: State, k: nat): Option<State>
    requires k < |c.volumes| == |s.stored|
  {
    Outcome(c, s, k, PageNumbers(c.volumes[k]), Whole(c.volumes[k]))
  }

  ghost predicate VolumeOverruns(c: Config, k: nat)
    requires k < |c.volumes|
  {
    VolumeOutcome(c, SeqVolumes(c, k), k).None?
  }

  ghost predicate OverrunsBelow(c: Config, n: nat)
    requires n <= |c.volumes|
  {
    exists k :: 0 <= k < n && VolumeOverruns(c, k)
  }

  ghost predicate ScanOverruns(c: Config)
  {
    OverrunsBelow(c, |c.volumes|)
  }

  lemma OverrunsBelowGrows(c: Config, n: nat)
    requires n < |c.volumes|
    ensures OverrunsBelow(c, n + 1) <==> OverrunsBelow(c, n) || VolumeOverruns(c, n)
    ensures OverrunsBelow(c, n + 1) ==> ScanOverruns(c)
  {
  }

  // ---- What a wave does ----

  lemma RefusedIfGated(c: Config, s: State, k: nat, page: PageNumber)
    requires k < |c.volumes| == |s.stored| && s.stop.None?
    ensures Gate(c, s.spillUsed).Some? ==>
      SeqPage(c, s, k, page)
      == Halted(s, LimitDiagnostic(c.volumes[k], page, Gate(c, s.spillUsed).value), "resource-limit")
  {
  }

  lemma NextPage(c: Config, s: State, k: nat, pages: seq<PageNumber>, n: nat)
    requires k < |c.volumes| == |s.stored| && n < |pages|
    ensures SeqPages(c, s, k, pages[..n + 1]) == SeqPage(c, SeqPages(c, s, k, pages[..n]), k, pages[n])
  {
    assert pages[..n + 1][..n] == pages[..n];
  }

  lemma LastPage(c: Config, s: State, k: nat, pages: seq<PageNumber>, last: PageNumber)
    requires k < |c.volumes| == |s.stored|
    ensures SeqPages(c, s, k, pages + [last]) == SeqPage(c, SeqPages(c, s, k, pages), k, last)
  {
    assert (pages + [last])[..|pages|] == pages;
  }

  lemma {:induction false} WavesCompose(c: Config, s: State, k: nat, pages: seq<PageNumber>, n: nat, m: nat)
    requires k < |c.volumes| == |s.stored| && n + m <= |pages|
    ensures SeqPages(c, SeqPages(c, s, k, pages[..n]), k, pages[n..n + m]) == SeqPages(c, s, k, pages[..n + m])
  {
    if m == 0 {
      assert pages[n..n] == [] && pages[..n + 0] == pages[..n];
    } else {
      var last := pages[n + m - 1];
      WavesCompose(c, s, k, pages, n, m - 1);
      LastPage(c, SeqPages(c, s, k, pages[..n]), k, pages[n..n + (m - 1)], last);
      LastPage(c, s, k, pages[..n + (m - 1)], last);
      assert pages[n..n + (m - 1)] + [last] == pages[n..n + m];
      assert pages[..n + (m - 1)] + [last] == pages[..n + m];
    }
  }

  // Within an admitted wave the spill budget never refuses a page, so the sequential scan
  // interprets the same results one after the other.
  lemma WaveStep(c: Config, s: State, k: nat, pages: seq<PageNumber>, i: nat)
    requires k < |c.volumes| == |s.stored| && i < |pages| && !OverBase(c) && s.stop.None?
    requires Spilled(c) ==> |pages| <= SpillSlots(c, s.spillUsed)
    requires SeqPages(c, s, k, pages[..i]).stop.None?
    ensures var t := SeqPages(c, s, k, pages[..i]);
      && (Spilled(c) ==> t.spillUsed + RECORD_SIZE <= c.policy.spillLimit)
      && SeqPages(c, s, k, pages[..i + 1]) == AdmitResult(c, t, k, ScanResult(c, k, pages[i]))
  {
    WaveSpill(c, s, k, pages, i);
    assert pages[..i + 1][..i] == pages[..i];
  }

  lemma {:induction false} WaveSpill(c: Config, s: State, k: nat, pages: seq<PageNumber>, i: nat)
    requires k < |c.volumes| == |s.stored| && i <= |pages| && !OverBase(c) && s.stop.None?
    requires Spilled(c) ==> |pages| <= SpillSlots(c, s.spillUsed)
    requires SeqPages(c, s, k, pages[..i]).stop.None?
    ensures Spilled(c) ==> SeqPages(c, s, k, pages[..i]).spillUsed == s.spillUsed + i * RECORD_SIZE
    ensures forall j :: 0 <= j <= i ==> SeqPages(c, s, k, pages[..j]).stop.None?
  {
    if i > 0 {
      assert pages[..i][..i - 1] == pages[..i - 1];
      var t := SeqPages(c, s, k, pages[..i - 1]);
      assert SeqPages(c, s, k, pages[..i]) == SeqPage(c, t, k, pages[i - 1]);
      WaveSpill(c, s, k, pages, i - 1);
      SpillAdvances(c, t, k, ScanResult(c, k, pages[i - 1]));
    }
  }

  lemma SpillAdvances(c: Config, s: State, k: nat, result: EnvelopeResult)
    requires k < |c.volumes| == |s.stored| && s.stop.None?
    ensures var r := AdmitResult(c, s, k, result);
      r.stop.None? && Spilled(c) ==> r.spillUsed == s.spillUsed + RECORD_SIZE
  {
    if result.FactResult? {
      DiagnosticsStoreNothing(c, s, c.volumes[k], result);
    }
  }

  // ---- Rounds of the scan loop ----

  // At the end of the pages.
  lemma EndReached(c: Config, s: State, k: nat, whole: bool)
    requires k < |c.volumes| == |s.stored| && s.stop.None?
    ensures Outcome(c, s, k, [], whole) == if whole then Some(s) else None
  {
  }

  // The first page is refused.
  lemma RefusedRound(c: Config, s: State, k: nat, rest: seq<PageNumber>, whole: bool)
    requires k < |c.volumes| == |s.stored| && rest != []
    requires s.stop.None? && Gate(c, s.spillUsed).Some?
    ensures Outcome(c, s, k, rest, whole) == Some(SeqPage(c, s, k, rest[0]))
  {
    NextPage(c, s, k, rest, 0);
    assert rest[..0] == [];
    RefusedIfGated(c, s, k, rest[0]);
    StopIsFinal(c, s, k, rest, 1);
  }

  // The admitted wave reaches beyond the pages the cursor can yield.
  lemma FailedRound(c: Config, s: State, k: nat, rest: seq<PageNumber>)
    requires k < |c.volumes| == |s.stored| && s.stop.None? && Gate(c, s.spillUsed).None?
    requires |rest| < Admitted(c, s.spillUsed)
    ensures Outcome(c, s, k, rest, false).None?
  {
  }

  // A wave of n pages, as many as admitted unless they are the last ones.
  lemma WaveRound(c: Config, s: State, k: nat, rest: seq<PageNumber>, whole: bool, n: nat)
    requires k < |c.volumes| == |s.stored| && 0 < n <= |rest|
    requires s.stop.None? && Gate(c, s.spillUsed).None?
    requires n == Admitted(c, s.spillUsed) || whole
    ensures var after := SeqPages(c, s, k, rest[..n]);
      Outcome(c, s, k, rest, whole) == if after.stop.Some? then Some(after) else Outcome(c, after, k, rest[n..], whole)
  {
    WaveOverruns(c, s, k, rest, whole, n);
    RestComposes(c, s, k, rest, n);
  }

  lemma WaveOverruns(c: Config, s: State, k: nat, rest: seq<PageNumber>, whole: bool, n: nat)
    requires k < |c.volumes| == |s.stored| && 0 < n <= |rest|
    requires s.stop.None? && Gate(c, s.spillUsed).None?
    requires n == Admitted(c, s.spillUsed) || whole
    ensures var after := SeqPages(c, s, k, rest[..n]);
      && (Overruns(c, s, k, rest, whole) <==> Overruns(c, after, k, rest[n..], whole))
      && (after.stop.Some? ==> !Overruns(c, after, k, rest[n..], whole))
  {
  }

  lemma RestComposes(c: Config, s: State, k: nat, pages: seq<PageNumber>, n: nat)
    requires k < |c.volumes| == |s.stored| && n <= |pages|
    ensures var after := SeqPages(c, s, k, pages[..n]);
      && SeqPages(c, after, k, pages[n..]) == SeqPages(c, s, k, pages)
      && (after.stop.Some? ==> SeqPages(c, s, k, pages) == after)
  {
    WavesCompose(c, s, k, pages, n, |pages| - n);
    assert pages[n..|pages|] == pages[n..] && pages[..|pages|] == pages;
    if SeqPages(c, s, k, pages[..n]).stop.Some? {
      StopIsFinal(c, s, k, pages, n);
    }
  }

  // ---- When the scan reads ahead too far ----

  lemma StopSpreads(c: Config, s: State, k: nat, pages: seq<PageNumber>, i: nat, j: nat)
    requires k < |c.volumes| == |s.stored| && i <= j <= |pages|
    requires SeqPages(c, s, k, pages[..i]).stop.Some?
    ensures SeqPages(c, s, k, pages[..j]).stop.Some?
  {
    assert pages[..j][..i] == pages[..i];
    StopIsFinal(c, s, k, pages[..j], i);
  }

  lemma GatedStops(c: Config, s: State, k: nat, pages: seq<PageNumber>, i: nat, j: nat)
    requires k < |c.volumes| == |s.stored| && i < j <= |pages|
    requires Gate(c, SeqPages(c, s, k, pages[..i]).spillUsed).Some?
    ensures SeqPages(c, s, k, pages[..j]).stop.Some?
  {
    NextPage(c, s, k, pages, i);
    if SeqPages(c, s, k, pages[..i]).stop.None? {
      RefusedIfGated(c, SeqPages(c, s, k, pages[..i]), k, pages[i]);
    }
    StopSpreads(c, s, k, pages, i + 1, j);
  }

  // A wave cut to the spill budget uses it up.
  lemma ShortWaveFills(c: Config, s: State, k: nat, wave: seq<PageNumber>)
    requires k < |c.volumes| == |s.stored| && s.stop.None? && Gate(c, s.spillUsed).None?
    requires |wave| == Admitted(c, s.spillUsed) < WaveCapacity(c)
    requires SeqPages(c, s, k, wave).stop.None?
    ensures Gate(c, SeqPages(c, s, k, wave).spillUsed).Some?
  {
    assert wave[..|wave|] == wave;
    WaveSpill(c, s, k, wave, |wave|);
  }

  predicate Multiple(n: nat, cap: nat)
    requires cap > 0
  {
    n == 0 || (n >= cap && Multiple(n - cap, cap))
  }

  // The last multiple of cap up to m.
  function LastStart(m: nat, cap: nat): (w: nat)
    requires cap > 0
    ensures Multiple(w, cap) && w <= m < w + cap
  {
    if m < cap then 0 else LastStart(m - cap, cap) + cap
  }

  lemma {:induction false} LastStartAt(m: nat, n: nat, cap: nat)
    requires cap > 0 && Multiple(n, cap) && n <= m
    ensures if m < n + cap then LastStart(m, cap) == n else n + cap <= LastStart(m, cap) <= m
    decreases n
  {
    if n > 0 {
      LastStartAt(m - cap, n - cap, cap);
    }
  }

  // Waves over positions 0 to m: whether the scan has stopped at each, and how many pages a wave
  // starting there holds.  Stops last, no room stops the scan at the next page, and only a wave
  // that leaves no room is shorter than the capacity.
  ghost predicate WaveLike(stopped: seq<bool>, room: seq<nat>, cap: nat)
  {
    && |stopped| == |room| > 0 && cap > 0
    && (forall i, j :: 0 <= i < j < |room| && stopped[i] ==> stopped[j])
    && (forall i :: 0 <= i < |room| - 1 && room[i] == 0 ==> stopped[i + 1])
    && (forall i :: 0 <= i < |room| ==> room[i] <= cap)
    && (forall i :: 0 <= i < |room| && room[i] < cap && i + room[i] < |room| && !stopped[i + room[i]] ==>
          room[i + room[i]] == 0)
  }

  // From a wave at n some wave ends beyond m, or starts there.
  ghost predicate Passes(stopped: seq<bool>, room: seq<nat>, n: nat)
    requires n < |stopped| == |room|
    decreases |room| - n
  {
    && !stopped[n]
    && (n == |room| - 1
        || (room[n] > 0 && (|room| <= n + room[n] || Passes(stopped, room, n + room[n]))))
  }

  lemma {:induction false} PassesIff(stopped: seq<bool>, room: seq<nat>, cap: nat, n: nat)
    requires WaveLike(stopped, room, cap) && n < |room| && Multiple(n, cap)
    ensures var m, w := |room| - 1, LastStart(|room| - 1, cap);
      Passes(stopped, room, n) <==> !stopped[m] || (!stopped[w] && m - w < room[w])
    decreases |room| - n
  {
    LastStartAt(|room| - 1, n, cap);
    if !stopped[n] && n < |room| - 1 && room[n] > 0 && n + room[n] < |room| && room[n] == cap {
      PassesIff(stopped, room, cap, n + cap);
    }
  }

  // Position i of a volume's pages.
  function StateAt(c: Config, s: State, k: nat, i: nat): State
    requires k < |c.volumes| == |s.stored| && i <= |PageNumbers(c.volumes[k])|
  {
    SeqPages(c, s, k, PageNumbers(c.volumes[k])[..i])
  }

  function Room(c: Config, spillUsed: nat): nat
  {
    if Gate(c, spillUsed).Some? then 0 else Admitted(c, spillUsed)
  }

  // What the scan of a volume looks like at each position.
  ghost predicate Traces(c: Config, s: State, k: nat, stopped: seq<bool>, room: seq<nat>)
    requires k < |c.volumes| == |s.stored|
  {
    && |stopped| == |room| == |PageNumbers(c.volumes[k])| + 1
    && (forall i :: 0 <= i < |room| ==> stopped[i] == StateAt(c, s, k, i).stop.Some?)
    && (forall i :: 0 <= i < |room| ==> room[i] == Room(c, StateAt(c, s, k, i).spillUsed))
  }

  lemma RoomWithinCapacity(c: Config, spillUsed: nat)
    ensures Room(c, spillUsed) <= WaveCapacity(c)
    ensures Room(c, spillUsed) == 0 <==> Gate(c, spillUsed).Some?
  {
  }

  lemma ShortWaveLeavesNone(c: Config, s: State, k: nat, i: nat)
    requires k < |c.volumes| == |s.stored| && i <= |PageNumbers(c.volumes[k])|
    requires var room := Room(c, StateAt(c, s, k, i).spillUsed);
      && 0 < room < WaveCapacity(c) && i + room <= |PageNumbers(c.volumes[k])|
      && StateAt(c, s, k, i + room).stop.None?
    ensures var room := Room(c, StateAt(c, s, k, i).spillUsed);
      Room(c, StateAt(c, s, k, i + room).spillUsed) == 0
  {
    var fit, t := PageNumbers(c.volumes[k]), StateAt(c, s, k, i);
    var room := Room(c, t.spillUsed);
    if t.stop.Some? {
      StopSpreads(c, s, k, fit, i, i + room);
    }
    WavesCompose(c, s, k, fit, i, room);
    ShortWaveFills(c, t, k, fit[i..i + room]);
    RoomWithinCapacity(c, StateAt(c, s, k, i + room).spillUsed);
  }

  lemma StopsLast(c: Config, s: State, k: nat, i: nat, j: nat)
    requires k < |c.volumes| == |s.stored| && i < j <= |PageNumbers(c.volumes[k])|
    ensures StateAt(c, s, k, i).stop.Some? ==> StateAt(c, s, k, j).stop.Some?
    ensures Room(c, StateAt(c, s, k, i).spillUsed) == 0 ==> StateAt(c, s, k, j).stop.Some?
  {
    var fit := PageNumbers(c.volumes[k]);
    if StateAt(c, s, k, i).stop.Some? {
      StopSpreads(c, s, k, fit, i, j);
    }
    RoomWithinCapacity(c, StateAt(c, s, k, i).spillUsed);
    if Gate(c, StateAt(c, s, k, i).spillUsed).Some? {
      GatedStops(c, s, k, fit, i, j);
    }
  }

  lemma TraceStops(c: Config, s: State, k: nat, stopped: seq<bool>, room: seq<nat>)
    requires k < |c.volumes| == |s.stored| && Traces(c, s, k, stopped, room)
    ensures forall i, j :: 0 <= i < j < |room| && stopped[i] ==> stopped[j]
    ensures forall i :: 0 <= i < |room| - 1 && room[i] == 0 ==> stopped[i + 1]
  {
    forall i, j | 0 <= i < j < |room|
      ensures stopped[i] || room[i] == 0 ==> stopped[j]
    {
      StopsLast(c, s, k, i, j);
    }
  }

  lemma TraceFills(c: Config, s: State, k: nat, stopped: seq<bool>, room: seq<nat>, i: nat)
    requires k < |c.volumes| == |s.stored| && Traces(c, s, k, stopped, room) && i < |room|
    ensures room[i] <= WaveCapacity(c)
    ensures room[i] < WaveCapacity(c) && i + room[i] < |room| && !stopped[i + room[i]] ==> room[i + room[i]] == 0
  {
    RoomWithinCapacity(c, StateAt(c, s, k, i).spillUsed);
    if 0 < room[i] < WaveCapacity(c) && i + room[i] < |room| && !stopped[i + room[i]] {
      ShortWaveLeavesNone(c, s, k, i);
    }
  }

  lemma ScanIsWaveLike(c: Config, s: State, k: nat, stopped: seq<bool>, room: seq<nat>)
    requires k < |c.volumes| == |s.stored| && Traces(c, s, k, stopped, room)
    ensures WaveLike(stopped, room, WaveCapacity(c))
  {
    TraceStops(c, s, k, stopped, room);
    forall i | 0 <= i < |room|
      ensures room[i] <= WaveCapacity(c)
      ensures room[i] < WaveCapacity(c) && i + room[i] < |room| && !stopped[i + room[i]] ==> room[i + room[i]] == 0
    {
      TraceFills(c, s, k, stopped, room, i);
    }
  }

  ghost predicate OverrunsAt(c: Config, s: State, k: nat, n: nat)
    requires k < |c.volumes| == |s.stored| && n <= |PageNumbers(c.volumes[k])|
  {
    Overruns(c, StateAt(c, s, k, n), k, PageNumbers(c.volumes[k])[n..], false)
  }

  lemma OverrunsFirst(c: Config, s: State, k: nat, rest: seq<PageNumber>)
    requires k < |c.volumes| == |s.stored|
    ensures var room := Room(c, s.spillUsed);
      Overruns(c, s, k, rest, false) <==>
        && s.stop.None?
        && (rest == []
            || (0 < room && (|rest| < room || Overruns(c, SeqPages(c, s, k, rest[..room]), k, rest[room..], false))))
  {
    RoomWithinCapacity(c, s.spillUsed);
  }

  lemma OverrunsStep(c: Config, s: State, k: nat, n: nat)
    requires k < |c.volumes| == |s.stored| && n <= |PageNumbers(c.volumes[k])|
    ensures var m := n + Room(c, StateAt(c, s, k, n).spillUsed);
      OverrunsAt(c, s, k, n) <==>
        && StateAt(c, s, k, n).stop.None?
        && (n == |PageNumbers(c.volumes[k])|
            || (n < m && (|PageNumbers(c.volumes[k])| < m || OverrunsAt(c, s, k, m))))
  {
    var fit, t := PageNumbers(c.volumes[k]), StateAt(c, s, k, n);
    var m := n + Room(c, t.spillUsed);
    OverrunsFirst(c, t, k, fit[n..]);
    if n < m <= |fit| {
      WavesCompose(c, s, k, fit, n, m - n);
      assert fit[n..][..m - n] == fit[n..m] && fit[n..][m - n..] == fit[m..];
    }
  }

  lemma {:induction false} OverrunsIsPasses(c: Config, s: State, k: nat, n: nat, stopped: seq<bool>, room: seq<nat>)
    requires k < |c.volumes| == |s.stored| && n <= |PageNumbers(c.volumes[k])|
    requires Traces(c, s, k, stopped, room)
    ensures OverrunsAt(c, s, k, n) <==> Passes(stopped, room, n)
    decreases |PageNumbers(c.volumes[k])| - n
  {
    OverrunsStep(c, s, k, n);
    var m := n + room[n];
    if n < m <= |PageNumbers(c.volumes[k])| {
      OverrunsIsPasses(c, s, k, m, stopped, room);
    }
  }

  lemma OverrunsIff(c: Config, s: State, k: nat)
    requires k < |c.volumes| == |s.stored|
    ensures OverrunsAt(c, s, k, 0) <==>
      StateAt(c, s, k, |PageNumbers(c.volumes[k])|).stop.None? || LastWaveReaches(c, s, k)
  {
    var n := |PageNumbers(c.volumes[k])| + 1;
    var stopped := seq(n, i requires 0 <= i < n => StateAt(c, s, k, i).stop.Some?);
    var room := seq(n, i requires 0 <= i < n => Room(c, StateAt(c, s, k, i).spillUsed));
    OverrunsIsPasses(c, s, k, 0, stopped, room);
    ScanIsWaveLike(c, s, k, stopped, room);
    PassesIff(stopped, room, WaveCapacity(c), 0);
  }

  // The wave that would hold the last pages the cursor can yield, which starts on a multiple of
  // the wave capacity, is scanned and has room for more.
  ghost predicate LastWaveReaches(c: Config, s: State, k: nat)
    requires k < |c.volumes| == |s.stored|
  {
    var m := |PageNumbers(c.volumes[k])|;
    var w := LastStart(m, WaveCapacity(c));
    StateAt(c, s, k, w).stop.None? && m - w < Room(c, StateAt(c, s, k, w).spillUsed)
  }

  // The scan of a volume asks for a page beyond i32 exactly if the volume has one and either the
  // sequential scan gets through all pages before it, or the wave with the last of them is
  // scanned and has room for more.
  lemma VolumeOverrunsIff(c: Config, k: nat)
    requires k < |c.volumes|
    ensures VolumeOverruns(c, k) <==>
      && !Whole(c.volumes[k])
      && (SeqVolumes(c, k + 1).stop.None? || LastWaveReaches(c, SeqVolumes(c, k), k))
  {
    var s, fit := SeqVolumes(c, k), PageNumbers(c.volumes[k]);
    assert fit[..0] == [] && fit[0..] == fit && fit[..|fit|] == fit;
    assert StateAt(c, s, k, 0) == s && StateAt(c, s, k, |fit|) == SeqVolumes(c, k + 1);
    if !Whole(c.volumes[k]) {
      OverrunsIff(c, s, k);
    }
  }

  // A scan that neither stops nor asks for a page beyond i32 visits every eligible page.
  lemma UnstoppedScanIsComplete(c: Config)
    requires !ScanOverruns(c) && SequentialScan(c).stop.None?
    ensures SequentialScan(c).evaluated == SequentialScan(c).conclusive == EligibleTotal(c.volumes)
    ensures forall k :: 0 <= k < |c.volumes| ==> PageNumbers(c.volumes[k]) == EligiblePages(c.volumes[k])
  {
    forall k | 0 <= k < |c.volumes|
      ensures Whole(c.volumes[k])
    {
      if SeqVolumes(c, k + 1).stop.Some? {
        StoppedVolumes(c, k + 1, |c.volumes|);
      }
      VolumeOverrunsIff(c, k);
      assert !VolumeOverruns(c, k);
    }
    WholeScanIsComplete(c);
  }
}
