// The poll-and-debounce loop of a live session: `should_rescan` and `follow` in `src/follow.rs`.
// Time is a nondecreasing natural number.
module Follow {
  import opened Wrappers
  import opened Bits
  import opened LiveSource

  datatype FollowConfig = FollowConfig(quietPeriod: nat, maxDefer: nat, minIdle: nat, retain: nat)

  datatype RescanInputs = RescanInputs(
    changePending: bool, sinceLastChange: nat, sinceFirstChange: nat, sinceLastScan: nat, lastScanDuration: nat)

  predicate ShouldRescan(inputs: RescanInputs, config: FollowConfig)
  {
    && inputs.changePending
    && (inputs.sinceLastChange >= config.quietPeriod || inputs.sinceFirstChange >= config.maxDefer)
    && inputs.sinceLastScan >= Max(config.minIdle, inputs.lastScanDuration)
  }

  datatype PendingChange = PendingChange(firstAt: nat, movedAt: nat, observed: nat)

  // `Lost` stands for a blocking task that did not come back; it ends the loop.
  datatype Observation = Unreadable | Observed(fingerprint: nat) | ObservationLost
  datatype ScanOutcome = Scanned(view: View) | ScanFailed | ScanLost

  // One turn of the loop: what it would observe, the clock readings it takes, and how a scan
  // would end if it started one.  `elapsedAt` closes the measured duration, `endedAt` is the
  // clock reading kept as the time of the scan.
  datatype Tick = Tick(observation: Observation, now: nat, began: nat, elapsedAt: nat, endedAt: nat, at: nat,
                       outcome: ScanOutcome)

  datatype Event = Turn(tick: Tick) | Enrich(generation: nat, view: View)

  datatype FollowState = FollowState(
    live: LiveState, pending: Option<PendingChange>, lastScanAt: nat, lastScanDuration: nat, running: bool)

  function Since(now: nat, earlier: nat): nat
  {
    if now > earlier then now - earlier else 0
  }

  // ---- One turn on values ----

  // The pending change after a manifest that differs from the current generation's was seen.
  function Tracked(pending: Option<PendingChange>, now: nat, observed: nat): PendingChange
  {
    match pending
    case None => PendingChange(now, now, observed)
    case Some(change) =>
      if change.observed == observed then change else PendingChange(change.firstAt, now, observed)
  }

  function InputsAt(s: FollowState, change: PendingChange, now: nat): RescanInputs
  {
    RescanInputs(true, Since(now, change.movedAt), Since(now, change.firstAt), Since(now, s.lastScanAt),
                 s.lastScanDuration)
  }

  predicate Differs(s: FollowState, tick: Tick)
  {
    && CurrentFingerprintOf(s.live).Some?
    && tick.observation.Observed?
    && tick.observation.fingerprint != CurrentFingerprintOf(s.live).value
  }

  predicate WillScan(config: FollowConfig, s: FollowState, tick: Tick)
  {
    && s.running && Differs(s, tick)
    && ShouldRescan(InputsAt(s, Tracked(s.pending, tick.now, tick.observation.fingerprint), tick.now), config)
  }

  function Duration(tick: Tick): nat
  {
    Since(tick.elapsedAt, tick.began)
  }

  function WithScan(config: FollowConfig, s: FollowState, tick: Tick): FollowState
  {
    var timed := s.(lastScanAt := tick.endedAt, lastScanDuration := Duration(tick));
    match tick.outcome
    case Scanned(view) =>
      timed.(pending := None, live := Published(s.live, config.retain, view, tick.at, Duration(tick)))
    case ScanFailed => timed
    case ScanLost => timed.(running := false)
  }

  function TurnTaken(config: FollowConfig, s: FollowState, tick: Tick): FollowState
  {
    if !s.running || CurrentFingerprintOf(s.live).None? || tick.observation.Unreadable? then s
    else if tick.observation.ObservationLost? then s.(running := false)
    else if !Differs(s, tick) then
      if s.pending.None? then s
      else s.(pending := None, live := s.live.(changePending := false))
    else
      var change := Tracked(s.pending, tick.now, tick.observation.fingerprint);
      var tracked := s.(pending := Some(change),
                        live := if s.pending.None? then s.live.(changePending := true) else s.live);
      if WillScan(config, s, tick) then WithScan(config, tracked, tick) else tracked
  }

  // ---- The loop ----

  class Follower {
    const config: FollowConfig
    const source: LiveSource
    var pending: Option<PendingChange>
    var lastScanAt: nat
    var lastScanDuration: nat
    var running: bool

    ghost function State(): FollowState
      reads this, source
    {
      FollowState(source.State(), pending, lastScanAt, lastScanDuration, running)
    }

    constructor (live: LiveSource, settings: FollowConfig, startedAt: nat)
      ensures State() == FollowState(live.State(), None, startedAt, 0, true)
      ensures source == live && config == settings
    {
      source, config := live, settings;
      pending, lastScanAt, lastScanDuration, running := None, startedAt, 0, true;
    }

    // The manifest differs from the generation on display.
    method TrackChange(now: nat, observed: nat) returns (change: PendingChange)
      modifies this`pending, source`changePending
      ensures change == Tracked(old(pending), now, observed) && pending == Some(change)
      ensures source.State() ==
        if old(pending).None? then old(source.State()).(changePending := true) else old(source.State())
    {
      match pending {
        case None =>
          pending := Some(PendingChange(now, now, observed));
          source.NoteChangePending(true);
        case Some(known) =>
          if known.observed != observed {
            pending := Some(PendingChange(known.firstAt, now, observed));
          }
      }
      change := pending.value;
    }

    method Rescan(tick: Tick)
      requires source.retain == config.retain
      modifies this, source
      ensures State() == WithScan(config, old(State()), tick)
    {
      lastScanDuration := Since(tick.elapsedAt, tick.began);
      lastScanAt := tick.endedAt;
      match tick.outcome {
        case Scanned(view) =>
          pending := None;
          var number := source.Publish(view, tick.at, lastScanDuration);
        case ScanFailed =>
        case ScanLost =>
          running := false;
      }
    }

    method TakeTurn(tick: Tick)
      requires source.retain == config.retain
      modifies this, source
      ensures State() == TurnTaken(config, old(State()), tick)
    {
      if !running {
        return;
      }
      var known := source.CurrentFingerprint();
      if known.None? || tick.observation.Unreadable? {
        return;
      }
      if tick.observation.ObservationLost? {
        running := false;
        return;
      }
      var observed := tick.observation.fingerprint;
      if observed == known.value {
        if pending.Some? {
          pending := None;
          source.NoteChangePending(false);
        }
        return;
      }
      var change := TrackChange(tick.now, observed);
      var inputs := RescanInputs(true, Since(tick.now, change.movedAt), Since(tick.now, change.firstAt),
                                 Since(tick.now, lastScanAt), lastScanDuration);
      if ShouldRescan(inputs, config) {
        Rescan(tick);
      }
    }
  }

  // ---- Runs: turns of the loop with enrichments published in between ----

  function Start(seed: View, at: nat, startedAt: nat): FollowState
  {
    FollowState(Seeded(seed, at), None, startedAt, 0, true)
  }

  function Happens(config: FollowConfig, s: FollowState, e: Event): FollowState
  {
    match e
    case Turn(tick) => TurnTaken(config, s, tick)
    case Enrich(generation, view) => s.(live := Revised(s.live, generation, view))
  }

  function After(config: FollowConfig, s: FollowState, events: seq<Event>): FollowState
  {
    if events == [] then s
    else Happens(config, After(config, s, events[..|events| - 1]), events[|events| - 1])
  }

  datatype ScanRecord = ScanRecord(began: nat, duration: nat, endedAt: nat)

  predicate Rescans(config: FollowConfig, s: FollowState, e: Event)
  {
    e.Turn? && WillScan(config, s, e.tick)
  }

  // The re-reads a run makes, in order.
  function ScanLog(config: FollowConfig, s: FollowState, events: seq<Event>): seq<ScanRecord>
  {
    if events == [] then []
    else
      var before, e := events[..|events| - 1], events[|events| - 1];
      ScanLog(config, s, before)
      + if Rescans(config, After(config, s, before), e)
        then [ScanRecord(e.tick.began, Duration(e.tick), e.tick.endedAt)] else []
  }

  predicate TickOrdered(tick: Tick)
  {
    tick.now <= tick.began <= tick.elapsedAt <= tick.endedAt
  }

  // The clock readings of successive turns do not go back.
  predicate ClockRuns(startedAt: nat, events: seq<Event>)
  {
    && (forall i :: 0 <= i < |events| && events[i].Turn? ==>
          startedAt <= events[i].tick.now && TickOrdered(events[i].tick))
    && (forall i, j :: 0 <= i < j < |events| && events[i].Turn? && events[j].Turn? ==>
          events[i].tick.endedAt <= events[j].tick.now)
  }

  // ---- The load brake ----

  // The time from the end of one re-read to the start of the next is at least the minimum idle
  // time and at least the duration of the earlier one.
  ghost predicate Spaced(config: FollowConfig, log: seq<ScanRecord>)
  {
    forall i :: 0 <= i < |log| - 1 ==>
      log[i + 1].began >= log[i].endedAt + Max(config.minIdle, log[i].duration)
  }

  ghost predicate LastScanKnown(s: FollowState, startedAt: nat, log: seq<ScanRecord>)
  {
    if log == [] then s.lastScanAt == startedAt && s.lastScanDuration == 0
    else s.lastScanAt == log[|log| - 1].endedAt && s.lastScanDuration == log[|log| - 1].duration
  }

  lemma HappensKeepsTimes(config: FollowConfig, s: FollowState, e: Event)
    ensures var t := Happens(config, s, e);
      && (!Rescans(config, s, e) ==> t.lastScanAt == s.lastScanAt && t.lastScanDuration == s.lastScanDuration)
      && (Rescans(config, s, e) ==>
            && t.lastScanAt == e.tick.endedAt && t.lastScanDuration == Duration(e.tick)
            && Since(e.tick.now, s.lastScanAt) >= Max(config.minIdle, s.lastScanDuration))
  {
  }

  lemma {:induction false} LogWithin(config: FollowConfig, s: FollowState, events: seq<Event>, end: nat)
    requires forall i :: 0 <= i < |events| && events[i].Turn? ==> events[i].tick.endedAt <= end
    ensures forall i :: 0 <= i < |ScanLog(config, s, events)| ==> ScanLog(config, s, events)[i].endedAt <= end
  {
    if events != [] {
      LogWithin(config, s, events[..|events| - 1], end);
    }
  }

  // What the run so far says about its re-reads.
  ghost predicate LogOk(config: FollowConfig, s: FollowState, startedAt: nat, log: seq<ScanRecord>)
  {
    && Spaced(config, log)
    && LastScanKnown(s, startedAt, log)
    && (log != [] ==> log[0].began >= startedAt + config.minIdle)
    && (forall i :: 0 <= i < |log| ==> log[i].began + log[i].duration <= log[i].endedAt)
  }

  lemma EventKeepsLog(config: FollowConfig, s: FollowState, startedAt: nat, log: seq<ScanRecord>, e: Event)
    requires LogOk(config, s, startedAt, log)
    requires e.Turn? ==> startedAt <= e.tick.now && TickOrdered(e.tick)
    requires e.Turn? ==> forall i :: 0 <= i < |log| ==> log[i].endedAt <= e.tick.now
    ensures LogOk(config, Happens(config, s, e), startedAt,
                  log + if Rescans(config, s, e)
                        then [ScanRecord(e.tick.began, Duration(e.tick), e.tick.endedAt)] else [])
  {
    HappensKeepsTimes(config, s, e);
    if !Rescans(config, s, e) {
      assert log + [] == log;
    } else {
      assert log != [] ==> log[|log| - 1].endedAt <= e.tick.now;
    }
  }

  // Consecutive re-reads of every run are spaced, and the first waits out the minimum idle time.
  lemma {:induction false} RereadsAreSpaced(config: FollowConfig, seed: View, at: nat, startedAt: nat, events: seq<Event>)
    requires ClockRuns(startedAt, events)
    ensures LogOk(config, After(config, Start(seed, at, startedAt), events), startedAt,
                  ScanLog(config, Start(seed, at, startedAt), events))
    decreases |events|
  {
    if events != [] {
      var s := Start(seed, at, startedAt);
      var before, e := events[..|events| - 1], events[|events| - 1];
      RereadsAreSpaced(config, seed, at, startedAt, before);
      if e.Turn? {
        LogWithin(config, s, before, e.tick.now);
      }
      EventKeepsLog(config, After(config, s, before), startedAt, ScanLog(config, s, before), e);
    }
  }

  // Scan time, the last scan excluded.
  function BusyTime(log: seq<ScanRecord>): nat
  {
    if |log| <= 1 then 0 else BusyTime(log[..|log| - 1]) + log[|log| - 2].duration
  }

  // Time between the end of each scan and the start of the next.
  function IdleTime(log: seq<ScanRecord>): int
  {
    if |log| <= 1 then 0 else IdleTime(log[..|log| - 1]) + log[|log| - 1].began - log[|log| - 2].endedAt
  }

  lemma {:induction false} SpacedLogIsIdle(config: FollowConfig, log: seq<ScanRecord>)
    requires Spaced(config, log)
    ensures BusyTime(log) <= IdleTime(log)
  {
    if |log| > 1 {
      var q := log[..|log| - 1];
      forall i | 0 <= i < |q| - 1
        ensures q[i + 1].began >= q[i].endedAt + Max(config.minIdle, q[i].duration)
      {
        assert q[i] == log[i] && q[i + 1] == log[i + 1];
      }
      SpacedLogIsIdle(config, q);
      assert log[|log| - 2 + 1] == log[|log| - 1];
    }
  }

  // The duty cycle: over every run, the time spent scanning before the last re-read is at most
  // the idle time between re-reads.
  lemma DutyCycle(config: FollowConfig, seed: View, at: nat, startedAt: nat, events: seq<Event>)
    requires ClockRuns(startedAt, events)
    ensures var log := ScanLog(config, Start(seed, at, startedAt), events);
      BusyTime(log) <= IdleTime(log)
  {
    RereadsAreSpaced(config, seed, at, startedAt, events);
    SpacedLogIsIdle(config, ScanLog(config, Start(seed, at, startedAt), events));
  }

  // ---- The pending change ----

  // A change is pending exactly when the session says so, and the manifest it holds differs
  // from the one on display; its times lie in order.
  ghost predicate PendingOk(s: FollowState, retain: nat, k: nat)
  {
    && WindowHolds(s.live, retain, k)
    && s.live.generations[k].fingerprint.Some?
    && (s.pending.Some? <==> s.live.changePending)
    && (s.pending.Some? ==>
          && s.pending.value.firstAt <= s.pending.value.movedAt
          && CurrentFingerprintOf(s.live) != Some(s.pending.value.observed))
  }

  function PublishCount(config: FollowConfig, s: FollowState, events: seq<Event>): nat
  {
    if events == [] then 0
    else
      var before, e := events[..|events| - 1], events[|events| - 1];
      PublishCount(config, s, before)
      + if Rescans(config, After(config, s, before), e) && e.tick.outcome.Scanned? then 1 else 0
  }

  lemma EventKeepsPending(config: FollowConfig, s: FollowState, k: nat, e: Event)
    requires PendingOk(s, config.retain, k) && k < U64_MAX
    requires e.Turn? && s.pending.Some? ==> s.pending.value.movedAt <= e.tick.now
    ensures PendingOk(Happens(config, s, e), config.retain,
                      k + if Rescans(config, s, e) && e.tick.outcome.Scanned? then 1 else 0)
  {
    if Rescans(config, s, e) && e.tick.outcome.Scanned? {
      var change := Tracked(s.pending, e.tick.now, e.tick.observation.fingerprint);
      PublishKeepsWindow(s.live.(changePending := true), config.retain, k, e.tick.outcome.view, e.tick.at,
                         Duration(e.tick));
      PublishForgetsPending(s.live, config.retain, e.tick.outcome.view, e.tick.at, Duration(e.tick));
    }
  }

  lemma PublishForgetsPending(live: LiveState, retain: nat, view: View, at: nat, duration: nat)
    ensures Published(live.(changePending := true), retain, view, at, duration)
         == Published(live, retain, view, at, duration)
  {
  }

  lemma {:induction false} PendingSince(config: FollowConfig, s: FollowState, events: seq<Event>, now: nat)
    requires s.pending.None?
    requires forall i :: 0 <= i < |events| && events[i].Turn? ==> events[i].tick.now <= now
    ensures After(config, s, events).pending.Some? ==> After(config, s, events).pending.value.movedAt <= now
  {
    if events != [] {
      PendingSince(config, s, events[..|events| - 1], now);
    }
  }

  lemma EarlierTurns(startedAt: nat, events: seq<Event>)
    requires ClockRuns(startedAt, events) && events != [] && events[|events| - 1].Turn?
    ensures var before := events[..|events| - 1];
      forall i :: 0 <= i < |before| && before[i].Turn? ==> before[i].tick.now <= events[|events| - 1].tick.now
  {
  }

  // Over every run: a change is pending iff the session is marked so, its manifest is not the
  // one on display, and the display is the newest published generation.
  lemma {:induction false} PendingIsHonest(config: FollowConfig, seed: View, at: nat, startedAt: nat, events: seq<Event>)
    requires ClockRuns(startedAt, events)
    requires PublishCount(config, Start(seed, at, startedAt), events) < U64_MAX
    ensures PendingOk(After(config, Start(seed, at, startedAt), events), config.retain,
                      PublishCount(config, Start(seed, at, startedAt), events))
    decreases |events|
  {
    var s := Start(seed, at, startedAt);
    if events == [] {
      StartIsOk(config, seed, at, startedAt);
    } else {
      PendingIsHonest(config, seed, at, startedAt, events[..|events| - 1]);
      LastKeepsPending(config, s, startedAt, events);
    }
  }

  lemma OneMoreEvent(config: FollowConfig, s: FollowState, events: seq<Event>)
    requires events != []
    ensures var before, e := events[..|events| - 1], events[|events| - 1];
      var middle := After(config, s, before);
      && After(config, s, events) == Happens(config, middle, e)
      && PublishCount(config, s, events)
         == PublishCount(config, s, before) + if Rescans(config, middle, e) && e.tick.outcome.Scanned? then 1 else 0
  {
  }

  lemma LastKeepsPending(config: FollowConfig, s: FollowState, startedAt: nat, events: seq<Event>)
    requires events != [] && s.pending.None? && ClockRuns(startedAt, events)
    requires var before := events[..|events| - 1];
      && PublishCount(config, s, before) < U64_MAX
      && PendingOk(After(config, s, before), config.retain, PublishCount(config, s, before))
    ensures PendingOk(After(config, s, events), config.retain, PublishCount(config, s, events))
  {
    var before, e := events[..|events| - 1], events[|events| - 1];
    var middle, k := After(config, s, before), PublishCount(config, s, before);
    OneMoreEvent(config, s, events);
    if e.Turn? {
      EarlierTurns(startedAt, events);
      PendingSince(config, s, before, e.tick.now);
    }
    EventKeepsPending(config, middle, k, e);
  }

  lemma StartIsOk(config: FollowConfig, seed: View, at: nat, startedAt: nat)
    ensures PendingOk(Start(seed, at, startedAt), config.retain, 0)
  {
    RunHoldsWindow(seed, at, config.retain, []);
  }

  // ---- Staleness and quiescence ----

  // Every readable manifest in these events differs from the one on display at the start, no
  // task is lost and nothing is re-read.
  ghost predicate KeepsDiffering(config: FollowConfig, s: FollowState, events: seq<Event>)
  {
    forall i :: 0 <= i < |events| ==>
      && !Rescans(config, After(config, s, events[..i]), events[i])
      && (events[i].Turn? ==>
            && !events[i].tick.observation.ObservationLost?
            && (events[i].tick.observation.Observed? ==>
                  CurrentFingerprintOf(s.live) != Some(events[i].tick.observation.fingerprint)))
  }

  lemma {:induction false} ChangeStaysPending(config: FollowConfig, s: FollowState, events: seq<Event>)
    requires s.running && CurrentFingerprintOf(s.live).Some? && s.pending.Some?
    requires KeepsDiffering(config, s, events)
    ensures var t := After(config, s, events);
      && t.running && CurrentFingerprintOf(t.live) == CurrentFingerprintOf(s.live)
      && t.pending.Some? && t.pending.value.firstAt == s.pending.value.firstAt
      && t.lastScanAt == s.lastScanAt && t.lastScanDuration == s.lastScanDuration
    decreases |events|
  {
    if events != [] {
      var before := events[..|events| - 1];
      forall i | 0 <= i < |before|
        ensures before[..i] == events[..i] && before[i] == events[i]
      {
      }
      ChangeStaysPending(config, s, before);
      assert events[..|events| - 1] == before;
      StaysPendingOnce(config, After(config, s, before), events[|events| - 1]);
    }
  }

  lemma StaysPendingOnce(config: FollowConfig, s: FollowState, e: Event)
    requires s.running && CurrentFingerprintOf(s.live).Some? && s.pending.Some?
    requires !Rescans(config, s, e)
    requires e.Turn? ==>
      && !e.tick.observation.ObservationLost?
      && (e.tick.observation.Observed? ==> e.tick.observation.fingerprint != CurrentFingerprintOf(s.live).value)
    ensures var t := Happens(config, s, e);
      && t.running && CurrentFingerprintOf(t.live) == CurrentFingerprintOf(s.live)
      && t.pending.Some? && t.pending.value.firstAt == s.pending.value.firstAt
      && t.lastScanAt == s.lastScanAt && t.lastScanDuration == s.lastScanDuration
  {
  }

  // A manifest that keeps differing from the display, however often it moves, is re-read at the
  // first turn past both the staleness ceiling and the idle gap.
  lemma StaleInputIsReread(config: FollowConfig, s: FollowState, events: seq<Event>, last: Tick)
    requires s.running && CurrentFingerprintOf(s.live).Some? && s.pending.Some?
    requires KeepsDiffering(config, s, events)
    requires last.observation.Observed? && last.observation.fingerprint != CurrentFingerprintOf(s.live).value
    requires Since(last.now, s.pending.value.firstAt) >= config.maxDefer
    requires Since(last.now, s.lastScanAt) >= Max(config.minIdle, s.lastScanDuration)
    ensures WillScan(config, After(config, s, events), last)
  {
    ChangeStaysPending(config, s, events);
  }

  // An input whose manifest equals the display is never re-read and leaves no change pending.
  lemma {:induction false} UnchangedInputIsNotReread(config: FollowConfig, s: FollowState, events: seq<Event>)
    requires CurrentFingerprintOf(s.live).Some?
    requires forall i :: 0 <= i < |events| && events[i].Turn? && events[i].tick.observation.Observed? ==>
      events[i].tick.observation.fingerprint == CurrentFingerprintOf(s.live).value
    ensures ScanLog(config, s, events) == []
    ensures After(config, s, events).live.current == s.live.current
    ensures CurrentFingerprintOf(After(config, s, events).live) == CurrentFingerprintOf(s.live)
    ensures s.pending.None? ==> After(config, s, events).pending.None?
    decreases |events|
  {
    if events != [] {
      var before := events[..|events| - 1];
      UnchangedInputIsNotReread(config, s, before);
    }
  }
}
