// What a re-read of the follow loop has behind it: the settle brake of `should_rescan` stated
// over the turns that led to it.
module FollowHistory {
  import opened Wrappers
  import opened Bits
  import opened LiveSource
  import opened Follow

  predicate ObservedAt(events: seq<Event>, i: nat)
    requires i < |events|
  {
    events[i].Turn? && events[i].tick.observation.Observed?
  }

  function SeenAt(events: seq<Event>, i: nat): nat
    requires i < |events| && ObservedAt(events, i)
  {
    events[i].tick.observation.fingerprint
  }

  // From turn m on every readable manifest is this one.
  ghost predicate HeldStill(events: seq<Event>, m: nat, fingerprint: nat)
  {
    forall i :: m <= i < |events| && ObservedAt(events, i) ==> SeenAt(events, i) == fingerprint
  }

  // From turn f on every readable manifest differs from the one on display.
  ghost predicate StayedAway(events: seq<Event>, f: nat, display: Option<nat>)
  {
    forall i :: f <= i < |events| && ObservedAt(events, i) ==> Some(SeenAt(events, i)) != display
  }

  // The pending change was first seen at turn f and last moved at turn m.
  ghost predicate Dated(events: seq<Event>, t: FollowState, f: nat, m: nat)
  {
    && t.pending.Some?
    && f <= m < |events| && ObservedAt(events, f) && ObservedAt(events, m)
    && events[f].tick.now == t.pending.value.firstAt
    && events[m].tick.now == t.pending.value.movedAt
    && HeldStill(events, m, t.pending.value.observed)
    && StayedAway(events, f, CurrentFingerprintOf(t.live))
  }

  ghost predicate HasDates(events: seq<Event>, t: FollowState)
  {
    t.running && t.pending.Some? ==> exists f: nat, m: nat :: Dated(events, t, f, m)
  }

  // An event that sees nothing new leaves the dates as they are.
  lemma DatesCarryOver(before: seq<Event>, t: FollowState, f: nat, m: nat, e: Event, t': FollowState)
    requires Dated(before, t, f, m) && t'.pending == t.pending
    requires CurrentFingerprintOf(t'.live) == CurrentFingerprintOf(t.live)
    requires e.Turn? && e.tick.observation.Observed? ==>
      && e.tick.observation.fingerprint == t.pending.value.observed
      && Some(e.tick.observation.fingerprint) != CurrentFingerprintOf(t.live)
    ensures Dated(before + [e], t', f, m)
  {
    var events := before + [e];
    assert forall i :: 0 <= i < |before| ==> events[i] == before[i];
    forall i | m <= i < |events| && ObservedAt(events, i)
      ensures SeenAt(events, i) == t.pending.value.observed
    {
      if i < |before| {
        assert ObservedAt(before, i);
      }
    }
    forall i | f <= i < |events| && ObservedAt(events, i)
      ensures Some(SeenAt(events, i)) != CurrentFingerprintOf(t.live)
    {
      if i < |before| {
        assert ObservedAt(before, i);
      }
    }
  }

  // A manifest that moved again: last moved now, first seen when it was.
  lemma DatesMove(before: seq<Event>, t: FollowState, f: nat, m: nat, e: Event, t': FollowState)
    requires Dated(before, t, f, m) && e.Turn? && e.tick.observation.Observed?
    requires t'.pending == Some(PendingChange(t.pending.value.firstAt, e.tick.now, e.tick.observation.fingerprint))
    requires CurrentFingerprintOf(t'.live) == CurrentFingerprintOf(t.live)
    requires Some(e.tick.observation.fingerprint) != CurrentFingerprintOf(t.live)
    ensures Dated(before + [e], t', f, |before|)
  {
    var events := before + [e];
    assert forall i :: 0 <= i < |before| ==> events[i] == before[i];
    forall i | f <= i < |events| && ObservedAt(events, i)
      ensures Some(SeenAt(events, i)) != CurrentFingerprintOf(t.live)
    {
      if i < |before| {
        assert ObservedAt(before, i);
      }
    }
  }

  lemma DatesBegin(before: seq<Event>, e: Event, t': FollowState)
    requires e.Turn? && e.tick.observation.Observed?
    requires t'.pending == Some(PendingChange(e.tick.now, e.tick.now, e.tick.observation.fingerprint))
    requires Some(e.tick.observation.fingerprint) != CurrentFingerprintOf(t'.live)
    ensures Dated(before + [e], t', |before|, |before|)
  {
  }

  // A readable turn after which a change is pending.
  lemma TurnIsDated(config: FollowConfig, before: seq<Event>, t: FollowState, tick: Tick)
    requires HasDates(before, t) && CurrentFingerprintOf(t.live).Some? && t.running
    requires tick.observation.Observed?
    ensures HasDates(before + [Turn(tick)], TurnTaken(config, t, tick))
  {
    var t', e := TurnTaken(config, t, tick), Turn(tick);
    if t'.running && t'.pending.Some? {
      var seen := tick.observation.fingerprint;
      assert t'.pending == Some(Tracked(t.pending, tick.now, seen));
      assert CurrentFingerprintOf(t'.live) == CurrentFingerprintOf(t.live);
      if t.pending.None? {
        DatesBegin(before, e, t');
      } else {
        var f: nat, m: nat :| Dated(before, t, f, m);
        if t.pending.value.observed == seen {
          DatesCarryOver(before, t, f, m, e, t');
        } else {
          DatesMove(before, t, f, m, e, t');
        }
      }
    }
  }

  lemma EventIsDated(config: FollowConfig, before: seq<Event>, t: FollowState, e: Event)
    requires HasDates(before, t) && CurrentFingerprintOf(t.live).Some?
    ensures HasDates(before + [e], Happens(config, t, e))
  {
    var t' := Happens(config, t, e);
    if e.Turn? && e.tick.observation.Observed? && t.running {
      TurnIsDated(config, before, t, e.tick);
    } else if t'.running && t'.pending.Some? {
      var f: nat, m: nat :| Dated(before, t, f, m);
      DatesCarryOver(before, t, f, m, e, t');
    }
  }

  lemma {:induction false} RunIsDated(config: FollowConfig, seed: View, at: nat, startedAt: nat, events: seq<Event>)
    requires ClockRuns(startedAt, events)
    requires PublishCount(config, Start(seed, at, startedAt), events) < U64_MAX
    ensures HasDates(events, After(config, Start(seed, at, startedAt), events))
    decreases |events|
  {
    if events != [] {
      var before, e := events[..|events| - 1], events[|events| - 1];
      var s := Start(seed, at, startedAt);
      RunIsDated(config, seed, at, startedAt, before);
      PendingIsHonest(config, seed, at, startedAt, before);
      EventIsDated(config, before, After(config, s, before), e);
      assert before + [e] == events;
    }
  }

  // Every re-read of every run is earned.  Either the manifest it reacts to is what every
  // readable turn of at least the quiet period has seen, or every readable turn of at least the
  // staleness ceiling has seen a manifest other than the one on display.
  lemma RereadIsEarned(config: FollowConfig, seed: View, at: nat, startedAt: nat, events: seq<Event>, tick: Tick)
    returns (m: nat)
    requires ClockRuns(startedAt, events) && WillScan(config, After(config, Start(seed, at, startedAt), events), tick)
    requires PublishCount(config, Start(seed, at, startedAt), events) < U64_MAX
    ensures var all, t := events + [Turn(tick)], After(config, Start(seed, at, startedAt), events);
      && m < |all| && ObservedAt(all, m)
      && ((Since(tick.now, all[m].tick.now) >= config.quietPeriod
           && HeldStill(all, m, tick.observation.fingerprint))
          || (Since(tick.now, all[m].tick.now) >= config.maxDefer
              && StayedAway(all, m, CurrentFingerprintOf(t.live))))
  {
    var t := After(config, Start(seed, at, startedAt), events);
    RunIsDated(config, seed, at, startedAt, events);
    var failed := tick.(outcome := ScanFailed);
    TurnIsDated(config, events, t, failed);
    FailedScanKeepsChange(config, t, tick);
    var change := Tracked(t.pending, tick.now, tick.observation.fingerprint);
    var f: nat, n: nat :| Dated(events + [Turn(failed)], TurnTaken(config, t, failed), f, n);
    m := if Since(tick.now, change.movedAt) >= config.quietPeriod then n else f;
    SameTurn(events, tick, failed, m, tick.observation.fingerprint, CurrentFingerprintOf(t.live));
  }

  // The same turn with a scan that fails keeps the change it reacted to.
  lemma FailedScanKeepsChange(config: FollowConfig, t: FollowState, tick: Tick)
    requires WillScan(config, t, tick)
    ensures var t' := TurnTaken(config, t, tick.(outcome := ScanFailed));
      && t'.running && t'.live.generations == t.live.generations && t'.live.current == t.live.current
      && t'.pending == Some(Tracked(t.pending, tick.now, tick.observation.fingerprint))
    ensures var change := Tracked(t.pending, tick.now, tick.observation.fingerprint);
      Since(tick.now, change.movedAt) >= config.quietPeriod || Since(tick.now, change.firstAt) >= config.maxDefer
  {
  }

  lemma SameTurn(events: seq<Event>, tick: Tick, other: Tick, m: nat, seen: nat, display: Option<nat>)
    requires m <= |events| && other == tick.(outcome := other.outcome)
    ensures var a, b := events + [Turn(tick)], events + [Turn(other)];
      && (ObservedAt(a, m) <==> ObservedAt(b, m))
      && (ObservedAt(b, m) ==> a[m].tick.now == b[m].tick.now)
      && (HeldStill(b, m, seen) ==> HeldStill(a, m, seen))
      && (StayedAway(b, m, display) ==> StayedAway(a, m, display))
  {
    var a, b := events + [Turn(tick)], events + [Turn(other)];
    forall i | 0 <= i < |a|
      ensures ObservedAt(a, i) <==> ObservedAt(b, i)
      ensures ObservedAt(a, i) ==> SeenAt(a, i) == SeenAt(b, i)
    {
      assert i < |events| ==> a[i] == events[i] == b[i];
    }
  }
}
