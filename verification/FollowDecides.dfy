// When the follow loop re-reads, turn by turn: `should_rescan` and `follow` in `src/follow.rs`
// stated over what the turns of a run have seen, their times and the re-reads before.
module FollowDecides {
  import opened Wrappers
  import opened Bits
  import opened LiveSource
  import opened Follow

  predicate Sees(events: seq<Event>, i: nat)
  {
    i < |events| && events[i].Turn? && events[i].tick.observation.Observed?
  }

  function Seen(events: seq<Event>, i: nat): nat
    requires Sees(events, i)
  {
    events[i].tick.observation.fingerprint
  }

  // ---- The re-reads before a turn ----

  // The last member of r below i, or -1.
  function Last(r: set<nat>, i: nat): (j: int)
    ensures -1 <= j < i && (j >= 0 ==> j in r) && forall k :: j < k < i ==> k !in r
  {
    if i == 0 then -1 else if i - 1 in r then i - 1 else Last(r, i - 1)
  }

  // The turns of the run, and those of them that published what they read.
  predicate AreTurns(events: seq<Event>, r: set<nat>)
  {
    forall i :: i in r ==> i < |events| && events[i].Turn?
  }

  function Publishing(events: seq<Event>, r: set<nat>): set<nat>
    requires AreTurns(events, r)
  {
    set i | i in r && events[i].tick.outcome.Scanned?
  }

  // The manifest on display at turn i.
  function Display(seed: View, events: seq<Event>, r: set<nat>, i: nat): nat
    requires AreTurns(events, r)
  {
    var j := Last(Publishing(events, r), i);
    if j < 0 then seed.fingerprint else events[j].tick.outcome.view.fingerprint
  }

  // When the last re-read ended, and how long it took.
  function IdleFrom(startedAt: nat, events: seq<Event>, r: set<nat>, i: nat): nat
    requires AreTurns(events, r)
  {
    if Last(r, i) < 0 then startedAt else events[Last(r, i)].tick.endedAt
  }

  function Took(events: seq<Event>, r: set<nat>, i: nat): nat
    requires AreTurns(events, r)
  {
    if Last(r, i) < 0 then 0 else
      var tick := events[Last(r, i)].tick;
      if tick.elapsedAt > tick.began then tick.elapsedAt - tick.began else 0
  }

  // A task was lost before turn i.
  predicate Stopped(events: seq<Event>, r: set<nat>, i: nat)
    requires i <= |events|
  {
    exists j :: 0 <= j < i && events[j].Turn?
                && (events[j].tick.observation.ObservationLost? || (j in r && events[j].tick.outcome.ScanLost?))
  }

  // ---- What a turn has behind it ----

  // From turn m to before turn i, every readable turn saw this manifest.
  ghost predicate Held(events: seq<Event>, m: nat, i: nat, fingerprint: nat)
  {
    forall k: nat :: m <= k < i && Sees(events, k) ==> Seen(events, k) == fingerprint
  }

  // From turn f to before turn i, every readable turn saw a manifest other than this one.
  ghost predicate Away(events: seq<Event>, f: nat, i: nat, display: nat)
  {
    forall k: nat :: f <= k < i && Sees(events, k) ==> Seen(events, k) != display
  }

  // Since turn m, at least the quiet period ago, every readable turn saw what turn i sees.
  ghost predicate Settled(config: FollowConfig, events: seq<Event>, published: int, m: nat, i: nat)
    requires Sees(events, i)
  {
    && published < m <= i && Sees(events, m) && Held(events, m, i, Seen(events, i))
    && events[i].tick.now >= events[m].tick.now + config.quietPeriod
  }

  // Since turn f, at least the staleness ceiling ago, no readable turn saw what is on display.
  ghost predicate Overdue(config: FollowConfig, events: seq<Event>, published: int, f: nat, i: nat, display: nat)
    requires Sees(events, i)
  {
    && published < f <= i && Sees(events, f) && Away(events, f, i, display)
    && events[i].tick.now >= events[f].tick.now + config.maxDefer
  }

  // Turn i has earned a re-read: the loop runs, the turn sees a manifest other than the one on
  // display, the idle gap is over, and the change has settled or is overdue.
  ghost predicate Earned(config: FollowConfig, seed: View, startedAt: nat, events: seq<Event>, r: set<nat>, i: nat)
    requires AreTurns(events, r) && i < |events|
  {
    var published, display := Last(Publishing(events, r), i), Display(seed, events, r, i);
    && !Stopped(events, r, i)
    && Sees(events, i) && Seen(events, i) != display
    && events[i].tick.now >= IdleFrom(startedAt, events, r, i) + config.minIdle
    && events[i].tick.now >= IdleFrom(startedAt, events, r, i) + Took(events, r, i)
    && ((exists m: nat :: Settled(config, events, published, m, i))
        || (exists f: nat :: Overdue(config, events, published, f, i, display)))
  }

  // ---- The run ----

  function At(config: FollowConfig, s: FollowState, events: seq<Event>, i: nat): FollowState
    requires i <= |events|
  {
    After(config, s, events[..i])
  }

  lemma OneTurnOn(config: FollowConfig, s: FollowState, events: seq<Event>, i: nat)
    requires i < |events|
    ensures At(config, s, events, i + 1) == Happens(config, At(config, s, events, i), events[i])
  {
    assert events[..i + 1][..i] == events[..i];
  }

  // The turns that re-read.
  function Rereads(config: FollowConfig, s: FollowState, events: seq<Event>): (r: set<nat>)
    ensures AreTurns(events, r)
    ensures forall i: nat :: i in r <==> i < |events| && Rescans(config, At(config, s, events, i), events[i])
  {
    set i: nat | i < |events| && Rescans(config, At(config, s, events, i), events[i])
  }

  // What the state before turn i says of the turns before it.
  ghost predicate Standing(seed: View, startedAt: nat, events: seq<Event>, r: set<nat>, i: nat, t: FollowState)
    requires AreTurns(events, r) && i <= |events|
  {
    && (t.running <==> !Stopped(events, r, i))
    && CurrentFingerprintOf(t.live) == Some(Display(seed, events, r, i))
    && t.lastScanAt == IdleFrom(startedAt, events, r, i) && t.lastScanDuration == Took(events, r, i)
  }

  // Any turn that began a run of one manifest is no earlier than the pending change's last move,
  // any turn that began a run off the display no earlier than its first.
  ghost predicate NotLate(seed: View, events: seq<Event>, r: set<nat>, i: nat, t: FollowState)
    requires AreTurns(events, r) && i <= |events|
  {
    var published, display := Last(Publishing(events, r), i), Display(seed, events, r, i);
    && (forall m: nat, x :: published < m < i && Sees(events, m) && Held(events, m, i, x) && x != display ==>
          t.pending.Some? && t.pending.value.observed == x && t.pending.value.movedAt <= events[m].tick.now)
    && (forall f: nat :: published < f < i && Sees(events, f) && Away(events, f, i, display) ==>
          t.pending.Some? && t.pending.value.firstAt <= events[f].tick.now)
  }

  // The pending change has a turn that began it and a turn that last moved it.
  ghost predicate Begun(events: seq<Event>, published: int, display: nat, i: nat, t: FollowState, f: nat, m: nat)
  {
    && t.pending.Some? && t.pending.value.observed != display
    && published < f <= m < i && Sees(events, f) && Sees(events, m)
    && t.pending.value.firstAt == events[f].tick.now && t.pending.value.movedAt == events[m].tick.now
    && Held(events, m, i, t.pending.value.observed) && Away(events, f, i, display)
  }

  ghost predicate Dates(seed: View, events: seq<Event>, r: set<nat>, i: nat, t: FollowState)
    requires AreTurns(events, r) && i <= |events|
  {
    t.pending.Some? ==>
      exists f: nat, m: nat :: Begun(events, Last(Publishing(events, r), i), Display(seed, events, r, i), i, t, f, m)
  }

  // ---- One event ----

  lemma StandingStep(config: FollowConfig, seed: View, startedAt: nat, events: seq<Event>, r: set<nat>, i: nat,
                     t: FollowState)
    requires AreTurns(events, r) && i < |events| && Standing(seed, startedAt, events, r, i, t)
    requires i in r <==> Rescans(config, t, events[i])
    ensures Standing(seed, startedAt, events, r, i + 1, Happens(config, t, events[i]))
  {
    var e, t' := events[i], Happens(config, t, events[i]);
    HappensKeepsTimes(config, t, e);
    if i in r && e.tick.outcome.Scanned? {
      PublishedIsRead(t.live, config.retain, e.tick.outcome.view, e.tick.at, Duration(e.tick));
      PublishForgetsPending(t.live, config.retain, e.tick.outcome.view, e.tick.at, Duration(e.tick));
    }
    StoppedStep(events, r, i);
  }

  lemma StoppedStep(events: seq<Event>, r: set<nat>, i: nat)
    requires i < |events|
    ensures Stopped(events, r, i + 1) <==>
      || Stopped(events, r, i)
      || (events[i].Turn?
          && (events[i].tick.observation.ObservationLost? || (i in r && events[i].tick.outcome.ScanLost?)))
  {
  }

  // What a turn does to the pending change while the loop runs on and nothing is published.
  lemma PendingStep(config: FollowConfig, t: FollowState, e: Event, display: nat)
    requires t.running && CurrentFingerprintOf(t.live) == Some(display)
    ensures var t' := Happens(config, t, e);
      t'.running && !(Rescans(config, t, e) && e.tick.outcome.Scanned?) ==>
        if !(e.Turn? && e.tick.observation.Observed?) then t'.pending == t.pending
        else if e.tick.observation.fingerprint == display then t'.pending == None
        else t'.pending == Some(Tracked(t.pending, e.tick.now, e.tick.observation.fingerprint))
    ensures Rescans(config, t, e) && e.tick.outcome.Scanned? ==> Happens(config, t, e).pending == None
  {
  }

  lemma NotRunningStays(config: FollowConfig, t: FollowState, e: Event)
    ensures Happens(config, t, e).running ==> t.running
  {
  }

  lemma ClockStep(startedAt: nat, events: seq<Event>, j: nat, i: nat)
    requires ClockRuns(startedAt, events) && j < i < |events| && events[j].Turn? && events[i].Turn?
    ensures events[j].tick.now <= events[i].tick.now
  {
  }

  // A turn that sees nothing leaves the pending change as it is.
  lemma UnseenStep(events: seq<Event>, published: int, display: nat, i: nat, t: FollowState, t': FollowState, f: nat,
                   m: nat, next: nat)
    requires next == i + 1 <= |events| && !Sees(events, i) && t'.pending == t.pending
    requires Begun(events, published, display, i, t, f, m)
    ensures Begun(events, published, display, next, t', f, m)
  {
  }

  lemma TrackedStep(events: seq<Event>, published: int, display: nat, i: nat, t: FollowState, t': FollowState, next: nat)
    requires next == i + 1 && Sees(events, i) && Seen(events, i) != display && published < i
    requires t'.pending == Some(Tracked(t.pending, events[i].tick.now, Seen(events, i)))
    requires t.pending.Some? ==> exists f: nat, m: nat :: Begun(events, published, display, i, t, f, m)
    ensures exists f: nat, m: nat :: Begun(events, published, display, next, t', f, m)
  {
    if t.pending.None? {
      assert Begun(events, published, display, next, t', i, i);
    } else {
      var f: nat, m: nat :| Begun(events, published, display, i, t, f, m);
      if t.pending.value.observed == Seen(events, i) {
        assert Begun(events, published, display, next, t', f, m);
      } else {
        assert Begun(events, published, display, next, t', f, i);
      }
    }
  }

  lemma SamePublished(events: seq<Event>, r: set<nat>, i: nat)
    requires AreTurns(events, r) && i < |events|
    ensures Last(Publishing(events, r), i + 1) ==
      if i in r && events[i].tick.outcome.Scanned? then i else Last(Publishing(events, r), i)
  {
  }

  lemma DatesStep(config: FollowConfig, seed: View, startedAt: nat, events: seq<Event>, r: set<nat>, i: nat,
                  t: FollowState)
    requires AreTurns(events, r) && i < |events| && Standing(seed, startedAt, events, r, i, t)
    requires i in r <==> Rescans(config, t, events[i])
    requires t.running ==> Dates(seed, events, r, i, t)
    ensures Happens(config, t, events[i]).running ==>
      Dates(seed, events, r, i + 1, Happens(config, t, events[i]))
  {
    var e, t' := events[i], Happens(config, t, events[i]);
    var published, display := Last(Publishing(events, r), i), Display(seed, events, r, i);
    if t'.running {
      NotRunningStays(config, t, e);
      SamePublished(events, r, i);
      PendingStep(config, t, e, display);
      if !(i in r && e.tick.outcome.Scanned?) && t'.pending.Some? {
        assert Last(Publishing(events, r), i + 1) == published && Display(seed, events, r, i + 1) == display;
        if Sees(events, i) {
          TrackedStep(events, published, display, i, t, t', i + 1);
        } else {
          var f: nat, m: nat :| Begun(events, published, display, i, t, f, m);
          UnseenStep(events, published, display, i, t, t', f, m, i + 1);
        }
      }
    }
  }

  // The pending change behind an event that publishes nothing.
  predicate Moves(events: seq<Event>, display: nat, i: nat, t: FollowState, t': FollowState)
    requires i < |events|
  {
    && t'.pending == (if !Sees(events, i) then t.pending else if Seen(events, i) == display then None
                      else Some(Tracked(t.pending, events[i].tick.now, Seen(events, i))))
    && (Sees(events, i) && t.pending.Some? ==>
          t.pending.value.firstAt <= events[i].tick.now && t.pending.value.movedAt <= events[i].tick.now)
  }

  lemma HeldNotLate(events: seq<Event>, display: nat, i: nat, t: FollowState, t': FollowState, m: nat, x: nat)
    requires i < |events| && Moves(events, display, i, t, t')
    requires m <= i && Sees(events, m) && Held(events, m, i + 1, x) && x != display
    requires m < i ==>
      t.pending.Some? && t.pending.value.observed == x && t.pending.value.movedAt <= events[m].tick.now
    ensures t'.pending.Some? && t'.pending.value.observed == x && t'.pending.value.movedAt <= events[m].tick.now
  {
    assert Sees(events, i) ==> Seen(events, i) == x;
  }

  lemma AwayNotLate(events: seq<Event>, display: nat, i: nat, t: FollowState, t': FollowState, f: nat)
    requires i < |events| && Moves(events, display, i, t, t')
    requires f <= i && Sees(events, f) && Away(events, f, i + 1, display)
    requires f < i ==> t.pending.Some? && t.pending.value.firstAt <= events[f].tick.now
    ensures t'.pending.Some? && t'.pending.value.firstAt <= events[f].tick.now
  {
    assert Sees(events, i) ==> Seen(events, i) != display;
  }

  lemma DatesAreBehind(startedAt: nat, events: seq<Event>, published: int, display: nat, i: nat, t: FollowState)
    requires ClockRuns(startedAt, events) && i < |events| && events[i].Turn?
    requires t.pending.Some? ==> exists f: nat, m: nat :: Begun(events, published, display, i, t, f, m)
    ensures t.pending.Some? ==>
      t.pending.value.firstAt <= events[i].tick.now && t.pending.value.movedAt <= events[i].tick.now
  {
    if t.pending.Some? {
      var f: nat, m: nat :| Begun(events, published, display, i, t, f, m);
      ClockStep(startedAt, events, f, i);
      ClockStep(startedAt, events, m, i);
    }
  }

  lemma NotLateCarries(seed: View, events: seq<Event>, r: set<nat>, i: nat, t: FollowState, t': FollowState)
    requires AreTurns(events, r) && i < |events| && NotLate(seed, events, r, i, t)
    requires Moves(events, Display(seed, events, r, i), i, t, t')
    requires !(i in r && events[i].tick.outcome.Scanned?)
    ensures NotLate(seed, events, r, i + 1, t')
  {
    var published, display, next := Last(Publishing(events, r), i), Display(seed, events, r, i), i + 1;
    SamePublished(events, r, i);
    forall m: nat, x | published < m < next && Sees(events, m) && Held(events, m, next, x) && x != display
      ensures t'.pending.Some? && t'.pending.value.observed == x && t'.pending.value.movedAt <= events[m].tick.now
    {
      assert Held(events, m, i, x);
      HeldNotLate(events, display, i, t, t', m, x);
    }
    forall f: nat | published < f < next && Sees(events, f) && Away(events, f, next, display)
      ensures t'.pending.Some? && t'.pending.value.firstAt <= events[f].tick.now
    {
      assert Away(events, f, i, display);
      AwayNotLate(events, display, i, t, t', f);
    }
  }

  lemma NotLateStep(config: FollowConfig, seed: View, startedAt: nat, events: seq<Event>, r: set<nat>, i: nat,
                    t: FollowState)
    requires ClockRuns(startedAt, events)
    requires AreTurns(events, r) && i < |events| && Standing(seed, startedAt, events, r, i, t)
    requires i in r <==> Rescans(config, t, events[i])
    requires t.running ==> Dates(seed, events, r, i, t) && NotLate(seed, events, r, i, t)
    ensures Happens(config, t, events[i]).running ==>
      NotLate(seed, events, r, i + 1, Happens(config, t, events[i]))
  {
    var e, t' := events[i], Happens(config, t, events[i]);
    var published, display := Last(Publishing(events, r), i), Display(seed, events, r, i);
    if t'.running {
      NotRunningStays(config, t, e);
      SamePublished(events, r, i);
      PendingStep(config, t, e, display);
      if !(i in r && e.tick.outcome.Scanned?) {
        if Sees(events, i) {
          DatesAreBehind(startedAt, events, published, display, i, t);
        }
        NotLateCarries(seed, events, r, i, t, t');
      }
    }
  }

  // ---- The decision ----

  ghost predicate Stands(seed: View, startedAt: nat, events: seq<Event>, r: set<nat>, i: nat, t: FollowState)
    requires AreTurns(events, r) && i <= |events|
  {
    && Standing(seed, startedAt, events, r, i, t)
    && (t.running ==> Dates(seed, events, r, i, t) && NotLate(seed, events, r, i, t))
  }

  lemma StartStands(seed: View, at: nat, startedAt: nat, events: seq<Event>, r: set<nat>)
    requires AreTurns(events, r)
    ensures Stands(seed, startedAt, events, r, 0, Start(seed, at, startedAt))
  {
  }

  lemma StandsStep(config: FollowConfig, seed: View, startedAt: nat, events: seq<Event>, r: set<nat>, i: nat,
                   t: FollowState, next: nat, t': FollowState)
    requires ClockRuns(startedAt, events) && AreTurns(events, r) && i < |events|
    requires Stands(seed, startedAt, events, r, i, t)
    requires i in r <==> Rescans(config, t, events[i])
    requires next == i + 1 && t' == Happens(config, t, events[i])
    ensures Stands(seed, startedAt, events, r, next, t')
  {
    StandingStep(config, seed, startedAt, events, r, i, t);
    DatesStep(config, seed, startedAt, events, r, i, t);
    NotLateStep(config, seed, startedAt, events, r, i, t);
  }

  lemma {:induction false} RunStands(config: FollowConfig, seed: View, at: nat, startedAt: nat, events: seq<Event>,
                                     r: set<nat>, i: nat, t: FollowState)
    requires ClockRuns(startedAt, events) && i <= |events|
    requires r == Rereads(config, Start(seed, at, startedAt), events)
    requires t == At(config, Start(seed, at, startedAt), events, i)
    ensures Stands(seed, startedAt, events, r, i, t)
  {
    var s := Start(seed, at, startedAt);
    if i == 0 {
      StartStands(seed, at, startedAt, events, r);
      assert events[..0] == [];
    } else {
      var before := At(config, s, events, i - 1);
      RunStands(config, seed, at, startedAt, events, r, i - 1, before);
      OneTurnOn(config, s, events, i - 1);
      StandsStep(config, seed, startedAt, events, r, i - 1, before, i, t);
    }
  }

  // The clock readings behind turn i are not ahead of it.
  lemma ClockIsBehind(startedAt: nat, events: seq<Event>, r: set<nat>, i: nat)
    requires ClockRuns(startedAt, events) && AreTurns(events, r) && i < |events| && events[i].Turn?
    ensures IdleFrom(startedAt, events, r, i) <= events[i].tick.now
    ensures forall j :: 0 <= j <= i && events[j].Turn? ==> events[j].tick.now <= events[i].tick.now
  {
  }

  lemma ScanIsEarned(config: FollowConfig, seed: View, startedAt: nat, events: seq<Event>, r: set<nat>, i: nat,
                     t: FollowState)
    requires ClockRuns(startedAt, events) && AreTurns(events, r) && i < |events|
    requires Standing(seed, startedAt, events, r, i, t) && (t.running ==> Dates(seed, events, r, i, t))
    requires Rescans(config, t, events[i])
    ensures Earned(config, seed, startedAt, events, r, i)
  {
    var tick := events[i].tick;
    var published, display := Last(Publishing(events, r), i), Display(seed, events, r, i);
    var change := Tracked(t.pending, tick.now, Seen(events, i));
    ClockIsBehind(startedAt, events, r, i);
    var f: nat, m: nat := i, i;
    if t.pending.Some? {
      var f': nat, m': nat :| Begun(events, published, display, i, t, f', m');
      f := f';
      m := if t.pending.value.observed == Seen(events, i) then m' else i;
    }
    assert change.firstAt == events[f].tick.now && change.movedAt == events[m].tick.now;
    if Since(tick.now, change.movedAt) >= config.quietPeriod {
      assert Settled(config, events, published, m, i);
    } else {
      assert Overdue(config, events, published, f, i, display);
    }
  }

  lemma EarnedIsScanned(config: FollowConfig, seed: View, startedAt: nat, events: seq<Event>, r: set<nat>, i: nat,
                        t: FollowState)
    requires AreTurns(events, r) && i < |events|
    requires Standing(seed, startedAt, events, r, i, t) && (t.running ==> NotLate(seed, events, r, i, t))
    requires Earned(config, seed, startedAt, events, r, i)
    ensures Rescans(config, t, events[i])
  {
    var tick := events[i].tick;
    var published, display := Last(Publishing(events, r), i), Display(seed, events, r, i);
    var change := Tracked(t.pending, tick.now, Seen(events, i));
    if m: nat :| Settled(config, events, published, m, i) {
      assert m < i ==> Held(events, m, i, Seen(events, i));
      assert Since(tick.now, change.movedAt) >= config.quietPeriod;
    } else {
      var f: nat :| Overdue(config, events, published, f, i, display);
      assert f < i ==> Away(events, f, i, display);
      assert Since(tick.now, change.firstAt) >= config.maxDefer;
    }
  }

  // The turns of a run that re-read are exactly those that have earned it.
  lemma RereadIffEarned(config: FollowConfig, seed: View, at: nat, startedAt: nat, events: seq<Event>, i: nat)
    requires ClockRuns(startedAt, events) && i < |events|
    ensures var r := Rereads(config, Start(seed, at, startedAt), events);
      i in r <==> Earned(config, seed, startedAt, events, r, i)
  {
    var s := Start(seed, at, startedAt);
    var r, t := Rereads(config, s, events), At(config, s, events, i);
    RunStands(config, seed, at, startedAt, events, r, i, t);
    if i in r {
      ScanIsEarned(config, seed, startedAt, events, r, i, t);
    }
    if Earned(config, seed, startedAt, events, r, i) {
      EarnedIsScanned(config, seed, startedAt, events, r, i, t);
    }
  }

  // A settled change is re-read: the manifest differs from the display, every readable turn since
  // m has seen it, the quiet period has passed since, and so has the idle gap.
  lemma SettledInputIsReread(config: FollowConfig, seed: View, at: nat, startedAt: nat, events: seq<Event>, m: nat,
                             i: nat)
    requires ClockRuns(startedAt, events) && m <= i < |events| && Sees(events, m) && Sees(events, i)
    requires Held(events, m, i, Seen(events, i))
    requires events[i].tick.now >= events[m].tick.now + config.quietPeriod
    requires var r := Rereads(config, Start(seed, at, startedAt), events);
      && !Stopped(events, r, i) && Last(Publishing(events, r), i) < m
      && Seen(events, i) != Display(seed, events, r, i)
      && events[i].tick.now >= IdleFrom(startedAt, events, r, i) + config.minIdle
      && events[i].tick.now >= IdleFrom(startedAt, events, r, i) + Took(events, r, i)
    ensures i in Rereads(config, Start(seed, at, startedAt), events)
  {
    var r := Rereads(config, Start(seed, at, startedAt), events);
    assert Settled(config, events, Last(Publishing(events, r), i), m, i);
    RereadIffEarned(config, seed, at, startedAt, events, i);
  }

  // A re-read that finds a view puts it on display as the next generation, with the turn's time and
  // the time the scan took; no change is pending then.
  lemma RereadIsShown(config: FollowConfig, seed: View, at: nat, startedAt: nat, events: seq<Event>, i: nat)
    requires i in Rereads(config, Start(seed, at, startedAt), events) && events[i].tick.outcome.Scanned?
    ensures var s, tick := Start(seed, at, startedAt), events[i].tick;
      var before, live := At(config, s, events, i).live, At(config, s, events, i + 1).live;
      var took := if tick.elapsedAt > tick.began then tick.elapsedAt - tick.began else 0;
      && live.current == (if before.current < U64_MAX then before.current + 1 else U64_MAX) && !live.changePending
      && ReadingOf(live, live.current) ==
           Some(Reading(live.current, tick.outcome.view, tick.outcome.view.validity, tick.at, took))
  {
    var s, tick := Start(seed, at, startedAt), events[i].tick;
    var t := At(config, s, events, i);
    OneTurnOn(config, s, events, i);
    PublishForgetsPending(t.live, config.retain, tick.outcome.view, tick.at, Duration(tick));
    PublishedIsRead(t.live, config.retain, tick.outcome.view, tick.at, Duration(tick));
  }
}
