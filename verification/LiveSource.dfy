// The generations of a live session: `LiveSource` in `src/follow.rs`.
module LiveSource {
  import opened Wrappers
  import opened Bits

  datatype Validity = Valid | Torn | Superseded | Invalidated

  // Volume ids are non-negative i16 values and sector totals non-negative i32 values.
  datatype VolumeEntry = VolumeEntry(id: nat, totalSectors: nat)

  type VolumeList = s: seq<VolumeEntry> |
    |s| <= I16_MAX + 1 && forall i :: 0 <= i < |s| ==> s[i].totalSectors <= I32_MAX

  // One immutable revision of one reading of the input.
  datatype View = View(revision: nat, validity: Validity, fingerprint: nat, volumes: VolumeList)

  datatype Generation = Generation(
    number: u64,
    views: map<nat, View>,
    latest: nat,
    fingerprint: Option<nat>,
    observedAt: nat,
    scanDuration: nat)

  // `notified` is the value of the watch channel and `receivers` the number of its live receivers.
  datatype LiveState = LiveState(
    generations: map<nat, Generation>,
    current: u64,
    changePending: bool,
    notified: u64,
    receivers: nat)

  datatype Reading = Reading(
    generation: u64, view: View, validity: Validity, observedAt: nat, scanDuration: nat)

  function Max(x: nat, y: nat): nat
  {
    if x < y then y else x
  }

  // ---- The operations on values ----

  function Fresh(number: u64, view: View, at: nat, duration: nat): Generation
  {
    Generation(number, map[view.revision := view], view.revision, Some(view.fingerprint), at, duration)
  }

  function Seeded(view: View, at: nat): LiveState
  {
    LiveState(map[0 := Fresh(0, view, at, 0)], 0, false, 0, 0)
  }

  function SaturatingNext(n: u64): u64
  {
    if n < U64_MAX then n + 1 else U64_MAX
  }

  lemma {:induction false} LeastExists(s: set<nat>) returns (least: nat)
    requires s != {}
    ensures least in s && forall x :: x in s ==> least <= x
  {
    var y :| y in s;
    if s == {y} {
      least := y;
    } else {
      assert s - {y} != {} by {
        assert s == (s - {y}) + {y};
      }
      var rest := LeastExists(s - {y});
      least := if rest < y then rest else y;
    }
  }

  function Oldest(s: set<nat>): (least: nat)
    requires s != {}
    ensures least in s && forall x :: x in s ==> least <= x
  {
    assert exists l :: l in s && forall x :: x in s ==> l <= x by {
      var l := LeastExists(s);
    }
    var least :| least in s && forall x :: x in s ==> least <= x;
    least
  }

  // Dropping the oldest generations until `retain` are left, never the one to keep.
  function Evicted(generations: map<nat, Generation>, retain: nat, keep: nat): map<nat, Generation>
    decreases |generations|
  {
    if |generations| <= retain then generations
    else
      var oldest := Oldest(generations.Keys);
      if oldest == keep then generations
      else
        Shrinks(generations, oldest);
        Evicted(generations - {oldest}, retain, keep)
  }

  lemma Shrinks(generations: map<nat, Generation>, key: nat)
    requires key in generations
    ensures |generations - {key}| == |generations| - 1
  {
    assert (generations - {key}).Keys == generations.Keys - {key};
    assert |(generations - {key}).Keys| == |generations - {key}|;
  }

  function Published(s: LiveState, retain: nat, view: View, at: nat, duration: nat): LiveState
  {
    var number := SaturatingNext(s.current);
    LiveState(Evicted(s.generations[number := Fresh(number, view, at, duration)], Max(retain, 1), number),
              number, false, if s.receivers > 0 then number else s.notified, s.receivers)
  }

  // A waiting request takes a receiver of the watch channel, and drops it when it is answered.
  function Subscribed(s: LiveState): LiveState
  {
    s.(receivers := s.receivers + 1)
  }

  function Unsubscribed(s: LiveState): LiveState
  {
    if s.receivers == 0 then s else s.(receivers := s.receivers - 1)
  }

  predicate Extends(s: LiveState, generation: nat, view: View)
  {
    generation in s.generations && view.revision > s.generations[generation].latest
  }

  function Revised(s: LiveState, generation: nat, view: View): LiveState
  {
    if !Extends(s, generation, view) then s
    else
      var entry := s.generations[generation];
      s.(generations := s.generations[generation :=
           entry.(views := entry.views[view.revision := view], latest := view.revision)])
  }

  // `watch` holds a request open if the client knows the generation the channel holds.
  predicate Waits(s: LiveState, following: bool, known: Option<u64>)
  {
    following && known == Some(s.notified)
  }

  // What a generation is worth now: a torn or invalidated scan stays what it is, anything else
  // is superseded once the input has moved on.
  function Standing(s: LiveState, number: nat, scanned: Validity): Validity
  {
    if scanned == Invalidated || scanned == Torn then scanned
    else if number < s.current || s.changePending then Superseded
    else scanned
  }

  function ReadingOf(s: LiveState, generation: nat): Option<Reading>
  {
    if generation !in s.generations then None
    else
      var entry := s.generations[generation];
      if entry.latest !in entry.views then None
      else
        var view := entry.views[entry.latest];
        Some(Reading(entry.number, view, Standing(s, entry.number, view.validity),
                     entry.observedAt, entry.scanDuration))
  }

  function CurrentFingerprintOf(s: LiveState): Option<nat>
  {
    if s.current in s.generations then s.generations[s.current].fingerprint else None
  }

  lemma {:induction false} EvictionKeeps(generations: map<nat, Generation>, retain: nat, keep: nat)
    requires keep in generations
    ensures var left := Evicted(generations, retain, keep); keep in left && left[keep] == generations[keep]
    decreases |generations|
  {
    if |generations| > retain {
      var oldest := Oldest(generations.Keys);
      if oldest != keep {
        Shrinks(generations, oldest);
        EvictionKeeps(generations - {oldest}, retain, keep);
      }
    }
  }

  // A published view is read back at once, as what the scan found it to be and at its times.
  lemma PublishedIsRead(s: LiveState, retain: nat, view: View, at: nat, duration: nat)
    ensures var t := Published(s, retain, view, at, duration);
      && t.current == (if s.current < U64_MAX then s.current + 1 else U64_MAX) && !t.changePending
      && ReadingOf(t, t.current) == Some(Reading(t.current, view, view.validity, at, duration))
      && CurrentFingerprintOf(t) == Some(view.fingerprint)
  {
    var number := SaturatingNext(s.current);
    EvictionKeeps(s.generations[number := Fresh(number, view, at, duration)], Max(retain, 1), number);
  }

  // So is the view that a session starts from.
  lemma SeedIsRead(view: View, at: nat)
    ensures ReadingOf(Seeded(view, at), 0) == Some(Reading(0, view, view.validity, at, 0))
    ensures CurrentFingerprintOf(Seeded(view, at)) == Some(view.fingerprint)
  {
  }

  // ---- The session object ----

  class LiveSource {
    const retain: nat
    const following: bool
    var generations: map<nat, Generation>
    var current: u64
    var changePending: bool
    var notified: u64
    var receivers: nat

    ghost function State(): LiveState
      reads this
    {
      LiveState(generations, current, changePending, notified, receivers)
    }

    constructor (view: View, keep: nat, follow: bool, at: nat)
      ensures State() == Seeded(view, at) && retain == keep && following == follow
    {
      retain, following := keep, follow;
      generations := map[0 := Generation(0, map[view.revision := view], view.revision, Some(view.fingerprint), at, 0)];
      current, changePending, notified, receivers := 0, false, 0, 0;
    }

    method Read(generation: nat) returns (r: Option<Reading>)
      ensures r == ReadingOf(State(), generation)
    {
      if generation !in generations {
        return None;
      }
      var entry := generations[generation];
      if entry.latest !in entry.views {
        return None;
      }
      var view := entry.views[entry.latest];
      var validity := view.validity;
      if validity != Invalidated && validity != Torn && (entry.number < current || changePending) {
        validity := Superseded;
      }
      r := Some(Reading(entry.number, view, validity, entry.observedAt, entry.scanDuration));
    }

    method Current() returns (r: Option<Reading>)
      ensures r == ReadingOf(State(), current)
    {
      r := Read(current);
    }

    method Publish(view: View, at: nat, duration: nat) returns (number: u64)
      modifies this
      ensures State() == Published(old(State()), retain, view, at, duration)
      ensures number == current
    {
      number := SaturatingNext(current);
      generations := generations[number := Fresh(number, view, at, duration)];
      current := number;
      changePending := false;
      var limit := Max(retain, 1);
      ghost var all := generations;
      while |generations| > limit
        invariant current == number && !changePending
        invariant notified == old(notified) && receivers == old(receivers)
        invariant Evicted(generations, limit, number) == Evicted(all, limit, number)
        decreases |generations|
      {
        var oldest := Oldest(generations.Keys);
        if oldest == number {
          break;
        }
        Shrinks(generations, oldest);
        generations := generations - {oldest};
      }
      if receivers > 0 {
        notified := number;
      }
    }

    // The result is true exactly when the generation is still retained and the view is newer
    // than its latest revision.
    method PublishRevision(generation: nat, view: View) returns (kept: bool)
      modifies this`generations
      ensures State() == Revised(old(State()), generation, view)
      ensures kept <==> old(Extends(State(), generation, view))
    {
      if generation !in generations {
        return false;
      }
      var entry := generations[generation];
      if view.revision <= entry.latest {
        return false;
      }
      entry := entry.(views := entry.views[view.revision := view]);
      entry := entry.(latest := view.revision);
      generations := generations[generation := entry];
      kept := true;
    }

    // A new receiver and the value it sees first.
    method Subscribe() returns (value: u64)
      modifies this`receivers
      ensures State() == Subscribed(old(State())) && value == notified
    {
      receivers := receivers + 1;
      value := notified;
    }

    method Unsubscribe()
      modifies this`receivers
      ensures State() == Unsubscribed(old(State()))
    {
      if receivers > 0 {
        receivers := receivers - 1;
      }
    }

    // Whether the long poll of a client at a known generation waits; it holds a receiver then.
    method Watch(known: Option<u64>) returns (waits: bool)
      modifies this`receivers
      ensures waits == Waits(old(State()), following, known)
      ensures State() == if waits then Subscribed(old(State())) else old(State())
    {
      var value := Subscribe();
      waits := following && known == Some(value);
      if !waits {
        Unsubscribe();
      }
    }

    method NoteChangePending(pending: bool)
      modifies this`changePending
      ensures State() == old(State()).(changePending := pending)
    {
      changePending := pending;
    }

    method CurrentFingerprint() returns (r: Option<nat>)
      ensures r == CurrentFingerprintOf(State())
    {
      r := if current in generations then generations[current].fingerprint else None;
    }
  }

  // ---- Runs ----

  datatype Op =
    | Publish(view: View, at: nat, duration: nat)
    | PublishRevision(generation: nat, revision: View)
    | NoteChangePending(pending: bool)
    | Subscribe
    | Unsubscribe

  function Step(s: LiveState, retain: nat, op: Op): LiveState
  {
    match op
    case Publish(view, at, duration) => Published(s, retain, view, at, duration)
    case PublishRevision(generation, view) => Revised(s, generation, view)
    case NoteChangePending(pending) => s.(changePending := pending)
    case Subscribe => Subscribed(s)
    case Unsubscribe => Unsubscribed(s)
  }

  function Run(seed: View, at: nat, retain: nat, ops: seq<Op>): LiveState
  {
    if ops == [] then Seeded(seed, at)
    else Step(Run(seed, at, retain, ops[..|ops| - 1]), retain, ops[|ops| - 1])
  }

  function Publishes(ops: seq<Op>): nat
  {
    if ops == [] then 0
    else Publishes(ops[..|ops| - 1]) + if ops[|ops| - 1].Publish? then 1 else 0
  }

  // The generations numbered lo to hi.
  function Numbers(lo: nat, hi: nat): (s: set<nat>)
    requires lo <= hi + 1
    ensures |s| == hi + 1 - lo
    ensures forall g: nat :: g in s <==> lo <= g <= hi
    decreases hi + 1 - lo
  {
    if lo == hi + 1 then {} else
      var rest := Numbers(lo + 1, hi);
      assert lo !in rest;
      {lo} + rest
  }

  // After k publishes the newest max(retain, 1) of the generations 0 to k are retained.
  predicate InWindow(retain: nat, k: nat, g: nat)
  {
    g <= k && k - g < Max(retain, 1)
  }

  ghost predicate WellFormed(s: LiveState)
  {
    AllOk(s.generations)
  }

  ghost predicate AllOk(generations: map<nat, Generation>)
  {
    forall g: nat :: g in generations ==> GenerationOk(g, generations[g])
  }

  ghost predicate GenerationOk(g: nat, entry: Generation)
  {
    && entry.number == g
    && entry.latest in entry.views
    && (forall r: nat :: r in entry.views ==> entry.views[r].revision == r && r <= entry.latest)
  }

  ghost predicate WindowHolds(s: LiveState, retain: nat, k: nat)
  {
    && s.current == k && s.notified <= k
    && WellFormed(s)
    && (forall g: nat :: g in s.generations <==> InWindow(retain, k, g))
  }

  lemma {:induction false} WindowEviction(generations: map<nat, Generation>, lo: nat, hi: nat, retain: nat)
    requires lo <= hi && retain >= 1
    requires forall g: nat :: g in generations <==> lo <= g <= hi
    ensures var left := Evicted(generations, retain, hi);
      && (forall g: nat :: g in left <==> lo <= g <= hi && hi - g < retain)
      && (forall g: nat :: g in left ==> left[g] == generations[g])
    decreases hi - lo
  {
    assert generations.Keys == Numbers(lo, hi);
    assert |generations| == |generations.Keys| == hi + 1 - lo;
    if |generations| > retain {
      var rest := generations - {lo};
      assert Oldest(generations.Keys) == lo;
      assert forall g: nat :: g in rest <==> lo + 1 <= g <= hi;
      WindowEviction(rest, lo + 1, hi, retain);
    }
  }

  // What eviction leaves after generation k + 1 has been added.
  ghost predicate EvictedTo(before: map<nat, Generation>, left: map<nat, Generation>, limit: nat, k: nat,
                            entry: Generation)
  {
    && (forall g: nat :: g in left <==> g <= k + 1 && k + 1 - g < limit)
    && (k + 1 in left ==> left[k + 1] == entry)
    && (forall g: nat :: g in left && g <= k ==> g in before && left[g] == before[g])
  }

  function OldestLeft(k: nat, limit: nat): nat
  {
    if k < limit then 0 else k + 1 - limit
  }

  lemma AddedWindow(generations: map<nat, Generation>, limit: nat, k: nat, entry: Generation)
    requires limit >= 1 && forall g: nat :: g in generations <==> g <= k && k - g < limit
    ensures var added := generations[k + 1 := entry];
      forall g: nat :: g in added <==> OldestLeft(k, limit) <= g <= k + 1
  {
  }

  lemma PublishEvicts(generations: map<nat, Generation>, limit: nat, k: nat, entry: Generation)
    requires limit >= 1 && forall g: nat :: g in generations <==> g <= k && k - g < limit
    ensures EvictedTo(generations, Evicted(generations[k + 1 := entry], limit, k + 1), limit, k, entry)
  {
    var added := generations[k + 1 := entry];
    AddedWindow(generations, limit, k, entry);
    WindowEviction(added, OldestLeft(k, limit), k + 1, limit);
    NewestLeft(generations, Evicted(added, limit, k + 1), limit, k, entry);
  }

  lemma NewestLeft(before: map<nat, Generation>, left: map<nat, Generation>, limit: nat, k: nat,
                   entry: Generation)
    requires forall g: nat :: g in left <==> OldestLeft(k, limit) <= g <= k + 1 && k + 1 - g < limit
    requires forall g: nat :: g in left ==> g in before[k + 1 := entry] && left[g] == before[k + 1 := entry][g]
    ensures EvictedTo(before, left, limit, k, entry)
  {
  }

  lemma EvictionKeepsOk(before: map<nat, Generation>, left: map<nat, Generation>, limit: nat, k: nat,
                        entry: Generation)
    requires AllOk(before) && GenerationOk(k + 1, entry) && EvictedTo(before, left, limit, k, entry)
    ensures AllOk(left)
  {
    forall g: nat | g in left
      ensures GenerationOk(g, left[g])
    {
      if g <= k {
        assert left[g] == before[g];
      }
    }
  }

  lemma PublishKeepsWindow(s: LiveState, retain: nat, k: nat, view: View, at: nat, duration: nat)
    requires WindowHolds(s, retain, k) && k < U64_MAX
    ensures var t := Published(s, retain, view, at, duration);
      && WindowHolds(t, retain, k + 1)
      && EvictedTo(s.generations, t.generations, Max(retain, 1), k, Fresh(k + 1, view, at, duration))
  {
    var entry := Fresh(k + 1, view, at, duration);
    var limit := Max(retain, 1);
    var left := Evicted(s.generations[k + 1 := entry], limit, k + 1);
    assert Published(s, retain, view, at, duration)
        == LiveState(left, k + 1, false, if s.receivers > 0 then k + 1 else s.notified, s.receivers);
    PublishEvicts(s.generations, limit, k, entry);
    EvictedHoldsWindow(s, retain, k, entry, left);
  }

  lemma EvictedHoldsWindow(s: LiveState, retain: nat, k: nat, entry: Generation, left: map<nat, Generation>)
    requires WindowHolds(s, retain, k) && k < U64_MAX && GenerationOk(k + 1, entry)
    requires EvictedTo(s.generations, left, Max(retain, 1), k, entry)
    ensures WindowHolds(LiveState(left, k + 1, false, if s.receivers > 0 then k + 1 else s.notified, s.receivers),
                        retain, k + 1)
  {
    EvictionKeepsOk(s.generations, left, Max(retain, 1), k, entry);
  }

  lemma {:induction false} RunHoldsWindow(seed: View, at: nat, retain: nat, ops: seq<Op>)
    requires Publishes(ops) <= U64_MAX
    ensures WindowHolds(Run(seed, at, retain, ops), retain, Publishes(ops))
  {
    if ops != [] {
      var before, op := ops[..|ops| - 1], ops[|ops| - 1];
      RunHoldsWindow(seed, at, retain, before);
      if op.Publish? {
        PublishKeepsWindow(Run(seed, at, retain, before), retain, Publishes(before), op.view, op.at, op.duration);
      }
    }
  }

  // After k publishes generation g is retained iff g <= k and k - g < max(retain, 1), over
  // every run without counter saturation; the newest one is always current.
  lemma RetentionWindow(seed: View, at: nat, retain: nat, ops: seq<Op>, g: nat)
    requires Publishes(ops) <= U64_MAX
    ensures var s := Run(seed, at, retain, ops);
      && (ReadingOf(s, g).Some? <==> InWindow(retain, Publishes(ops), g))
      && s.current == Publishes(ops)
      && ReadingOf(s, s.current).Some?
  {
    RunHoldsWindow(seed, at, retain, ops);
  }

  // ---- What the watch channel announces ----

  function Receivers(ops: seq<Op>): nat
  {
    if ops == [] then 0
    else
      var before := Receivers(ops[..|ops| - 1]);
      match ops[|ops| - 1]
      case Subscribe => before + 1
      case Unsubscribe => if before == 0 then 0 else before - 1
      case _ => before
  }

  // Operation i publishes while a receiver is alive.
  predicate Heard(ops: seq<Op>, i: nat)
    requires i < |ops|
  {
    ops[i].Publish? && Receivers(ops[..i]) > 0
  }

  // The generation operation i publishes.
  function NumberAt(ops: seq<Op>, i: nat): nat
    requires i < |ops|
  {
    Publishes(ops[..i]) + 1
  }

  // n is the number of the last publish that was heard, or 0 if none was.
  ghost predicate LastHeard(ops: seq<Op>, n: nat)
  {
    && (n == 0 || exists i :: 0 <= i < |ops| && Heard(ops, i) && NumberAt(ops, i) == n)
    && forall i :: 0 <= i < |ops| && Heard(ops, i) ==> NumberAt(ops, i) <= n
  }

  lemma HeardBefore(ops: seq<Op>, i: nat)
    requires i < |ops| - 1
    ensures Heard(ops[..|ops| - 1], i) <==> Heard(ops, i)
    ensures NumberAt(ops[..|ops| - 1], i) == NumberAt(ops, i)
  {
    assert ops[..|ops| - 1][..i] == ops[..i];
  }

  lemma LastHeardStays(ops: seq<Op>, n: nat)
    requires ops != [] && LastHeard(ops[..|ops| - 1], n) && !Heard(ops, |ops| - 1)
    ensures LastHeard(ops, n)
  {
    var before := ops[..|ops| - 1];
    if n != 0 {
      var i :| 0 <= i < |before| && Heard(before, i) && NumberAt(before, i) == n;
      HeardBefore(ops, i);
    }
    forall i | 0 <= i < |ops| && Heard(ops, i)
      ensures NumberAt(ops, i) <= n
    {
      HeardBefore(ops, i);
    }
  }

  lemma LastHeardGrows(ops: seq<Op>, n: nat)
    requires ops != [] && LastHeard(ops[..|ops| - 1], n) && Heard(ops, |ops| - 1) && n <= Publishes(ops)
    ensures LastHeard(ops, Publishes(ops))
  {
    assert NumberAt(ops, |ops| - 1) == Publishes(ops);
    forall i | 0 <= i < |ops| && Heard(ops, i)
      ensures NumberAt(ops, i) <= Publishes(ops)
    {
      if i < |ops| - 1 {
        HeardBefore(ops, i);
      }
    }
  }

  // A send without a live receiver changes nothing, so the channel holds the last number that was
  // published while a receiver was alive.
  lemma {:induction false} AnnouncesLastHeard(seed: View, at: nat, retain: nat, ops: seq<Op>)
    requires Publishes(ops) <= U64_MAX
    ensures var s := Run(seed, at, retain, ops);
      LastHeard(ops, s.notified) && s.notified <= s.current && s.receivers == Receivers(ops)
  {
    RunHoldsWindow(seed, at, retain, ops);
    if ops != [] {
      var before := ops[..|ops| - 1];
      var s := Run(seed, at, retain, before);
      AnnouncesLastHeard(seed, at, retain, before);
      RunHoldsWindow(seed, at, retain, before);
      if Heard(ops, |ops| - 1) {
        LastHeardGrows(ops, s.notified);
      } else {
        LastHeardStays(ops, s.notified);
      }
    }
  }

  // The channel holds the current generation exactly if nothing was published or a receiver was
  // alive at the last publish.
  lemma AnnouncesNewestIff(seed: View, at: nat, retain: nat, ops: seq<Op>)
    requires Publishes(ops) <= U64_MAX
    ensures var s := Run(seed, at, retain, ops);
      s.notified == s.current <==>
        || Publishes(ops) == 0
        || exists i :: 0 <= i < |ops| && Heard(ops, i) && NumberAt(ops, i) == Publishes(ops)
  {
    RunHoldsWindow(seed, at, retain, ops);
    AnnouncesLastHeard(seed, at, retain, ops);
  }

  // The long poll of a following session waits exactly for clients at the current generation, as
  // documented, if and only if the channel holds it.  Otherwise a client at the stale number is
  // kept waiting although a newer generation is there.
  lemma WaitsForNewestIff(s: LiveState)
    ensures (forall known :: Waits(s, true, known) <==> known == Some(s.current)) <==> s.notified == s.current
    ensures s.notified < s.current ==> Waits(s, true, Some(s.notified)) && !Waits(s, true, Some(s.current))
  {
    assert Waits(s, true, Some(s.notified));
  }

  // The first re-read of a session nobody waits on is not announced.
  lemma UnheardPublishIsStale(seed: View, at: nat, retain: nat, view: View, duration: nat)
    ensures var s := Run(seed, at, retain, [Publish(view, at, duration)]);
      s.current == 1 && Waits(s, true, Some(0))
  {
    var ops := [Publish(view, at, duration)];
    assert ops[..0] == [] && Publishes(ops) == 1 && Receivers(ops[..0]) == 0;
    RunHoldsWindow(seed, at, retain, ops);
    AnnouncesLastHeard(seed, at, retain, ops);
  }

  // Each generation's latest revision is the largest among its stored views.
  lemma LatestIsMaximum(seed: View, at: nat, retain: nat, ops: seq<Op>, g: nat)
    requires Publishes(ops) <= U64_MAX
    ensures var s := Run(seed, at, retain, ops);
      g in s.generations ==>
        && s.generations[g].number == g
        && s.generations[g].latest in s.generations[g].views
        && forall r: nat :: r in s.generations[g].views ==>
             r <= s.generations[g].latest && s.generations[g].views[r].revision == r
  {
    RunHoldsWindow(seed, at, retain, ops);
  }

  // One generation at two moments: nothing stored is lost or changed and the latest revision
  // does not go back.
  ghost predicate Grown(before: Generation, after: Generation)
  {
    && before.latest <= after.latest
    && (forall r: nat :: r in before.views ==> r in after.views && after.views[r] == before.views[r])
    && after.fingerprint == before.fingerprint
    && after.observedAt == before.observedAt && after.scanDuration == before.scanDuration
  }

  lemma StepGrows(s: LiveState, retain: nat, k: nat, op: Op, g: nat)
    requires WindowHolds(s, retain, k) && k < U64_MAX && g <= k
    ensures var t := Step(s, retain, op);
      g in t.generations ==> g in s.generations && Grown(s.generations[g], t.generations[g])
  {
    if op.Publish? {
      PublishKeepsWindow(s, retain, k, op.view, op.at, op.duration);
    }
  }

  lemma {:induction false} PublishesMonotone(ops: seq<Op>, n: nat)
    requires n <= |ops|
    ensures Publishes(ops[..n]) <= Publishes(ops)
    decreases |ops|
  {
    if n < |ops| {
      assert ops[..|ops| - 1][..n] == ops[..n];
      PublishesMonotone(ops[..|ops| - 1], n);
    } else {
      assert ops[..n] == ops;
    }
  }

  // Between any two moments of a run: a generation that existed at the first and is retained at
  // the second was retained throughout, so an evicted one never returns, and its stored views
  // are unchanged.
  lemma {:induction false} GenerationsOnlyGrow(seed: View, at: nat, retain: nat, ops: seq<Op>, n: nat, g: nat)
    requires Publishes(ops) < U64_MAX && n <= |ops| && g <= Publishes(ops[..n])
    ensures var s, t := Run(seed, at, retain, ops[..n]), Run(seed, at, retain, ops);
      g in t.generations ==> g in s.generations && Grown(s.generations[g], t.generations[g])
    decreases |ops|
  {
    if n == |ops| {
      assert ops[..n] == ops;
    } else {
      var before := ops[..|ops| - 1];
      assert before[..n] == ops[..n];
      PublishesMonotone(before, n);
      GenerationsOnlyGrow(seed, at, retain, before, n, g);
      RunHoldsWindow(seed, at, retain, before);
      StepGrows(Run(seed, at, retain, before), retain, Publishes(before), ops[|ops| - 1], g);
    }
  }

  // A revision that is kept strictly increases its generation's latest revision and is what the
  // generation is read as from then on; no other generation changes.
  lemma KeptRevisionIsLatest(s: LiveState, generation: nat, view: View)
    requires WellFormed(s) && Extends(s, generation, view)
    ensures var t := Revised(s, generation, view);
      && WellFormed(t)
      && t.generations[generation].latest > s.generations[generation].latest
      && ReadingOf(t, generation).Some? && ReadingOf(t, generation).value.view == view
      && (forall g: nat :: g != generation ==> ReadingOf(t, g) == ReadingOf(s, g))
  {
  }

  // A reading of an older generation, or one with a change pending, never counts as valid; the
  // others read as they were scanned.
  lemma StandingIsHonest(seed: View, at: nat, retain: nat, ops: seq<Op>, g: nat)
    requires Publishes(ops) <= U64_MAX
    ensures var s := Run(seed, at, retain, ops);
      ReadingOf(s, g).Some? ==>
        var r := ReadingOf(s, g).value;
        && r.generation == g
        && (r.validity == Valid <==> r.view.validity == Valid && g == Publishes(ops) && !s.changePending)
        && (r.validity == Torn <==> r.view.validity == Torn)
        && (r.validity == Invalidated <==> r.view.validity == Invalidated)
        && (r.validity == Superseded <==>
              && r.view.validity != Torn && r.view.validity != Invalidated
              && (g < Publishes(ops) || s.changePending || r.view.validity == Superseded))
  {
    RunHoldsWindow(seed, at, retain, ops);
  }

  // After k publishes a generation takes a revision exactly if it is in the window and the
  // revision is newer than its latest one, whether or not later generations exist.
  lemma RevisionsTakenIff(seed: View, at: nat, retain: nat, ops: seq<Op>, g: nat, view: View)
    requires Publishes(ops) <= U64_MAX
    ensures var s := Run(seed, at, retain, ops);
      && (InWindow(retain, Publishes(ops), g) ==> g in s.generations)
      && (Extends(s, g, view) <==>
            InWindow(retain, Publishes(ops), g) && view.revision > s.generations[g].latest)
  {
    RunHoldsWindow(seed, at, retain, ops);
  }

  // No generation that a re-read has overtaken takes any revision, as documented.
  ghost predicate OvertakenRefuse(s: LiveState)
  {
    forall g: nat, view :: g < s.current ==> !Extends(s, g, view)
  }

  // The documentation holds of a run exactly if nothing was re-read or only one generation is
  // retained: otherwise the generation before the current one still takes revisions.
  lemma OvertakenRefuseIff(seed: View, at: nat, retain: nat, ops: seq<Op>)
    requires Publishes(ops) <= U64_MAX
    ensures OvertakenRefuse(Run(seed, at, retain, ops)) <==> retain <= 1 || Publishes(ops) == 0
  {
    RunHoldsWindow(seed, at, retain, ops);
    var s, k := Run(seed, at, retain, ops), Publishes(ops);
    if retain > 1 && k > 0 {
      assert InWindow(retain, k, k - 1);
      var newer := View(s.generations[k - 1].latest + 1, Valid, 0, []);
      assert Extends(s, k - 1, newer);
    }
  }

  // Contrary to the method's documentation, a retained generation that a re-read has already
  // overtaken still accepts revisions.
  lemma OvertakenGenerationStillExtends()
    ensures exists seed, at, retain, ops, g: nat, view ::
      var s := Run(seed, at, retain, ops);
      g < s.current && Extends(s, g, view)
  {
    var seed := View(1, Valid, 0, []);
    var ops := [Publish(View(1, Valid, 1, []), 0, 0)];
    assert ops[..0] == [] && Publishes(ops) == 1;
    OvertakenRefuseIff(seed, 0, 2, ops);
    var g: nat, view :| g < Run(seed, 0, 2, ops).current && Extends(Run(seed, 0, 2, ops), g, view);
  }
}
