// When the fast scan reads ahead to a page that is no i32, stated over its pages and limits: the
// failure of `open_profiled_with_mode` in `src/inspection.rs` beside the page count.
module ReadAheadBudget {
  import opened Wrappers
  import opened Bits
  import opened Pages
  import opened PackedFact
  import opened Eligible
  import opened ScanModel
  import opened ReadAhead
  import opened ScanBudget

  // A wave holds sixteen pages for each worker, of which there is at least one.
  function Capacity(c: Config): (n: nat)
    ensures n > 0
  {
    var workers := if c.policy.workers < c.availableWorkers then c.policy.workers else c.availableWorkers;
    if workers == 0 then 16 else 16 * workers
  }

  // How many pages the wave behind these pages may hold.
  function RoomBehind(c: Config, ps: seq<Place>): nat
  {
    if Base(c) > c.policy.memoryLimit then 0
    else if !ToSpill(c) || c.policy.spillLimit >= 16 * (|ps| + Capacity(c)) then Capacity(c)
    else if c.policy.spillLimit <= 16 * |ps| then 0
    else (c.policy.spillLimit - 16 * |ps|) / 16
  }

  // The pages before volume k and the first n of its own.
  function PlacesTo(c: Config, k: nat, n: nat): seq<Place>
    requires k < |c.volumes| && n <= |PageNumbers(c.volumes[k])|
  {
    PlacesBelow(c, k) + PlacesOf(k, PageNumbers(c.volumes[k])[..n])
  }

  // Volume k has a page beyond i32, and either all pages before it pass, or those before the last
  // wave do, and this wave has room for more than the rest of them.
  ghost predicate ReadsBeyond(c: Config, k: nat)
    requires k < |c.volumes|
  {
    var m := |PageNumbers(c.volumes[k])|;
    && (exists page: nat :: page in EligiblePages(c.volumes[k]) && page > 0x7FFF_FFFF)
    && (PassedTo(c, k, m)
        || (var w := LastStart(m, Capacity(c));
            PassedTo(c, k, w) && m - w < RoomBehind(c, PlacesTo(c, k, w))))
  }

  ghost predicate PassedTo(c: Config, k: nat, n: nat)
    requires k < |c.volumes| && n <= |PageNumbers(c.volumes[k])|
  {
    Within(c, PlacesTo(c, k, n)) && Passed(c, PlacesTo(c, k, n))
  }

  lemma StateIs(c: Config, k: nat, n: nat)
    requires k < |c.volumes| && n <= |PageNumbers(c.volumes[k])|
    ensures Within(c, PlacesTo(c, k, n))
    ensures StateAt(c, SeqVolumes(c, k), k, n) == ScanOf(c, PlacesTo(c, k, n))
  {
    VolumesAreScanned(c, k, PlacesBelow(c, k), SeqVolumes(c, k));
    PagesAreScanned(c, PlacesBelow(c, k), k, PageNumbers(c.volumes[k])[..n]);
  }

  lemma PassedIs(c: Config, k: nat, n: nat)
    requires k < |c.volumes| && n <= |PageNumbers(c.volumes[k])|
    ensures PassedTo(c, k, n) <==> StateAt(c, SeqVolumes(c, k), k, n).stop.None?
  {
    StateIs(c, k, n);
    UnstoppedIff(c, PlacesTo(c, k, n));
  }

  lemma RoomIs(c: Config, ps: seq<Place>, s: State)
    requires Within(c, ps) && Running(c, ps, s)
    ensures Room(c, s.spillUsed) == RoomBehind(c, ps)
  {
    BudgetsAre(c);
  }

  lemma WholeIff(v: Volume)
    ensures Whole(v) <==> forall page: nat :: page in EligiblePages(v) ==> page <= 0x7FFF_FFFF
  {
    var all, fit := EligiblePages(v), PageNumbers(v);
    if Whole(v) {
      forall page: nat | page in all
        ensures page <= 0x7FFF_FFFF
      {
        var i :| 0 <= i < |all| && all[i] == page;
        assert fit[i] == all[i];
      }
    } else {
      assert all[|fit|] in all;
    }
  }

  lemma LastWaveIff(c: Config, k: nat, m: nat, w: nat, s: State)
    requires k < |c.volumes| && w <= m == |PageNumbers(c.volumes[k])| && s == StateAt(c, SeqVolumes(c, k), k, w)
    ensures PassedTo(c, k, w) && m - w < RoomBehind(c, PlacesTo(c, k, w)) <==>
      s.stop.None? && m - w < Room(c, s.spillUsed)
  {
    PassedIs(c, k, w);
    if PassedTo(c, k, w) {
      StateIs(c, k, w);
      RunsWhilePassed(c, PlacesTo(c, k, w));
      RoomIs(c, PlacesTo(c, k, w), s);
    }
  }

  lemma VolumeEndIs(c: Config, k: nat, m: nat)
    requires k < |c.volumes| && m == |PageNumbers(c.volumes[k])|
    ensures PassedTo(c, k, m) <==> SeqVolumes(c, k + 1).stop.None?
  {
    PassedIs(c, k, m);
    assert PageNumbers(c.volumes[k])[..m] == PageNumbers(c.volumes[k]);
    assert SeqVolumes(c, k + 1) == SeqVolume(c, SeqVolumes(c, k), k);
  }

  lemma VolumeReadsBeyondIff(c: Config, k: nat)
    requires k < |c.volumes|
    ensures VolumeOverruns(c, k) <==> ReadsBeyond(c, k)
  {
    var m := |PageNumbers(c.volumes[k])|;
    var w := LastStart(m, Capacity(c));
    assert Capacity(c) == WaveCapacity(c);
    VolumeOverrunsIff(c, k);
    WholeIff(c.volumes[k]);
    VolumeEndIs(c, k, m);
    LastWaveIff(c, k, m, w, StateAt(c, SeqVolumes(c, k), k, w));
  }

  // The scan asks for a page beyond i32 exactly if it reads beyond the i32 pages of some volume.
  lemma ScanReadsBeyondIff(c: Config)
    ensures ScanOverruns(c) <==> exists k :: 0 <= k < |c.volumes| && ReadsBeyond(c, k)
  {
    forall k | 0 <= k < |c.volumes|
      ensures VolumeOverruns(c, k) <==> ReadsBeyond(c, k)
    {
      VolumeReadsBeyondIff(c, k);
    }
  }
}
