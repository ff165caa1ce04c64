// What one collection request is answered, item by item: `volumes`, `sectors`, `collection_start`
// and `collection_response` in `src/web.rs`.
module ServedPages {
  import opened Wrappers
  import opened Bits
  import opened LiveSource
  import opened Cursor
  import opened Pagination
  import Decimal

  // ---- Volumes and cursor kinds ----

  // The first volume listed with this id.
  predicate FirstWith(volumes: seq<VolumeEntry>, vol: int, i: nat)
  {
    i < |volumes| && volumes[i].id == vol && forall j :: 0 <= j < i ==> volumes[j].id != vol
  }

  // A sector request is answered from the first volume listed with its id.
  lemma {:induction false} FindIsFirst(volumes: seq<VolumeEntry>, vol: int)
    ensures forall i: nat :: FirstWith(volumes, vol, i) ==> FindVolume(volumes, vol) == Some(volumes[i])
    ensures FindVolume(volumes, vol).None? <==> forall i :: 0 <= i < |volumes| ==> volumes[i].id != vol
    ensures FindVolume(volumes, vol).Some? ==> exists i: nat :: FirstWith(volumes, vol, i)
  {
    if volumes != [] && volumes[0].id != vol {
      var rest := volumes[1..];
      FindIsFirst(rest, vol);
      forall i: nat | FirstWith(volumes, vol, i)
        ensures FindVolume(volumes, vol) == Some(volumes[i])
      {
        assert FirstWith(rest, vol, i - 1);
      }
      if FindVolume(rest, vol).Some? {
        var i: nat :| FirstWith(rest, vol, i);
        assert FirstWith(volumes, vol, i + 1);
      }
      assert forall i :: 0 <= i < |rest| ==> rest[i] == volumes[i + 1];
    } else if volumes != [] {
      assert FirstWith(volumes, vol, 0);
    }
  }

  lemma PrintsDiffer(m: nat, n: nat)
    requires Decimal.Print(m) == Decimal.Print(n)
    ensures m == n
  {
    Decimal.PrintIsCanonical(m);
    Decimal.PrintIsCanonical(n);
  }

  function Signed(vol: int): string
  {
    if vol < 0 then "-" + Decimal.Print(-vol) else Decimal.Print(vol)
  }

  lemma SignShows(v: int)
    ensures Signed(v) != [] && (Signed(v)[0] == '-' <==> v < 0)
  {
    if v >= 0 {
      Decimal.PrintIsCanonical(v);
      assert Decimal.IsDigit(Signed(v)[0]);
    }
  }

  lemma MagnitudeShows(v: int)
    requires v < 0
    ensures Signed(v)[1..] == Decimal.Print(-v)
  {
  }

  lemma SignedDiffer(v: int, w: int)
    requires Signed(v) == Signed(w)
    ensures v == w
  {
    SignShows(v);
    SignShows(w);
    if v >= 0 {
      PrintsDiffer(v, w);
    } else {
      MagnitudeShows(v);
      MagnitudeShows(w);
      PrintsDiffer(-v, -w);
    }
  }

  lemma KindIs(c: Collection)
    ensures Kind(c)[0] == (if c.Volumes? then 'v' else 's')
    ensures c.Sectors? ==> Kind(c)[|"sectors:"|..] == Signed(c.vol)
  {
  }

  // Different collections, and the sectors of different volumes, have different cursor kinds.
  lemma KindsDiffer(c: Collection, d: Collection)
    ensures Kind(c) == Kind(d) <==> c == d
  {
    KindIs(c);
    KindIs(d);
    if Kind(c) == Kind(d) && c.Sectors? {
      SignedDiffer(c.vol, d.vol);
    }
  }

  // ---- One answer ----

  // A page of a collection of this total, from the offset on; items from `unreadable` on cannot be served.
  ghost predicate Bounded(r: Response, mac: Mac, kind: string, generation: u64, total: nat, offset: nat, limit: nat,
                          max: nat, unreadable: nat)
  {
    if limit == 0 || limit > max then r == InvalidLimit
    else if offset > total then r == InvalidCursor
    else
      var end := if offset + limit < total then offset + limit else total;
      if offset < end && end > unreadable then r == Unavailable
      else
        && r.Page? && r.generation == generation && |r.items| == end - offset
        && end <= U64_MAX
        && r.next == if end < total then Some(Encoded(mac, kind, generation, end)) else None
  }

  // The answer from one reading: 100 volumes or 24 sectors, unless a limit of at most 512 or 64
  // is given; the ids of the volumes in order, or the sectors of the volume from 0 on.
  ghost predicate Answers(r: Response, mac: Mac, c: Collection, reading: Reading, offset: nat, limit: Option<nat>)
  {
    var volumes := reading.view.volumes;
    match c
    case Volumes =>
      && Bounded(r, mac, "volumes", reading.generation, |volumes|, offset,
                 if limit.Some? then limit.value else 100, 512, |volumes|)
      && (r.Page? ==> offset + |r.items| <= |volumes|
                      && forall j :: 0 <= j < |r.items| ==> r.items[j] == volumes[offset + j].id)
    case Sectors(vol) =>
      if forall i :: 0 <= i < |volumes| ==> volumes[i].id != vol then r == EntityNotFound
      else
        exists i: nat ::
          && FirstWith(volumes, vol, i)
          && Bounded(r, mac, "sectors:" + Signed(vol), reading.generation, volumes[i].totalSectors, offset,
                     if limit.Some? then limit.value else 24, 64, 0x200_0000)
          && (r.Page? ==> forall j :: 0 <= j < |r.items| ==> r.items[j] == offset + j)
  }

  lemma PageIsBounded(mac: Mac, c: Collection, generation: u64, items: Collected, offset: nat, limit: nat)
    ensures var r := PageOf(IssuerOf(mac, c), c, generation, items, offset, limit);
      && Bounded(r, mac, Kind(c), generation, |items|, offset, limit, if c.Volumes? then 512 else 64,
                 if c.Volumes? then |items| else 0x200_0000)
      && (r.Page? ==> offset + |r.items| <= |items| && r.items == items[offset..offset + |r.items|])
  {
  }

  lemma SectorsAnswer(mac: Mac, vol: int, reading: Reading, offset: nat, limit: Option<nat>)
    ensures var r := match Items(reading.view.volumes, Sectors(vol))
        case None => EntityNotFound
        case Some(items) =>
          PageOf(IssuerOf(mac, Sectors(vol)), Sectors(vol), reading.generation, items, offset, Limit(Sectors(vol), limit));
      Answers(r, mac, Sectors(vol), reading, offset, limit)
  {
    var volumes, c := reading.view.volumes, Sectors(vol);
    FindIsFirst(volumes, vol);
    if FindVolume(volumes, vol).Some? {
      var i: nat :| FirstWith(volumes, vol, i);
      FoundIsListed(volumes, vol);
      PageIsBounded(mac, c, reading.generation, SectorIds(0, volumes[i].totalSectors), offset, Limit(c, limit));
    }
  }

  lemma VolumesAnswer(mac: Mac, reading: Reading, offset: nat, limit: Option<nat>)
    ensures Answers(PageOf(IssuerOf(mac, Volumes), Volumes, reading.generation, VolumeIds(reading.view.volumes), offset,
                           Limit(Volumes, limit)), mac, Volumes, reading, offset, limit)
  {
    PageIsBounded(mac, Volumes, reading.generation, VolumeIds(reading.view.volumes), offset, Limit(Volumes, limit));
  }

  // A request is answered from the newest reading, or the one its cursor names, or refused as
  // unrecognised or evicted.
  lemma ServedIs(s: LiveState, mac: Mac, c: Collection, cursor: Option<string>, limit: Option<nat>)
    ensures var r := Served(s, mac, c, cursor, limit);
      match cursor
      case None =>
        if ReadingOf(s, s.current).None? then r == Unavailable
        else Answers(r, mac, c, ReadingOf(s, s.current).value, 0, limit)
      case Some(text) =>
        var kind := if c.Volumes? then "volumes" else "sectors:" + Signed(c.vol);
        var issued := DecodeCursor(mac, kind, text);
        if issued.None? then r == UnrecognisedCursor
        else if ReadingOf(s, issued.value.generation).None? then r == GenerationEvicted(issued.value.generation)
        else Answers(r, mac, c, ReadingOf(s, issued.value.generation).value, issued.value.offset, limit)
  {
    var start := Start(s, mac, c, cursor);
    if start.Success? {
      match c {
        case Volumes => VolumesAnswer(mac, start.value.0, start.value.1, limit);
        case Sectors(vol) => SectorsAnswer(mac, vol, start.value.0, start.value.1, limit);
      }
    }
  }
}
