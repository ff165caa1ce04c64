// Collection requests and the loads made of them: `volumes`, `sectors`, `collection_start`,
// `collection_response` and `sector_collection_window` in `src/web.rs`.
module Pagination {
  import opened Wrappers
  import opened Bits
  import Eligible
  import Pages
  import opened LiveSource
  import opened Cursor
  import Decimal

  datatype Collection = Volumes | Sectors(vol: int)

  datatype Response =
    | Unavailable
    | UnrecognisedCursor
    | GenerationEvicted(generation: u64)
    | EntityNotFound
    | InvalidLimit
    | InvalidCursor
    | Page(generation: u64, items: seq<nat>, next: Option<string>)

  function Kind(c: Collection): string
  {
    match c
    case Volumes => "volumes"
    case Sectors(vol) => "sectors:" + if vol < 0 then "-" + Decimal.Print(-vol) else Decimal.Print(vol)
  }

  function DefaultLimit(c: Collection): nat
  {
    if c.Volumes? then 100 else 24
  }

  function MaxLimit(c: Collection): nat
  {
    if c.Volumes? then 512 else 64
  }

  function Limit(c: Collection, limit: Option<nat>): nat
  {
    if limit.Some? then limit.value else DefaultLimit(c)
  }

  function VolumeIds(volumes: seq<VolumeEntry>): (ids: seq<nat>)
    ensures |ids| == |volumes|
  {
    seq(|volumes|, i requires 0 <= i < |volumes| => volumes[i].id)
  }

  function FindVolume(volumes: seq<VolumeEntry>, vol: int): Option<VolumeEntry>
  {
    if volumes == [] then None
    else if volumes[0].id == vol then Some(volumes[0])
    else FindVolume(volumes[1..], vol)
  }

  function SectorIds(start: nat, end: nat): (ids: seq<nat>)
    requires start <= end
    ensures |ids| == end - start
    ensures forall i :: 0 <= i < |ids| ==> ids[i] == start + i
  {
    seq(end - start, i => start + i)
  }

  lemma {:induction false} FoundIsListed(volumes: seq<VolumeEntry>, vol: int)
    ensures FindVolume(volumes, vol).Some? ==> FindVolume(volumes, vol).value in volumes
  {
    if volumes != [] {
      FoundIsListed(volumes[1..], vol);
    }
  }

  type Collected = s: seq<nat> | |s| <= I32_MAX

  // The whole collection in one view.
  function Items(volumes: VolumeList, c: Collection): Option<Collected>
  {
    match c
    case Volumes => Some(VolumeIds(volumes))
    case Sectors(vol) =>
      FoundIsListed(volumes, vol);
      match FindVolume(volumes, vol)
      case None => None
      case Some(volume) => Some(SectorIds(0, volume.totalSectors))
  }

  // `GraphView::sector` gives a sector only if all its page numbers are i32s.
  predicate SectorReadable(sector: nat)
  {
    sector * Pages.SECTOR_PAGES + Pages.SECTOR_PAGES - 1 <= I32_MAX
  }

  // The sectors before the first one that cannot be read.
  const READABLE_SECTORS: nat := 0x200_0000

  // How many of the first items of a collection of this size can be served.
  function Readable(c: Collection, total: nat): (n: nat)
    ensures n <= total
  {
    if c.Sectors? && total > READABLE_SECTORS then READABLE_SECTORS else total
  }

  // `sector_collection_window`; the same bounds delimit a page of volumes.
  function Window(c: Collection, total: nat, offset: nat, limit: nat): Option<(nat, nat)>
  {
    if limit == 0 || limit > MaxLimit(c) || offset > total then None
    else Some((offset, if offset + limit < total then offset + limit else total))
  }

  // ---- One request on values ----

  function Start(s: LiveState, mac: Mac, c: Collection, cursor: Option<string>): Result<(Reading, nat), Response>
  {
    match cursor
    case None =>
      var reading := ReadingOf(s, s.current);
      if reading.None? then Failure(Unavailable) else Success((reading.value, 0))
    case Some(text) =>
      match DecodeCursor(mac, Kind(c), text)
      case None => Failure(UnrecognisedCursor)
      case Some(payload) =>
        var reading := ReadingOf(s, payload.generation);
        if reading.None? then Failure(GenerationEvicted(payload.generation))
        else Success((reading.value, payload.offset))
  }

  // The cursor issued for a generation and an offset.
  type Issuer = (u64, u64) -> string

  function IssuerOf(mac: Mac, c: Collection): Issuer
  {
    (generation: u64, offset: u64) => Encoded(mac, Kind(c), generation, offset)
  }

  function PageOf(issue: Issuer, c: Collection, generation: u64, items: Collected, offset: nat, limit: nat): Response
  {
    if limit == 0 || limit > MaxLimit(c) then InvalidLimit
    else if offset > |items| then InvalidCursor
    else
      var end := Window(c, |items|, offset, limit).value.1;
      if offset < end && Readable(c, |items|) < end then Unavailable
      else
        Page(generation, items[offset..end],
             if end < |items| then Some(issue(generation, end)) else None)
  }

  function Served(s: LiveState, mac: Mac, c: Collection, cursor: Option<string>, limit: Option<nat>): Response
  {
    match Start(s, mac, c, cursor)
    case Failure(refusal) => refusal
    case Success((reading, offset)) =>
      match Items(reading.view.volumes, c)
      case None => EntityNotFound
      case Some(items) => PageOf(IssuerOf(mac, c), c, reading.generation, items, offset, Limit(c, limit))
  }

  // ---- One request as the handlers answer it ----

  method SectorPage(mac: Mac, vol: int, reading: Reading, offset: nat, limit: nat) returns (r: Response)
    ensures r == match Items(reading.view.volumes, Sectors(vol))
      case None => EntityNotFound
      case Some(items) => PageOf(IssuerOf(mac, Sectors(vol)), Sectors(vol), reading.generation, items, offset, limit)
  {
    var volume := FindVolume(reading.view.volumes, vol);
    if volume.None? {
      return EntityNotFound;
    }
    FoundIsListed(reading.view.volumes, vol);
    var total := volume.value.totalSectors;
    if limit == 0 || limit > MaxLimit(Sectors(vol)) {
      return InvalidLimit;
    }
    if offset > total {
      return InvalidCursor;
    }
    var (start, end) := Window(Sectors(vol), total, offset, limit).value;
    var items: seq<nat> := [];
    for sector := start to end
      invariant items == SectorIds(start, sector)
      invariant start < sector ==> sector <= READABLE_SECTORS
    {
      if !SectorReadable(sector) {
        return Unavailable;
      }
      items := items + [sector];
    }
    assert items == SectorIds(0, total)[start..end];
    var next := None;
    if end < total {
      var cursor := EncodeCursor(mac, Kind(Sectors(vol)), reading.generation, end);
      next := Some(cursor);
    }
    r := Page(reading.generation, items, next);
  }

  method VolumePage(mac: Mac, reading: Reading, offset: nat, limit: nat) returns (r: Response)
    ensures r == PageOf(IssuerOf(mac, Volumes), Volumes, reading.generation, VolumeIds(reading.view.volumes), offset, limit)
  {
    var items := VolumeIds(reading.view.volumes);
    if limit == 0 || limit > MaxLimit(Volumes) {
      return InvalidLimit;
    }
    if offset > |items| {
      return InvalidCursor;
    }
    var total := |items|;
    var end := if offset + limit < total then offset + limit else total;
    var next := None;
    if end < total {
      var cursor := EncodeCursor(mac, Kind(Volumes), reading.generation, end);
      next := Some(cursor);
    }
    r := Page(reading.generation, items[offset..end], next);
  }

  method Serve(source: LiveSource, mac: Mac, c: Collection, cursor: Option<string>, limit: Option<nat>)
    returns (r: Response)
    ensures r == Served(source.State(), mac, c, cursor, limit)
  {
    var reading, offset := None, 0;
    match cursor {
      case None =>
        reading := source.Current();
        if reading.None? {
          return Unavailable;
        }
      case Some(text) =>
        var payload := DecodeCursor(mac, Kind(c), text);
        if payload.None? {
          return UnrecognisedCursor;
        }
        reading := source.Read(payload.value.generation);
        if reading.None? {
          return GenerationEvicted(payload.value.generation);
        }
        offset := payload.value.offset;
    }
    match c {
      case Volumes => r := VolumePage(mac, reading.value, offset, Limit(c, limit));
      case Sectors(vol) => r := SectorPage(mac, vol, reading.value, offset, Limit(c, limit));
    }
  }

  // ---- Loads ----

  // The session operations between two requests of a load, and the limit of the second.
  datatype Turn = Turn(ops: seq<Op>, limit: Option<nat>)

  datatype Load =
    | Finished(generation: u64, items: seq<nat>)
    | Refused(refusal: Response, items: seq<nat>)
    | Open(state: LiveState, cursor: Option<string>, items: seq<nat>)

  function Apply(retain: nat, s: LiveState, ops: seq<Op>): LiveState
    decreases |ops|
  {
    if ops == [] then s else Apply(retain, Step(s, retain, ops[0]), ops[1..])
  }

  type Handler = (LiveState, Option<string>, Option<nat>) -> Response

  // The handler of one collection in one session.
  function HandlerOf(mac: Mac, c: Collection): Handler
  {
    (s, cursor, limit) => Served(s, mac, c, cursor, limit)
  }

  // A client that follows cursors, its requests interleaved with session operations.
  function Loaded(retain: nat, handler: Handler, s: LiveState, cursor: Option<string>, got: seq<nat>,
                  turns: seq<Turn>): Load
    decreases |turns|
  {
    if turns == [] then Open(s, cursor, got)
    else
      var t := Apply(retain, s, turns[0].ops);
      match handler(t, cursor, turns[0].limit)
      case Page(generation, items, None) => Finished(generation, got + items)
      case Page(generation, items, Some(next)) => Loaded(retain, handler, t, Some(next), got + items, turns[1..])
      case refusal => Refused(refusal, got)
  }

  // Enrichment adds facts to a reading; it never changes the reading's volumes.
  predicate KeepsVolumes(s: LiveState, op: Op)
  {
    op.PublishRevision? && Extends(s, op.generation, op.revision) && ReadingOf(s, op.generation).Some? ==>
      op.revision.volumes == ReadingOf(s, op.generation).value.view.volumes
  }

  predicate AllKeepVolumes(retain: nat, s: LiveState, ops: seq<Op>)
    decreases |ops|
  {
    ops == [] || (KeepsVolumes(s, ops[0]) && AllKeepVolumes(retain, Step(s, retain, ops[0]), ops[1..]))
  }

  predicate Honest(retain: nat, c: Collection, s: LiveState, turns: seq<Turn>)
    decreases |turns|
  {
    turns == [] ||
    (&& AllKeepVolumes(retain, s, turns[0].ops)
     && 1 <= Limit(c, turns[0].limit) <= MaxLimit(c)
     && Honest(retain, c, Apply(retain, s, turns[0].ops), turns[1..]))
  }

  function PublishesIn(ops: seq<Op>): nat
  {
    if ops == [] then 0 else PublishesBy(ops[0]) + PublishesIn(ops[1..])
  }

  function TurnPublishes(turns: seq<Turn>): nat
  {
    if turns == [] then 0 else PublishesIn(turns[0].ops) + TurnPublishes(turns[1..])
  }

  ghost predicate VolumesFrom(s: LiveState, t: LiveState, g: nat)
  {
    ReadingOf(t, g).Some? ==>
      ReadingOf(s, g).Some? && ReadingOf(t, g).value.view.volumes == ReadingOf(s, g).value.view.volumes
  }

  lemma PublishKeepsVolumes(retain: nat, s: LiveState, k: nat, op: Op, g: nat)
    requires op.Publish? && WindowHolds(s, retain, k) && k < U64_MAX && g <= k
    ensures var t := Published(s, retain, op.view, op.at, op.duration);
      WindowHolds(t, retain, k + 1) && VolumesFrom(s, t, g)
  {
    PublishKeepsWindow(s, retain, k, op.view, op.at, op.duration);
  }

  function PublishesBy(op: Op): nat
  {
    if op.Publish? then 1 else 0
  }

  lemma StepKeepsVolumes(retain: nat, s: LiveState, k: nat, op: Op, g: nat)
    requires WindowHolds(s, retain, k) && KeepsVolumes(s, op) && g <= k
    requires k + PublishesBy(op) <= U64_MAX
    ensures WindowHolds(Step(s, retain, op), retain, k + PublishesBy(op))
    ensures VolumesFrom(s, Step(s, retain, op), g)
  {
    if op.Publish? {
      PublishKeepsVolumes(retain, s, k, op, g);
    }
  }

  lemma {:induction false} OpsKeepVolumes(retain: nat, s: LiveState, k: nat, ops: seq<Op>, g: nat)
    requires WindowHolds(s, retain, k) && AllKeepVolumes(retain, s, ops) && g <= k
    requires k + PublishesIn(ops) <= U64_MAX
    ensures WindowHolds(Apply(retain, s, ops), retain, k + PublishesIn(ops))
    ensures VolumesFrom(s, Apply(retain, s, ops), g)
    decreases |ops|
  {
    if ops != [] {
      StepKeepsVolumes(retain, s, k, ops[0], g);
      OpsKeepVolumes(retain, Step(s, retain, ops[0]), k + PublishesBy(ops[0]), ops[1..], g);
    }
  }

  lemma IssuedCursorStarts(retain: nat, mac: Mac, c: Collection, s: LiveState, k: nat, g: u64, n: u64)
    requires WindowHolds(s, retain, k)
    ensures var start := Start(s, mac, c, Some(Encoded(mac, Kind(c), g, n)));
      && (start == Failure(GenerationEvicted(g)) <==> !InWindow(retain, k, g))
      && (InWindow(retain, k, g) ==>
            && start.Success? && start.value.1 == n && start.value.0.generation == g
            && ReadingOf(s, g) == Some(start.value.0))
  {
    CursorRoundTrip(mac, Kind(c), g, n);
  }

  // The answer to a request for items n on of generation g.
  ghost predicate Continues(r: Response, s: LiveState, retain: nat, k: nat, issue: Issuer, c: Collection, g: u64,
                            n: u64, limit: Option<nat>)
  {
    if InWindow(retain, k, g) then
      && ReadingOf(s, g).Some?
      && r == match Items(ReadingOf(s, g).value.view.volumes, c)
         case None => EntityNotFound
         case Some(all) => PageOf(issue, c, g, all, n, Limit(c, limit))
    else r == GenerationEvicted(g)
  }

  // A request with an issued cursor is answered from the generation the cursor names, or is
  // refused exactly when that generation has been evicted.
  lemma IssuedCursorServed(retain: nat, mac: Mac, c: Collection, s: LiveState, k: nat, g: u64, n: u64,
                           limit: Option<nat>)
    requires WindowHolds(s, retain, k)
    ensures Continues(Served(s, mac, c, Some(Encoded(mac, Kind(c), g, n)), limit),
                      s, retain, k, IssuerOf(mac, c), c, g, n, limit)
  {
    IssuedCursorStarts(retain, mac, c, s, k, g, n);
  }

  ghost predicate Follows(handler: Handler, retain: nat, issue: Issuer, c: Collection)
  {
    forall s: LiveState, k: nat, g: u64, n: u64, limit: Option<nat> ::
      WindowHolds(s, retain, k) ==>
        Continues(handler(s, Some(issue(g, n)), limit), s, retain, k, issue, c, g, n, limit)
  }

  lemma HandlerFollows(retain: nat, mac: Mac, c: Collection)
    ensures Follows(HandlerOf(mac, c), retain, IssuerOf(mac, c), c)
  {
    forall s: LiveState, k: nat, g: u64, n: u64, limit: Option<nat> | WindowHolds(s, retain, k)
      ensures Continues(HandlerOf(mac, c)(s, Some(IssuerOf(mac, c)(g, n)), limit), s, retain, k, IssuerOf(mac, c), c, g, n,
                        limit)
    {
      IssuedCursorServed(retain, mac, c, s, k, g, n, limit);
    }
  }

  // What is true of a load on generation g that has got the first n of all items.
  ghost predicate LoadOk(load: Load, issue: Issuer, c: Collection, g: u64, all: Collected, n: nat, turns: nat,
                         evictable: bool)
  {
    match load
    case Finished(generation, items) => generation == g && items == all && Readable(c, |all|) == |all|
    case Refused(refusal, items) =>
      && items <= all && |items| <= Readable(c, |all|)
      && ((refusal == GenerationEvicted(g) && evictable) || RefusedAtLimit(refusal, c, all, |items|))
    case Open(_, cursor, items) =>
      && items <= all && n + turns <= |items| < |all| && |items| <= Readable(c, |all|)
      && cursor == Some(issue(g, |items|))
  }

  // Fewer items can be served than there are, and the next page reaches beyond them.
  ghost predicate RefusedAtLimit(refusal: Response, c: Collection, all: Collected, n: nat)
  {
    refusal == Unavailable && Readable(c, |all|) < |all| && Readable(c, |all|) < n + MaxLimit(c)
  }

  // A legal page is refused exactly if it reaches beyond the items that can be served; otherwise
  // it advances, and lacks a cursor exactly at the end.
  lemma PageAdvances(issue: Issuer, c: Collection, g: u64, all: Collected, n: nat, limit: nat)
    requires n <= |all| && 1 <= limit <= MaxLimit(c)
    ensures var page := PageOf(issue, c, g, all, n, limit);
      && (page == Unavailable <==> n < |all| && Readable(c, |all|) < |all| && Readable(c, |all|) < n + limit)
      && (page != Unavailable ==>
            && page.Page? && page.generation == g
            && all[..n] + page.items == all[..n + |page.items|]
            && (n < |all| ==> 0 < |page.items| && n + |page.items| <= Readable(c, |all|))
            && (page.next.None? <==> n + |page.items| == |all|)
            && (page.next.Some? ==> |page.items| >= 1 && page.next.value == issue(g, n + |page.items|)))
  {
  }

  ghost predicate Offers(s: LiveState, c: Collection, g: u64, all: Collected)
  {
    ReadingOf(s, g).Some? ==> Items(ReadingOf(s, g).value.view.volumes, c) == Some(all)
  }

  // One request of a load: it is refused, finishes the load, or leaves it open m items in.
  lemma LoadTurn(retain: nat, handler: Handler, issue: Issuer, c: Collection, s: LiveState, k: nat,
                 g: u64, all: Collected, n: nat, turns: seq<Turn>) returns (m: nat)
    requires Follows(handler, retain, issue, c)
    requires WindowHolds(s, retain, k) && g <= k && turns != [] && k + PublishesIn(turns[0].ops) <= U64_MAX
    requires n < |all| && Offers(s, c, g, all)
    requires AllKeepVolumes(retain, s, turns[0].ops) && 1 <= Limit(c, turns[0].limit) <= MaxLimit(c)
    ensures n < m <= |all| && m <= n + MaxLimit(c)
    ensures var t, k' := Apply(retain, s, turns[0].ops), k + PublishesIn(turns[0].ops);
      var load := Loaded(retain, handler, s, Some(issue(g, n)), all[..n], turns);
      && WindowHolds(t, retain, k') && Offers(t, c, g, all)
      && load == if !InWindow(retain, k', g) then Refused(GenerationEvicted(g), all[..n])
                 else if Readable(c, |all|) < m then Refused(Unavailable, all[..n])
                 else if m == |all| then Finished(g, all)
                 else Loaded(retain, handler, t, Some(issue(g, m)), all[..m], turns[1..])
  {
    var t, k', limit := Apply(retain, s, turns[0].ops), k + PublishesIn(turns[0].ops), turns[0].limit;
    OpsKeepVolumes(retain, s, k, turns[0].ops, g);
    m := AnswerAdvances(retain, handler, issue, c, t, k', g, all, n, limit);
  }

  lemma AnswerAdvances(retain: nat, handler: Handler, issue: Issuer, c: Collection, t: LiveState, k: nat,
                       g: u64, all: Collected, n: nat, limit: Option<nat>) returns (m: nat)
    requires Follows(handler, retain, issue, c) && WindowHolds(t, retain, k)
    requires n < |all| && Offers(t, c, g, all) && 1 <= Limit(c, limit) <= MaxLimit(c)
    ensures n < m <= |all| && m <= n + MaxLimit(c)
    ensures handler(t, Some(issue(g, n)), limit)
         == if !InWindow(retain, k, g) then GenerationEvicted(g)
            else if Readable(c, |all|) < m then Unavailable
            else Page(g, all[n..m], if m < |all| then Some(issue(g, m)) else None)
    ensures all[..n] + all[n..m] == all[..m] && (m == |all| ==> all[..m] == all)
  {
    var r := handler(t, Some(issue(g, n)), limit);
    assert Continues(r, t, retain, k, issue, c, g, n, limit);
    m := Window(c, |all|, n, Limit(c, limit)).value.1;
  }

  lemma {:induction false} LoadContinues(retain: nat, handler: Handler, issue: Issuer, c: Collection, s: LiveState,
                                         k: nat, g: u64, all: Collected, n: nat, turns: seq<Turn>)
    requires Follows(handler, retain, issue, c)
    requires WindowHolds(s, retain, k) && g <= k && k + TurnPublishes(turns) <= U64_MAX
    requires n < |all| && n <= Readable(c, |all|) && Honest(retain, c, s, turns) && Offers(s, c, g, all)
    ensures LoadOk(Loaded(retain, handler, s, Some(issue(g, n)), all[..n], turns),
                   issue, c, g, all, n, |turns|, !InWindow(retain, k + TurnPublishes(turns), g))
    decreases |turns|
  {
    if turns != [] {
      var m := LoadTurn(retain, handler, issue, c, s, k, g, all, n, turns);
      var rest, k' := turns[1..], k + PublishesIn(turns[0].ops);
      if InWindow(retain, k', g) && m < |all| && m <= Readable(c, |all|) {
        var t := Apply(retain, s, turns[0].ops);
        LoadContinues(retain, handler, issue, c, t, k', g, all, m, rest);
        LoadOkEarlier(Loaded(retain, handler, t, Some(issue(g, m)), all[..m], rest), issue, c, g, all, n, m, |rest|,
                      !InWindow(retain, k' + TurnPublishes(rest), g));
      }
    }
  }

  lemma LoadOkEarlier(load: Load, issue: Issuer, c: Collection, g: u64, all: Collected, n: nat, m: nat, turns: nat,
                      evictable: bool)
    requires n < m && LoadOk(load, issue, c, g, all, m, turns, evictable)
    ensures LoadOk(load, issue, c, g, all, n, turns + 1, evictable)
  {
  }

  // The answer to a request without a cursor.
  ghost predicate Opens(r: Response, s: LiveState, issue: Issuer, c: Collection, limit: Option<nat>)
  {
    && ReadingOf(s, s.current).Some?
    && ReadingOf(s, s.current).value.generation == s.current
    && r == match Items(ReadingOf(s, s.current).value.view.volumes, c)
       case None => EntityNotFound
       case Some(all) => PageOf(issue, c, s.current, all, 0, Limit(c, limit))
  }

  lemma FirstRequestServed(retain: nat, mac: Mac, c: Collection, s: LiveState, k: nat, limit: Option<nat>)
    requires WindowHolds(s, retain, k)
    ensures Opens(HandlerOf(mac, c)(s, None, limit), s, IssuerOf(mac, c), c, limit)
  {
    assert InWindow(retain, k, k);
  }

  lemma LoadStarts(retain: nat, handler: Handler, issue: Issuer, c: Collection, s: LiveState, k: nat, all: Collected,
                   turns: seq<Turn>)
    requires Follows(handler, retain, issue, c) && turns != []
    requires WindowHolds(s, retain, k) && k + TurnPublishes(turns) <= U64_MAX && Honest(retain, c, s, turns)
    requires var t := Apply(retain, s, turns[0].ops);
      && Opens(handler(t, None, turns[0].limit), t, issue, c, turns[0].limit)
      && Items(ReadingOf(t, t.current).value.view.volumes, c) == Some(all)
    ensures LoadOk(Loaded(retain, handler, s, None, [], turns), issue, c, Apply(retain, s, turns[0].ops).current,
                   all, 0, |turns|,
                   !InWindow(retain, k + TurnPublishes(turns), Apply(retain, s, turns[0].ops).current))
    ensures |turns| >= |all| ==> !Loaded(retain, handler, s, None, [], turns).Open?
  {
    var t := Apply(retain, s, turns[0].ops);
    OpsKeepVolumes(retain, s, k, turns[0].ops, 0);
    var g, r, load := t.current, handler(t, None, turns[0].limit), Loaded(retain, handler, s, None, [], turns);
    PageAdvances(issue, c, g, all, 0, Limit(c, turns[0].limit));
    assert [] + r.items == r.items == all[..|r.items|];
    if r.next.None? {
      assert load == Finished(g, all);
    } else {
      var m, rest := |r.items|, turns[1..];
      assert load == Loaded(retain, handler, t, r.next, all[..m], rest);
      LoadContinues(retain, handler, issue, c, t, g, g, all, m, rest);
      LoadOkEarlier(load, issue, c, g, all, 0, m, |rest|, !InWindow(retain, g + TurnPublishes(rest), g));
    }
  }

  // A load started on the newest generation g returns that generation's whole collection, each
  // index once and in order, in at most one request per item (one if there are none), or is
  // refused: because g has been evicted, or because the next page reaches a sector that cannot be
  // read, which leaves the load unfinished.  Publishes and revisions may come in between.
  lemma LoadEnumeratesOnce(retain: nat, mac: Mac, c: Collection, s: LiveState, k: nat, turns: seq<Turn>)
    requires WindowHolds(s, retain, k) && k + TurnPublishes(turns) <= U64_MAX
    requires Honest(retain, c, s, turns) && turns != []
    ensures var t := Apply(retain, s, turns[0].ops);
      var load := Loaded(retain, HandlerOf(mac, c), s, None, [], turns);
      && ReadingOf(t, t.current).Some?
      && match Items(ReadingOf(t, t.current).value.view.volumes, c)
         case None => load == Refused(EntityNotFound, [])
         case Some(all) =>
           && LoadOk(load, IssuerOf(mac, c), c, t.current, all, 0, |turns|,
                     !InWindow(retain, k + TurnPublishes(turns), t.current))
           && (|turns| >= |all| ==> !load.Open?)
  {
    var t := Apply(retain, s, turns[0].ops);
    OpsKeepVolumes(retain, s, k, turns[0].ops, 0);
    HandlerFollows(retain, mac, c);
    FirstRequestServed(retain, mac, c, t, k + PublishesIn(turns[0].ops), turns[0].limit);
    var items := Items(ReadingOf(t, t.current).value.view.volumes, c);
    if items.Some? {
      LoadStarts(retain, HandlerOf(mac, c), IssuerOf(mac, c), c, s, k, items.value, turns);
    }
  }

  // ---- Which collections can be loaded ----

  function CurrentItems(s: LiveState, c: Collection): Option<Collected>
  {
    var reading := ReadingOf(s, s.current);
    if reading.None? then None else Items(reading.value.view.volumes, c)
  }

  // Requests with legal limits that begin in state s, after k publishes, and are enough to get
  // the collection item by item.
  ghost predicate EnoughTurns(retain: nat, c: Collection, s: LiveState, k: nat, total: nat, turns: seq<Turn>)
  {
    && turns != [] && turns[0].ops == [] && |turns| >= total
    && Honest(retain, c, s, turns) && k + TurnPublishes(turns) <= U64_MAX
  }

  ghost predicate EnumeratedOrEvicted(load: Load, g: u64, all: Collected)
  {
    match load
    case Finished(generation, items) => generation == g && items == all
    case Refused(refusal, _) => refusal == GenerationEvicted(g)
    case Open(_, _, _) => false
  }

  // Every load from state s, with any legal limits and whatever comes in between, returns the
  // whole collection or is refused as evicted.
  ghost predicate AlwaysEnumerates(retain: nat, mac: Mac, c: Collection, s: LiveState, k: nat, all: Collected)
  {
    forall turns :: EnoughTurns(retain, c, s, k, |all|, turns) ==>
      EnumeratedOrEvicted(Loaded(retain, HandlerOf(mac, c), s, None, [], turns), s.current, all)
  }

  lemma LoadOfCurrent(retain: nat, mac: Mac, c: Collection, s: LiveState, k: nat, all: Collected, turns: seq<Turn>)
    requires WindowHolds(s, retain, k) && CurrentItems(s, c) == Some(all)
    requires EnoughTurns(retain, c, s, k, |all|, turns)
    ensures var load := Loaded(retain, HandlerOf(mac, c), s, None, [], turns);
      && LoadOk(load, IssuerOf(mac, c), c, s.current, all, 0, |turns|,
                !InWindow(retain, k + TurnPublishes(turns), s.current))
      && !load.Open?
  {
    assert Apply(retain, s, turns[0].ops) == s;
    LoadEnumeratesOnce(retain, mac, c, s, k, turns);
  }

  // Requests with the default limit and nothing in between.
  function Quiet(n: nat): seq<Turn>
  {
    if n == 0 then [] else [Turn([], None)] + Quiet(n - 1)
  }

  lemma {:induction false} QuietIsHonest(retain: nat, c: Collection, s: LiveState, n: nat)
    ensures |Quiet(n)| == n && Honest(retain, c, s, Quiet(n)) && TurnPublishes(Quiet(n)) == 0
  {
    if n > 0 {
      QuietIsHonest(retain, c, s, n - 1);
      assert Quiet(n)[1..] == Quiet(n - 1);
    }
  }

  // An undisturbed load of a collection that cannot be served whole gets less than the readable
  // part and is refused as unavailable.
  lemma QuietLoadRefused(retain: nat, mac: Mac, c: Collection, s: LiveState, k: nat, all: Collected)
    requires WindowHolds(s, retain, k) && k <= U64_MAX && CurrentItems(s, c) == Some(all)
    requires Readable(c, |all|) < |all|
    ensures EnoughTurns(retain, c, s, k, |all|, Quiet(|all|))
    ensures var load := Loaded(retain, HandlerOf(mac, c), s, None, [], Quiet(|all|));
      && load.Refused? && load.refusal == Unavailable
      && load.items <= all && |load.items| <= READABLE_SECTORS < |load.items| + MaxLimit(c)
  {
    QuietIsHonest(retain, c, s, |all|);
    LoadOfCurrent(retain, mac, c, s, k, all, Quiet(|all|));
  }

  // All loads of a collection from state s enumerate it or are evicted exactly if it can be served
  // whole.
  lemma AlwaysEnumeratesIff(retain: nat, mac: Mac, c: Collection, s: LiveState, k: nat, all: Collected)
    requires WindowHolds(s, retain, k) && k <= U64_MAX && CurrentItems(s, c) == Some(all)
    ensures AlwaysEnumerates(retain, mac, c, s, k, all) <==> Readable(c, |all|) == |all|
  {
    if Readable(c, |all|) == |all| {
      forall turns | EnoughTurns(retain, c, s, k, |all|, turns)
        ensures EnumeratedOrEvicted(Loaded(retain, HandlerOf(mac, c), s, None, [], turns), s.current, all)
      {
        LoadOfCurrent(retain, mac, c, s, k, all, turns);
      }
    } else {
      QuietLoadRefused(retain, mac, c, s, k, all);
    }
  }

  // For the sectors of a volume that is exactly if the number of each of its pages is an i32;
  // otherwise an undisturbed load is refused with at most the readable sectors.  Loads of the
  // volumes always enumerate them.
  lemma SectorLoadsEnumerateIff(retain: nat, mac: Mac, vol: int, s: LiveState, k: nat, volume: VolumeEntry)
    requires WindowHolds(s, retain, k) && k <= U64_MAX && ReadingOf(s, s.current).Some?
    requires FindVolume(ReadingOf(s, s.current).value.view.volumes, vol) == Some(volume)
    ensures var all := SectorIds(0, volume.totalSectors);
      && |all| <= I32_MAX
      && (AlwaysEnumerates(retain, mac, Sectors(vol), s, k, all) <==>
            volume.totalSectors * Pages.SECTOR_PAGES <= I32_MAX + 1)
      && (volume.totalSectors * Pages.SECTOR_PAGES > I32_MAX + 1 ==>
            var load := Loaded(retain, HandlerOf(mac, Sectors(vol)), s, None, [], Quiet(|all|));
            load.Refused? && load.refusal == Unavailable && load.items <= all && |load.items| <= READABLE_SECTORS)
  {
    FoundIsListed(ReadingOf(s, s.current).value.view.volumes, vol);
    var all := SectorIds(0, volume.totalSectors);
    AlwaysEnumeratesIff(retain, mac, Sectors(vol), s, k, all);
    if volume.totalSectors > READABLE_SECTORS {
      QuietLoadRefused(retain, mac, Sectors(vol), s, k, all);
    }
  }

  lemma VolumeLoadsEnumerate(retain: nat, mac: Mac, s: LiveState, k: nat)
    requires WindowHolds(s, retain, k) && k <= U64_MAX && ReadingOf(s, s.current).Some?
    ensures AlwaysEnumerates(retain, mac, Volumes, s, k, VolumeIds(ReadingOf(s, s.current).value.view.volumes))
  {
    AlwaysEnumeratesIff(retain, mac, Volumes, s, k, VolumeIds(ReadingOf(s, s.current).value.view.volumes));
  }

  // A volume of that size whose first sectors alone are reserved.
  const LARGE: nat := 0x200_0040
  const LARGE_SYSTEM_LAST: nat := 257

  function LargeVolume(): Eligible.Volume
  {
    Eligible.Volume(0, LARGE, LARGE_SYSTEM_LAST, seq(0x8_0001, i => if i == 0 then 31 else 0))
  }

  // It passes the page count and all its eligible pages fit, so that it opens; but its sectors are
  // refused part of the way.
  lemma LargeVolumeNotLoaded(mac: Mac, retain: nat, view: View, at: nat)
    requires view.volumes == [VolumeEntry(0, LARGE)]
    ensures Eligible.Fits(LargeVolume())
    ensures var load := Loaded(retain, HandlerOf(mac, Sectors(0)), Seeded(view, at), None, [], Quiet(LARGE));
      load.Refused? && load.refusal == Unavailable && |load.items| <= READABLE_SECTORS
  {
    Eligible.FitsIff(LargeVolume());
    RunHoldsWindow(view, at, retain, []);
    assert Run(view, at, retain, []) == Seeded(view, at);
    SectorLoadsEnumerateIff(retain, mac, 0, Seeded(view, at), 0, VolumeEntry(0, LARGE));
  }
}
