// What the walks of file tables collect and why they fail, stated over the pages of the tables:
// `walk_file_table` and `collect_file_allocations` in `src/inspection.rs`.
module TableRows {
  import opened Wrappers
  import opened Bits
  import opened Pages
  import opened Walks
  import opened FileTable
  import opened Claims
  import opened Allocation

  // ---- The rows of a chain of table pages, first page first ----

  function PartialRows(p: seq<TablePage>): (rows: seq<PartialSector>)
    ensures p == [] ==> rows == []
  {
    Joined(seq(|p|, i requires 0 <= i < |p| =>
      match p[i].component.items case Partials(found) => found case _ => []))
  }

  function FullRows(p: seq<TablePage>): (rows: seq<Sector>)
    ensures p == [] ==> rows == []
  {
    Joined(seq(|p|, i requires 0 <= i < |p| =>
      match p[i].component.items case Fulls(found) => found case _ => []))
  }

  function UserRows(p: seq<TablePage>): (rows: seq<UserPage>)
    ensures p == [] ==> rows == []
  {
    Joined(seq(|p|, i requires 0 <= i < |p| =>
      match p[i].component.items case Users(found) => found case _ => []))
  }

  function TrackerRows(p: seq<TablePage>): (rows: seq<Vfid>)
    ensures p == [] ==> rows == []
  {
    Joined(seq(|p|, i requires 0 <= i < |p| =>
      match p[i].component.items case Trackers(found) => found case _ => []))
  }

  // The rows of the walk's own table are appended page by page, in order; the others are kept.
  ghost predicate Collected(before: Traversal, kind: Kind, p: seq<TablePage>, after: Traversal)
  {
    && after.partials == before.partials + (if kind.Partial? then PartialRows(p) else [])
    && after.fulls == before.fulls + (if kind.Full? then FullRows(p) else [])
    && after.users == before.users + (if kind.User? then UserRows(p) else [])
    && after.files == before.files + (if kind.Tracker? then TrackerRows(p) else [])
  }

  lemma PartialRowsOfLast(p: seq<TablePage>, page: TablePage, before: seq<PartialSector>)
    ensures before + PartialRows(p + [page]) == before + PartialRows(p) + PartialsOf(page.component.items)
  {
    var parts := seq(|p|, i requires 0 <= i < |p| =>
      match p[i].component.items case Partials(found) => found case _ => []);
    var q := p + [page];
    var all := seq(|q|, i requires 0 <= i < |q| =>
      match q[i].component.items case Partials(found) => found case _ => []);
    var last := PartialsOf(page.component.items);
    assert all == parts + [last];
    JoinedLast(parts, last);
    assert before + Joined(parts) + last == before + (Joined(parts) + last);
  }

  lemma FullRowsOfLast(p: seq<TablePage>, page: TablePage, before: seq<Sector>)
    ensures before + FullRows(p + [page]) == before + FullRows(p) + FullsOf(page.component.items)
  {
    var parts := seq(|p|, i requires 0 <= i < |p| =>
      match p[i].component.items case Fulls(found) => found case _ => []);
    var q := p + [page];
    var all := seq(|q|, i requires 0 <= i < |q| =>
      match q[i].component.items case Fulls(found) => found case _ => []);
    var last := FullsOf(page.component.items);
    assert all == parts + [last];
    JoinedLast(parts, last);
    assert before + Joined(parts) + last == before + (Joined(parts) + last);
  }

  lemma UserRowsOfLast(p: seq<TablePage>, page: TablePage, before: seq<UserPage>)
    ensures before + UserRows(p + [page]) == before + UserRows(p) + UsersOf(page.component.items)
  {
    var parts := seq(|p|, i requires 0 <= i < |p| =>
      match p[i].component.items case Users(found) => found case _ => []);
    var q := p + [page];
    var all := seq(|q|, i requires 0 <= i < |q| =>
      match q[i].component.items case Users(found) => found case _ => []);
    var last := UsersOf(page.component.items);
    assert all == parts + [last];
    JoinedLast(parts, last);
    assert before + Joined(parts) + last == before + (Joined(parts) + last);
  }

  lemma TrackerRowsOfLast(p: seq<TablePage>, page: TablePage, before: seq<Vfid>)
    ensures before + TrackerRows(p + [page]) == before + TrackerRows(p) + FilesOf(page.component.items)
  {
    var parts := seq(|p|, i requires 0 <= i < |p| =>
      match p[i].component.items case Trackers(found) => found case _ => []);
    var q := p + [page];
    var all := seq(|q|, i requires 0 <= i < |q| =>
      match q[i].component.items case Trackers(found) => found case _ => []);
    var last := FilesOf(page.component.items);
    assert all == parts + [last];
    JoinedLast(parts, last);
    assert before + Joined(parts) + last == before + (Joined(parts) + last);
  }

  lemma CollectedGrows(w: Walk, p: seq<TablePage>, page: TablePage, t: Traversal)
    requires Collected(w.before, w.kind, p, t)
    ensures Collected(w.before, w.kind, p + [page], Absorb(w.kind, w.start, t, page))
  {
    match w.kind
    case Partial => PartialRowsOfLast(p, page, w.before.partials);
    case Full => FullRowsOfLast(p, page, w.before.fulls);
    case User => UserRowsOfLast(p, page, w.before.users);
    case Tracker => TrackerRowsOfLast(p, page, w.before.files);
  }

  lemma {:induction false} AfterCollects(w: Walk, p: seq<TablePage>)
    ensures Collected(w.before, w.kind, p, After(w, p))
  {
    if p == [] {
      assert w.before.partials + [] == w.before.partials && w.before.fulls + [] == w.before.fulls;
      assert w.before.users + [] == w.before.users && w.before.files + [] == w.before.files;
    } else {
      var q, page := p[..|p| - 1], p[|p| - 1];
      AfterCollects(w, q);
      CollectedGrows(w, q, page, After(w, q));
      assert q + [page] == p;
    }
  }

  // A successful walk leaves exactly the rows of the complete chain behind those it found.
  lemma WalkCollectsRows(w: Walk, after: Traversal) returns (p: seq<TablePage>)
    requires IsWalk(w, None, after)
    ensures CompletePath(w, p) && Affordable(w, p) && Collected(w.before, w.kind, p, after)
    ensures after.tablePages == w.before.tablePages + (Visited(p) - {w.start})
  {
    p :| Ends(Judging(w), p, Completed) && after == After(w, p);
    CompletedIsComplete(w, p);
    AfterCollects(w, p);
    AfterCounts(w, p);
  }

  // ---- The three tables of a file ----

  function Seen(pages: set<Vpid>): Traversal
  {
    Traversal(pages, [], [], [], [], 0, 0)
  }

  // A page of a table that decodes to this component.
  ghost predicate Readable(input: Input, kind: Kind, page: TablePage, offset: nat)
  {
    exists area :: Holds(input.disk(page.vpid), area) && area.pageType == PageType.FileTable
                   && input.decode(kind, area, offset) == Success(page.component)
  }

  // Distinct table pages, each linked to the next, from the start page on; the start page apart,
  // none has been used by an earlier table of the file.
  ghost predicate Run(input: Input, start: Vpid, offset: nat, kind: Kind, earlier: set<Vpid>, p: seq<TablePage>)
  {
    && (p != [] ==> p[0].vpid == start && Readable(input, kind, p[0], offset))
    && (forall i :: 1 <= i < |p| ==> p[i - 1].component.next == Some(p[i].vpid))
    && (forall i, j :: 0 <= i < j < |p| ==> p[i].vpid != p[j].vpid)
    && (forall i :: 0 <= i < |p| ==> p[i].vpid == start || p[i].vpid !in earlier)
    && (forall i :: 1 <= i < |p| ==> Readable(input, kind, p[i], 0))
  }

  // Such a run up to a page without a link.
  ghost predicate Chain(input: Input, start: Vpid, offset: nat, kind: Kind, earlier: set<Vpid>, p: seq<TablePage>)
  {
    p != [] && Run(input, start, offset, kind, earlier, p) && p[|p| - 1].component.next.None?
  }

  lemma ReadableIffDecodes(w: Walk, page: TablePage, offset: nat)
    ensures Decodes(w, page, offset) <==> Readable(w.input, w.kind, page, offset)
  {
    var content := Content(w.input.disk(page.vpid));
    if Decodes(w, page, offset) {
      assert Holds(w.input.disk(page.vpid), content.value);
    }
  }

  lemma LinkedIsRun(w: Walk, p: seq<TablePage>)
    requires LinkedPrefix(w, p)
    ensures Run(w.input, w.start, w.offset, w.kind, w.before.tablePages, p)
  {
    forall i | 0 <= i < |p|
      ensures Readable(w.input, w.kind, p[i], if i == 0 then w.offset else 0)
      ensures i > 0 ==> p[i - 1].component.next == Some(p[i].vpid)
      ensures forall j :: 0 <= j < i ==> p[j].vpid != p[i].vpid
      ensures p[i].vpid == w.start || p[i].vpid !in w.before.tablePages
    {
      assert ValidAt(w, p, i);
      ReadableIffDecodes(w, p[i], if i == 0 then w.offset else 0);
    }
    assert p != [] ==> ValidAt(w, p, 0);
  }

  lemma RunIsLinked(w: Walk, p: seq<TablePage>)
    requires Run(w.input, w.start, w.offset, w.kind, w.before.tablePages, p)
    ensures LinkedPrefix(w, p)
  {
    forall i | 0 <= i < |p|
      ensures ValidAt(w, p, i)
    {
      ReadableIffDecodes(w, p[i], if i == 0 then w.offset else 0);
    }
  }

  lemma PathIsChain(w: Walk, p: seq<TablePage>)
    ensures CompletePath(w, p) <==> Chain(w.input, w.start, w.offset, w.kind, w.before.tablePages, p)
  {
    if CompletePath(w, p) {
      LinkedIsRun(w, p);
    }
    if Chain(w.input, w.start, w.offset, w.kind, w.before.tablePages, p) {
      RunIsLinked(w, p);
    }
  }

  // The chain of one table, or nothing if the header has no such table.
  ghost predicate TableRead(input: Input, start: Vpid, offset: Option<nat>, kind: Kind, earlier: set<Vpid>,
                            p: seq<TablePage>)
  {
    if offset.None? then p == [] else Chain(input, start, offset.value, kind, earlier, p)
  }

  // The partial, full and user tables, none of which uses a page of another but the header page.
  ghost predicate TablesRead(input: Input, h: Header, p: seq<TablePage>, q: seq<TablePage>, u: seq<TablePage>)
  {
    var start := Vpid(h.vfid.vol, h.vfid.file);
    && h.partialOffset.Some?
    && TableRead(input, start, h.partialOffset, Partial, {start}, p)
    && TableRead(input, start, h.fullOffset, Full, {start} + Visited(p), q)
    && TableRead(input, start, h.userOffset, User, {start} + Visited(p) + Visited(q), u)
  }

  // The n-th step is not cancelled, and its page fits in memory with its plaintext if it is encrypted.
  predicate PageAfforded(input: Input, n: nat, page: TablePage)
  {
    !input.cancelled(n) && BytesHeld(input.disk(page.vpid)) <= input.policy.memoryLimit
  }

  // The policy covers reading these table pages behind n others.
  ghost predicate PagesAfforded(input: Input, n: nat, p: seq<TablePage>)
  {
    && (p != [] ==> n + |p| <= input.policy.maxChainSteps)
    && (p != [] ==> (n + |p|) * 16_384 <= input.policy.maxDecodedBytes)
    && forall i :: 0 <= i < |p| ==> PageAfforded(input, n + i, p[i])
  }

  ghost predicate TablesAfforded(input: Input, p: seq<TablePage>, q: seq<TablePage>, u: seq<TablePage>)
  {
    PagesAfforded(input, 0, p) && PagesAfforded(input, |p|, q) && PagesAfforded(input, |p| + |q|, u)
  }

  // The traversal behind n table pages with these rows.
  function Holding(pages: set<Vpid>, partials: seq<PartialSector>, fulls: seq<Sector>, users: seq<UserPage>, n: nat)
    : Traversal
  {
    Traversal(pages, partials, fulls, users, [], n * IO_PAGE_SIZE, n)
  }

  // What reading one table does to the traversal.
  ghost predicate Reads(before: Traversal, kind: Kind, p: seq<TablePage>, after: Traversal)
  {
    && Collected(before, kind, p, after)
    && after.tablePages == before.tablePages + Visited(p)
    && after.steps == before.steps + |p|
    && after.decoded == before.decoded + |p| * IO_PAGE_SIZE
  }

  lemma NoRows(p: seq<TablePage>)
    requires p == []
    ensures PartialRows(p) == [] && FullRows(p) == [] && UserRows(p) == [] && TrackerRows(p) == []
    ensures Visited(p) == {}
  {
    forall v
      ensures v !in Visited(p)
    {
    }
  }

  lemma NothingRead(t: Traversal, kind: Kind)
    ensures Reads(t, kind, [], t)
  {
    NoRows([]);
    assert t.partials + [] == t.partials && t.fulls + [] == t.fulls;
    assert t.users + [] == t.users && t.files + [] == t.files;
    assert t.tablePages + {} == t.tablePages;
  }

  lemma ChainRead(w: Walk, p: seq<TablePage>)
    requires w.start in w.before.tablePages
    ensures Reads(w.before, w.kind, p, After(w, p))
  {
    AfterCollects(w, p);
    AfterCounts(w, p);
    assert w.before.tablePages + (Visited(p) - {w.start}) == w.before.tablePages + Visited(p);
  }

  lemma AffordableIsAfforded(w: Walk, p: seq<TablePage>)
    requires w.before.decoded == w.before.steps * IO_PAGE_SIZE && Affordable(w, p)
    ensures PagesAfforded(w.input, w.before.steps, p)
  {
    var n := w.before.steps;
    assert (n + |p|) * 16_384 == n * IO_PAGE_SIZE + |p| * IO_PAGE_SIZE;
    forall i | 0 <= i < |p|
      ensures PageAfforded(w.input, n + i, p[i])
    {
      assert StepAfforded(w, p, i);
    }
  }

  lemma AffordedIsAffordable(w: Walk, p: seq<TablePage>)
    requires w.before.decoded == w.before.steps * IO_PAGE_SIZE && PagesAfforded(w.input, w.before.steps, p)
    ensures Affordable(w, p)
  {
    var n := w.before.steps;
    assert (n + |p|) * 16_384 == n * IO_PAGE_SIZE + |p| * IO_PAGE_SIZE;
    forall i | 0 <= i < |p|
      ensures StepAfforded(w, p, i)
    {
      assert PageAfforded(w.input, n + i, p[i]);
    }
  }

  // A table of the header that is walked to its end can be read and afforded.
  lemma TableWalkedIff(input: Input, start: Vpid, offset: Option<nat>, kind: Kind, before: Traversal,
                       after: Traversal)
    requires Steady(start, before)
    ensures OptionalWalk(input, start, offset, kind, before, None, after) ==>
      exists p :: ReadStep(input, start, offset, kind, before, p, after)
  {
    if OptionalWalk(input, start, offset, kind, before, None, after) {
      if offset.None? {
        NothingRead(before, kind);
        assert ReadStep(input, start, offset, kind, before, [], after);
      } else {
        var w := Walk(input, start, offset.value, kind, before);
        var p :| Ends(Judging(w), p, Completed) && after == After(w, p);
        CompletedIsComplete(w, p);
        AffordableIsAfforded(w, p);
        ChainRead(w, p);
        PathIsChain(w, p);
        assert ReadStep(input, start, offset, kind, before, p, after);
      }
    }
  }

  lemma ReadIsWalked(input: Input, start: Vpid, offset: Option<nat>, kind: Kind, before: Traversal,
                     earlier: set<Vpid>, n: nat, p: seq<TablePage>) returns (after: Traversal)
    requires TableRead(input, start, offset, kind, earlier, p) && PagesAfforded(input, n, p)
    requires before.tablePages == earlier && before.steps == n
    requires Steady(start, before)
    ensures OptionalWalk(input, start, offset, kind, before, None, after) && Reads(before, kind, p, after)
  {
    if offset.None? {
      after := before;
      NothingRead(before, kind);
    } else {
      var w := Walk(input, start, offset.value, kind, before);
      after := After(w, p);
      PathIsChain(w, p);
      AffordedIsAffordable(w, p);
      CompletedIsComplete(w, p);
      ChainRead(w, p);
      assert IsWalk(w, None, after);
    }
  }

  // The traversal after the three tables.
  function AllRead(h: Header, p: seq<TablePage>, q: seq<TablePage>, u: seq<TablePage>): Traversal
  {
    Holding({Vpid(h.vfid.vol, h.vfid.file)} + Visited(p) + Visited(q) + Visited(u), PartialRows(p), FullRows(q),
            UserRows(u), |p| + |q| + |u|)
  }

  lemma AllReadIs(h: Header, t0: Traversal, p: seq<TablePage>, t1: Traversal, q: seq<TablePage>, t2: Traversal,
                  u: seq<TablePage>, t3: Traversal)
    requires t0 == Seen({Vpid(h.vfid.vol, h.vfid.file)})
    requires Reads(t0, Partial, p, t1) && Reads(t1, Full, q, t2) && Reads(t2, User, u, t3)
    ensures t3 == AllRead(h, p, q, u)
  {
    assert t1.partials == [] + PartialRows(p) == PartialRows(p);
    assert t2.partials == t1.partials + [] == t1.partials && t3.partials == t2.partials + [] == t2.partials;
    assert t1.fulls == [] + [] == [];
    assert t2.fulls == [] + FullRows(q) == FullRows(q) && t3.fulls == t2.fulls + [] == t2.fulls;
    assert t1.users == [] + [] == [] && t2.users == [] + [] == [];
    assert t3.users == [] + UserRows(u) == UserRows(u);
    assert t1.files == [] + [] == [] && t2.files == [] + [] == [] && t3.files == [] + [] == [];
  }

  // One table read from one traversal to the next.
  ghost predicate ReadStep(input: Input, start: Vpid, offset: Option<nat>, kind: Kind, before: Traversal,
                           p: seq<TablePage>, after: Traversal)
  {
    && TableRead(input, start, offset, kind, before.tablePages, p)
    && PagesAfforded(input, before.steps, p)
    && Reads(before, kind, p, after)
  }

  ghost predicate Steady(start: Vpid, t: Traversal)
  {
    start in t.tablePages && t.decoded == t.steps * IO_PAGE_SIZE
  }

  lemma StaysSteady(start: Vpid, before: Traversal, kind: Kind, p: seq<TablePage>, after: Traversal)
    requires Steady(start, before) && Reads(before, kind, p, after)
    ensures Steady(start, after)
  {
    assert (before.steps + |p|) * IO_PAGE_SIZE == before.steps * IO_PAGE_SIZE + |p| * IO_PAGE_SIZE;
  }

  lemma ThreeChains(input: Input, h: Header, p: seq<TablePage>, t1: Traversal, q: seq<TablePage>, t2: Traversal,
                    u: seq<TablePage>)
    requires h.partialOffset.Some?
    requires t1.tablePages == {HeaderPage(h)} + Visited(p) && t2.tablePages == {HeaderPage(h)} + Visited(p) + Visited(q)
    requires TableRead(input, HeaderPage(h), h.partialOffset, Partial, {HeaderPage(h)}, p)
    requires TableRead(input, HeaderPage(h), h.fullOffset, Full, t1.tablePages, q)
    requires TableRead(input, HeaderPage(h), h.userOffset, User, t2.tablePages, u)
    ensures TablesRead(input, h, p, q, u)
  {
  }

  lemma ThreeAfforded(input: Input, p: seq<TablePage>, n: nat, q: seq<TablePage>, m: nat, u: seq<TablePage>)
    requires n == |p| && m == |p| + |q|
    requires PagesAfforded(input, 0, p) && PagesAfforded(input, n, q) && PagesAfforded(input, m, u)
    ensures TablesAfforded(input, p, q, u)
  {
  }

  lemma WalkedAreRead(input: Input, h: Header, t1: Traversal, t2: Traversal, t3: Traversal)
    requires h.partialOffset.Some?
    requires OptionalWalk(input, HeaderPage(h), h.partialOffset, Partial, Seen({HeaderPage(h)}), None, t1)
    requires OptionalWalk(input, HeaderPage(h), h.fullOffset, Full, t1, None, t2)
    requires OptionalWalk(input, HeaderPage(h), h.userOffset, User, t2, None, t3)
    ensures exists p, q, u ::
      TablesRead(input, h, p, q, u) && TablesAfforded(input, p, q, u) && t3 == AllRead(h, p, q, u)
  {
    var start, t0 := HeaderPage(h), Seen({HeaderPage(h)});
    assert Steady(start, t0);
    TableWalkedIff(input, start, h.partialOffset, Partial, t0, t1);
    var p :| ReadStep(input, start, h.partialOffset, Partial, t0, p, t1);
    StaysSteady(start, t0, Partial, p, t1);
    TableWalkedIff(input, start, h.fullOffset, Full, t1, t2);
    var q :| ReadStep(input, start, h.fullOffset, Full, t1, q, t2);
    StaysSteady(start, t1, Full, q, t2);
    TableWalkedIff(input, start, h.userOffset, User, t2, t3);
    var u :| ReadStep(input, start, h.userOffset, User, t2, u, t3);
    NextSet(t0, Partial, p, t1);
    NextSet(t1, Full, q, t2);
    ThreeChains(input, h, p, t1, q, t2, u);
    ThreeAfforded(input, p, t1.steps, q, t2.steps, u);
    AllReadIs(h, t0, p, t1, q, t2, u, t3);
  }

  lemma NextSet(before: Traversal, kind: Kind, p: seq<TablePage>, after: Traversal)
    requires Reads(before, kind, p, after)
    ensures after.tablePages == before.tablePages + Visited(p) && after.steps == before.steps + |p|
  {
  }

  // The traversal behind the partial table, and behind the full table.
  function PartialRead(h: Header, p: seq<TablePage>): Traversal
  {
    Holding({Vpid(h.vfid.vol, h.vfid.file)} + Visited(p), PartialRows(p), [], [], |p|)
  }

  function FullRead(h: Header, p: seq<TablePage>, q: seq<TablePage>): Traversal
  {
    Holding({Vpid(h.vfid.vol, h.vfid.file)} + Visited(p) + Visited(q), PartialRows(p), FullRows(q), [], |p| + |q|)
  }

  lemma PartialIsWalked(input: Input, h: Header, p: seq<TablePage>)
    requires TableRead(input, HeaderPage(h), h.partialOffset, Partial, {HeaderPage(h)}, p) && PagesAfforded(input, 0, p)
    ensures OptionalWalk(input, HeaderPage(h), h.partialOffset, Partial, Seen({HeaderPage(h)}), None, PartialRead(h, p))
  {
    var start, t0 := HeaderPage(h), Seen({HeaderPage(h)});
    var t1 := ReadIsWalked(input, start, h.partialOffset, Partial, t0, {start}, 0, p);
    assert t1.partials == [] + PartialRows(p) == PartialRows(p);
    assert t1.fulls == [] + [] == [] && t1.users == [] + [] == [] && t1.files == [] + [] == [];
    assert t1 == PartialRead(h, p);
  }

  lemma FullIsWalked(input: Input, h: Header, p: seq<TablePage>, q: seq<TablePage>)
    requires TableRead(input, HeaderPage(h), h.fullOffset, Full, {HeaderPage(h)} + Visited(p), q)
    requires PagesAfforded(input, |p|, q)
    ensures OptionalWalk(input, HeaderPage(h), h.fullOffset, Full, PartialRead(h, p), None, FullRead(h, p, q))
  {
    var start, t1 := HeaderPage(h), PartialRead(h, p);
    var t2 := ReadIsWalked(input, start, h.fullOffset, Full, t1, {start} + Visited(p), |p|, q);
    assert t2.partials == PartialRows(p) + [] == PartialRows(p);
    assert t2.fulls == [] + FullRows(q) == FullRows(q);
    assert t2.users == [] + [] == [] && t2.files == [] + [] == [];
    assert t2 == FullRead(h, p, q);
  }

  lemma UserIsWalked(input: Input, h: Header, p: seq<TablePage>, q: seq<TablePage>, u: seq<TablePage>)
    requires TableRead(input, HeaderPage(h), h.userOffset, User, {HeaderPage(h)} + Visited(p) + Visited(q), u)
    requires PagesAfforded(input, |p| + |q|, u)
    ensures OptionalWalk(input, HeaderPage(h), h.userOffset, User, FullRead(h, p, q), None, AllRead(h, p, q, u))
  {
    var start, t2 := HeaderPage(h), FullRead(h, p, q);
    var t3 := ReadIsWalked(input, start, h.userOffset, User, t2, {start} + Visited(p) + Visited(q), |p| + |q|, u);
    assert t3.partials == PartialRows(p) + [] == PartialRows(p);
    assert t3.fulls == FullRows(q) + [] == FullRows(q);
    assert t3.users == [] + UserRows(u) == UserRows(u) && t3.files == [] + [] == [];
    assert t3 == AllRead(h, p, q, u);
  }

  lemma ReadAreWalked(input: Input, h: Header, p: seq<TablePage>, q: seq<TablePage>, u: seq<TablePage>)
    requires TablesRead(input, h, p, q, u) && TablesAfforded(input, p, q, u)
    ensures TablesWalked(input, h, None, AllRead(h, p, q, u))
  {
    PartialIsWalked(input, h, p);
    FullIsWalked(input, h, p, q);
    UserIsWalked(input, h, p, q, u);
    WalksInTurn(input, h, PartialRead(h, p), FullRead(h, p, q), AllRead(h, p, q, u));
  }

  lemma WalksInTurn(input: Input, h: Header, t1: Traversal, t2: Traversal, t3: Traversal)
    requires OptionalWalk(input, HeaderPage(h), h.partialOffset, Partial, Seen({HeaderPage(h)}), None, t1)
    requires OptionalWalk(input, HeaderPage(h), h.fullOffset, Full, t1, None, t2)
    requires OptionalWalk(input, HeaderPage(h), h.userOffset, User, t2, None, t3)
    ensures TablesWalked(input, h, None, t3)
  {
    assert RestWalked(input, h, t1, None, t3);
  }

  // The walks succeed exactly if the tables can be read and afforded, and leave their rows.
  lemma TablesWalkedIff(input: Input, h: Header, t: Traversal)
    requires h.partialOffset.Some?
    ensures TablesWalked(input, h, None, t) <==>
      exists p, q, u :: TablesRead(input, h, p, q, u) && TablesAfforded(input, p, q, u) && t == AllRead(h, p, q, u)
  {
    if TablesWalked(input, h, None, t) {
      var start, t0 := HeaderPage(h), Seen({HeaderPage(h)});
      var r1, t1 :| OptionalWalk(input, start, h.partialOffset, Partial, t0, r1, t1)
        && if r1.Some? then None == r1 else RestWalked(input, h, t1, None, t);
      var r2, t2 :| OptionalWalk(input, start, h.fullOffset, Full, t1, r2, t2)
        && if r2.Some? then None == r2 else OptionalWalk(input, start, h.userOffset, User, t2, None, t);
      WalkedAreRead(input, h, t1, t2, t);
    }
    if p, q, u :| TablesRead(input, h, p, q, u) && TablesAfforded(input, p, q, u) && t == AllRead(h, p, q, u) {
      ReadAreWalked(input, h, p, q, u);
    }
  }
}
