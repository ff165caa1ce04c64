// Linked extensible-data tables of one file: `walk_file_table` in `src/inspection.rs`.
module FileTable {
  import opened Wrappers
  import opened Bytes
  import opened Pages
  import opened Walks
  import Bits

  datatype Kind = Partial | Full | User | Tracker

  datatype Sector = Sector(vol: nat, id: nat)
  datatype PartialSector = PartialSector(sector: Sector, bitmap: Bits.u64)
  datatype UserPage = UserPage(vpid: Vpid, markedDeleted: bool)

  // The items one table page holds, by the kind of its table.
  datatype Items =
    | Partials(partials: seq<PartialSector>)
    | Fulls(fulls: seq<Sector>)
    | Users(users: seq<UserPage>)
    | Trackers(files: seq<Vfid>)

  // A decoded component: its items and the link to the next page.
  datatype Component = Component(items: Items, next: Option<Vpid>)

  datatype OperationError = Interrupted | Arithmetic | LimitHit | SourceError
  datatype TableError = Decode(rule: string) | Operation(error: OperationError)

  // What a walk reads: the disk, the decoders, the policy and the cancel token, which is
  // read once per step of the whole traversal.
  datatype Input = Input(
    disk: Vpid -> Physical<Envelope>,
    decode: (Kind, Envelope, nat) -> Result<Component, string>,
    policy: ResourcePolicy,
    cancelled: nat -> bool)

  // The accumulated state of the walks of one file, as a value.
  datatype Traversal = Traversal(
    tablePages: set<Vpid>,
    partials: seq<PartialSector>,
    fulls: seq<Sector>,
    users: seq<UserPage>,
    files: seq<Vfid>,
    decoded: nat,
    steps: nat)

  // One walk: where it starts and the state it starts from.
  datatype Walk = Walk(input: Input, start: Vpid, offset: nat, kind: Kind, before: Traversal)

  datatype TablePage = TablePage(vpid: Vpid, component: Component)

  datatype Exit = Completed | Failed(error: TableError)

  function Visited(p: seq<TablePage>): set<Vpid>
  {
    set i | 0 <= i < |p| :: p[i].vpid
  }

  function PartialsOf(items: Items): seq<PartialSector>
  {
    if items.Partials? then items.partials else []
  }

  function FullsOf(items: Items): seq<Sector>
  {
    if items.Fulls? then items.fulls else []
  }

  function UsersOf(items: Items): seq<UserPage>
  {
    if items.Users? then items.users else []
  }

  function FilesOf(items: Items): seq<Vfid>
  {
    if items.Trackers? then items.files else []
  }

  // The state after one more validated page.
  function Absorb(kind: Kind, start: Vpid, t: Traversal, page: TablePage): Traversal
  {
    var counted := t.(
      tablePages := if page.vpid == start then t.tablePages else t.tablePages + {page.vpid},
      decoded := t.decoded + IO_PAGE_SIZE,
      steps := t.steps + 1);
    var items := page.component.items;
    match kind
    case Partial => counted.(partials := t.partials + PartialsOf(items))
    case Full => counted.(fulls := t.fulls + FullsOf(items))
    case User => counted.(users := t.users + UsersOf(items))
    case Tracker => counted.(files := t.files + FilesOf(items))
  }

  function After(w: Walk, p: seq<TablePage>): Traversal
  {
    if p == [] then w.before
    else Absorb(w.kind, w.start, After(w, p[..|p| - 1]), p[|p| - 1])
  }

  function Current(w: Walk, p: seq<TablePage>): Vpid
  {
    if p != [] && p[|p| - 1].component.next.Some? then p[|p| - 1].component.next.value else w.start
  }

  function ReadFailure(error: PageError): TableError
  {
    match error
    case Source => Operation(SourceError)
    case Format(rule) => Decode(rule)
    case Encrypted => Decode("file.extdata.encrypted")
    case Decrypt => Decode("tde.page.decrypt")
    case ResourceLimit => Operation(LimitHit)
  }

  // One turn of the loop, from the pages validated so far.
  function Judge(w: Walk, p: seq<TablePage>): Verdict<TablePage, Exit>
  {
    var t := After(w, p);
    if p != [] && p[|p| - 1].component.next.None? then Halt(Completed)
    else
      var current := Current(w, p);
      if w.input.cancelled(t.steps) then Halt(Failed(Operation(Interrupted)))
      else if t.steps == Bits.U64_MAX || t.decoded + IO_PAGE_SIZE > Bits.U64_MAX then
        Halt(Failed(Operation(Arithmetic)))
      else if t.steps + 1 > w.input.policy.maxChainSteps
              || t.decoded + IO_PAGE_SIZE > w.input.policy.maxDecodedBytes then
        Halt(Failed(Operation(LimitHit)))
      else if current in Visited(p) then Halt(Failed(Decode("file.extdata.cycle")))
      else if current != w.start && current in t.tablePages then
        Halt(Failed(Decode("file.extdata.page_shared")))
      else ReadComponent(w.input, w.kind, current, if p == [] then w.offset else 0)
  }

  function ReadComponent(input: Input, kind: Kind, at: Vpid, offset: nat): Verdict<TablePage, Exit>
  {
    match ReadAdmitted(input.disk(at), input.policy.memoryLimit)
    case Failure(error) => Halt(Failed(ReadFailure(error)))
    case Success(owned) =>
      match owned.envelope
      case Failure(rule) => Halt(Failed(Decode(rule)))
      case Success(area) =>
        if area.pageType != PageType.FileTable then Halt(Failed(Decode("file.extdata.page_type")))
        else match input.decode(kind, area, offset)
          case Failure(rule) => Halt(Failed(Decode(rule)))
          case Success(component) => Extend(TablePage(at, component))
  }

  function Judging(w: Walk): seq<TablePage> -> Verdict<TablePage, Exit>
  {
    (p: seq<TablePage>) => Judge(w, p)
  }

  // How a walk ended, and the state it leaves when it succeeded.
  ghost predicate IsWalk(w: Walk, r: Option<TableError>, after: Traversal)
  {
    exists p, exit ::
      && Ends(Judging(w), p, exit)
      && r == (if exit.Completed? then None else Some(exit.error))
      && (r.None? ==> after == After(w, p))
  }

  // ---- The loop ----

  // The mutable traversal shared by the walks of one file.
  class FileTraversal {
    var tablePages: set<Vpid>
    var partials: seq<PartialSector>
    var fulls: seq<Sector>
    var users: seq<UserPage>
    var files: seq<Vfid>
    var decoded: nat
    var steps: nat

    constructor (page: Vpid)
      ensures View() == Traversal({page}, [], [], [], [], 0, 0)
    {
      tablePages, partials, fulls, users, files, decoded, steps := {page}, [], [], [], [], 0, 0;
    }

    ghost function View(): Traversal
      reads this
    {
      Traversal(tablePages, partials, fulls, users, files, decoded, steps)
    }

    // The checks and the decoding of one step.
    method ExamineStep(input: Input, start: Vpid, kind: Kind, current: Vpid, at: nat, visited: set<Vpid>,
                       ghost w: Walk, ghost p: seq<TablePage>) returns (verdict: Verdict<TablePage, Exit>)
      requires w.input == input && w.start == start && w.kind == kind
      requires Carried(w, p, current, at, visited) && View() == After(w, p)
      ensures verdict == Judge(w, p) && verdict != Halt(Completed)
      ensures verdict.Extend? ==> verdict.item.vpid == current && steps < input.policy.maxChainSteps
    {
      if input.cancelled(steps) {
        return Halt(Failed(Operation(Interrupted)));
      }
      if steps == Bits.U64_MAX || decoded + IO_PAGE_SIZE > Bits.U64_MAX {
        return Halt(Failed(Operation(Arithmetic)));
      }
      if steps + 1 > input.policy.maxChainSteps || decoded + IO_PAGE_SIZE > input.policy.maxDecodedBytes {
        return Halt(Failed(Operation(LimitHit)));
      }
      if current in visited {
        return Halt(Failed(Decode("file.extdata.cycle")));
      }
      if current != start && current in tablePages {
        return Halt(Failed(Decode("file.extdata.page_shared")));
      }
      verdict := ReadComponent(input, kind, current, at);
    }

    method AbsorbPage(kind: Kind, start: Vpid, page: TablePage)
      modifies this
      ensures View() == Absorb(kind, start, old(View()), page)
    {
      steps := steps + 1;
      decoded := decoded + IO_PAGE_SIZE;
      if page.vpid != start {
        tablePages := tablePages + {page.vpid};
      }
      match kind {
        case Partial => partials := partials + PartialsOf(page.component.items);
        case Full => fulls := fulls + FullsOf(page.component.items);
        case User => users := users + UsersOf(page.component.items);
        case Tracker => files := files + FilesOf(page.component.items);
      }
    }

    method WalkFileTable(input: Input, start: Vpid, offset: nat, kind: Kind) returns (r: Option<TableError>)
      modifies this
      ensures IsWalk(Walk(input, start, offset, kind, old(View())), r, View())
    {
      ghost var w := Walk(input, start, offset, kind, View());
      ghost var p: seq<TablePage> := [];
      var current := start;
      var at := offset;
      var visited: set<Vpid> := {};
      while true
        invariant Admitted(Judging(w), p)
        invariant Carried(w, p, current, at, visited) && View() == After(w, p)
        decreases input.policy.maxChainSteps - steps
      {
        var verdict := ExamineStep(input, start, kind, current, at, visited, w, p);
        if verdict.Halt? {
          r := Some(verdict.exit.error);
          WalkEnded(w, p, verdict.exit, View());
          return;
        }
        var page := verdict.item;
        WalkGrows(w, p, page);
        visited := visited + {current};
        AbsorbPage(kind, start, page);
        p := p + [page];
        if page.component.next.None? {
          r := None;
          WalkEnded(w, p, Completed, View());
          return;
        }
        current := page.component.next.value;
        at := 0;
      }
    }
  }

  // The state the loop carries, tied to the pages validated so far.
  ghost predicate Carried(w: Walk, p: seq<TablePage>, current: Vpid, at: nat, visited: set<Vpid>)
  {
    && (p != [] ==> p[|p| - 1].component.next.Some?)
    && current == Current(w, p)
    && at == (if p == [] then w.offset else 0)
    && visited == Visited(p)
  }

  lemma WalkEnded(w: Walk, p: seq<TablePage>, exit: Exit, after: Traversal)
    requires Admitted(Judging(w), p) && Judge(w, p) == Halt(exit) && after == After(w, p)
    ensures IsWalk(w, if exit.Completed? then None else Some(exit.error), after)
  {
    assert Judging(w)(p) == Judge(w, p);
    assert Ends(Judging(w), p, exit);
  }

  lemma WalkGrows(w: Walk, p: seq<TablePage>, page: TablePage)
    requires Admitted(Judging(w), p) && Judge(w, p) == Extend(page)
    ensures Admitted(Judging(w), p + [page])
    ensures After(w, p + [page]) == Absorb(w.kind, w.start, After(w, p), page)
    ensures Visited(p + [page]) == Visited(p) + {page.vpid}
  {
    assert Judging(w)(p) == Judge(w, p);
    AdmittedExtends(Judging(w), p, page);
    AfterGrows(w, p, page);
  }

  lemma AfterGrows(w: Walk, p: seq<TablePage>, page: TablePage)
    ensures After(w, p + [page]) == Absorb(w.kind, w.start, After(w, p), page)
    ensures Visited(p + [page]) == Visited(p) + {page.vpid}
  {
    var q := p + [page];
    assert q[..|q| - 1] == p;
    forall x | x in Visited(p) + {page.vpid}
      ensures x in Visited(q)
    {
      if x in Visited(p) {
        var i :| 0 <= i < |p| && p[i].vpid == x;
        assert q[i].vpid == x;
      } else {
        assert q[|p|].vpid == x;
      }
    }
  }

  // ---- Soundness and completeness ----

  // The i-th page of p is the page its predecessor links to, not seen in this walk nor, the
  // start apart, in an earlier one, and decodes to this component.
  ghost predicate ValidAt(w: Walk, p: seq<TablePage>, i: nat)
    requires i < |p|
  {
    && (if i == 0 then p[0].vpid == w.start else p[i - 1].component.next == Some(p[i].vpid))
    && (forall j :: 0 <= j < i ==> p[j].vpid != p[i].vpid)
    && (p[i].vpid != w.start ==> p[i].vpid !in w.before.tablePages)
    && Decodes(w, p[i], if i == 0 then w.offset else 0)
  }

  ghost predicate Decodes(w: Walk, page: TablePage, offset: nat)
  {
    match Content(w.input.disk(page.vpid))
    case None => false
    case Some(area) =>
      area.pageType == PageType.FileTable && w.input.decode(w.kind, area, offset) == Success(page.component)
  }

  ghost predicate LinkedPrefix(w: Walk, p: seq<TablePage>)
  {
    forall i :: 0 <= i < |p| ==> ValidAt(w, p, i)
  }

  ghost predicate CompletePath(w: Walk, p: seq<TablePage>)
  {
    p != [] && LinkedPrefix(w, p) && p[|p| - 1].component.next.None?
  }

  // The policy covers n pages of this walk.
  ghost predicate Affordable(w: Walk, p: seq<TablePage>)
  {
    && (p != [] ==> w.before.steps + |p| <= w.input.policy.maxChainSteps)
    && (p != [] ==> w.before.decoded + |p| * IO_PAGE_SIZE <= w.input.policy.maxDecodedBytes)
    && (forall i :: 0 <= i < |p| ==> StepAfforded(w, p, i))
  }

  predicate StepAfforded(w: Walk, p: seq<TablePage>, i: nat)
    requires i < |p|
  {
    !w.input.cancelled(w.before.steps + i) && Resident(w.input.disk(p[i].vpid)) <= w.input.policy.memoryLimit
  }

  lemma {:induction false} AfterCounts(w: Walk, p: seq<TablePage>)
    ensures After(w, p).steps == w.before.steps + |p|
    ensures After(w, p).decoded == w.before.decoded + |p| * IO_PAGE_SIZE
    ensures After(w, p).tablePages == w.before.tablePages + (Visited(p) - {w.start})
  {
    if p == [] {
      assert Visited(p) == {};
    } else {
      var q, page := p[..|p| - 1], p[|p| - 1];
      AfterCounts(w, q);
      assert q + [page] == p;
      AfterGrows(w, q, page);
    }
  }

  lemma StepReached(w: Walk, p: seq<TablePage>, page: TablePage)
    requires Judge(w, p) == Extend(page)
    ensures p != [] ==> p[|p| - 1].component.next == Some(page.vpid)
    ensures p == [] ==> page.vpid == w.start
    ensures page.vpid !in Visited(p)
    ensures page.vpid != w.start ==> page.vpid !in After(w, p).tablePages
    ensures Decodes(w, page, if p == [] then w.offset else 0)
    ensures After(w, p).steps + 1 <= w.input.policy.maxChainSteps
    ensures After(w, p).decoded + IO_PAGE_SIZE <= w.input.policy.maxDecodedBytes
    ensures !w.input.cancelled(After(w, p).steps)
    ensures Resident(w.input.disk(page.vpid)) <= w.input.policy.memoryLimit
  {
  }

  lemma LinkedGrows(w: Walk, p: seq<TablePage>, page: TablePage)
    requires LinkedPrefix(w, p) && Affordable(w, p) && Judge(w, p) == Extend(page)
    ensures LinkedPrefix(w, p + [page]) && Affordable(w, p + [page])
  {
    StepReached(w, p, page);
    AfterCounts(w, p);
    var q := p + [page];
    LastIsValid(w, p, page);
    forall i | 0 <= i < |p|
      ensures ValidAt(w, q, i)
    {
      ValidityExtends(w, p, page, i);
    }
    forall i | 0 <= i < |q|
      ensures StepAfforded(w, q, i)
    {
      assert i < |p| ==> StepAfforded(w, p, i);
      assert q[i] == if i < |p| then p[i] else page;
    }
  }

  lemma LastIsValid(w: Walk, p: seq<TablePage>, page: TablePage)
    requires p != [] ==> p[|p| - 1].component.next == Some(page.vpid)
    requires p == [] ==> page.vpid == w.start
    requires page.vpid !in Visited(p)
    requires page.vpid != w.start ==> page.vpid !in w.before.tablePages
    requires Decodes(w, page, if p == [] then w.offset else 0)
    ensures ValidAt(w, p + [page], |p|)
  {
    assert forall j :: 0 <= j < |p| ==> p[j].vpid in Visited(p);
  }

  lemma ValidityExtends(w: Walk, p: seq<TablePage>, page: TablePage, i: nat)
    requires i < |p| && ValidAt(w, p, i)
    ensures ValidAt(w, p + [page], i)
  {
    assert forall j :: 0 <= j <= i ==> (p + [page])[j] == p[j];
  }

  lemma {:induction false} AdmittedIsLinked(w: Walk, p: seq<TablePage>)
    requires Admitted(Judging(w), p)
    ensures LinkedPrefix(w, p) && Affordable(w, p)
  {
    if p != [] {
      var n := |p| - 1;
      var q := p[..n];
      forall i | 0 <= i < n
        ensures Judging(w)(q[..i]) == Extend(q[i])
      {
        assert q[..i] == p[..i];
      }
      AdmittedIsLinked(w, q);
      assert Judging(w)(q) == Judge(w, q);
      LinkedGrows(w, q, p[n]);
      assert p == q + [p[n]];
    }
  }

  lemma LinkedIsAdmitted(w: Walk, p: seq<TablePage>, i: nat)
    requires i < |p| && LinkedPrefix(w, p) && Affordable(w, p)
    ensures Judge(w, p[..i]) == Extend(p[i])
  {
    var q := p[..i];
    assert ValidAt(w, p, i) && StepAfforded(w, p, i);
    AfterCounts(w, q);
    assert p[i].vpid == Current(w, q) && p[i].vpid !in Visited(q);
    assert i * IO_PAGE_SIZE + IO_PAGE_SIZE <= |p| * IO_PAGE_SIZE;
    var reading := ReadAdmitted(w.input.disk(p[i].vpid), w.input.policy.memoryLimit);
    assert reading == Success(OwnedPage(w.input.disk(p[i].vpid).Cipher?,
                                        Success(Content(w.input.disk(p[i].vpid)).value)));
  }

  lemma CompletedIsComplete(w: Walk, p: seq<TablePage>)
    ensures Ends(Judging(w), p, Completed) <==> CompletePath(w, p) && Affordable(w, p)
  {
    assert Judging(w)(p) == Judge(w, p);
    if Ends(Judging(w), p, Completed) {
      AdmittedIsLinked(w, p);
    }
    if CompletePath(w, p) && Affordable(w, p) {
      forall i | 0 <= i < |p|
        ensures Judging(w)(p[..i]) == Extend(p[i])
      {
        LinkedIsAdmitted(w, p, i);
      }
    }
  }

  // A table walk succeeds exactly when the links from its start form a complete chain of
  // decodable table pages, none shared with an earlier walk, that the policy can afford;
  // the traversal then holds that chain and nothing else.
  lemma WalkSucceedsIffComplete(w: Walk, r: Option<TableError>, after: Traversal)
    requires IsWalk(w, r, after)
    ensures r.None? <==> exists p :: CompletePath(w, p) && Affordable(w, p)
    ensures forall p :: CompletePath(w, p) && Affordable(w, p) ==> after == After(w, p)
  {
    var p, exit :| Ends(Judging(w), p, exit)
      && r == (if exit.Completed? then None else Some(exit.error))
      && (r.None? ==> after == After(w, p));
    CompletedIsComplete(w, p);
    forall q | CompletePath(w, q) && Affordable(w, q)
      ensures q == p && exit == Completed
    {
      CompletedIsComplete(w, q);
      EndsUnique(Judging(w), p, exit, q, Completed);
    }
  }

  // The pages of a linked run are pairwise distinct.
  lemma {:induction false} VisitedSize(w: Walk, p: seq<TablePage>, n: nat)
    requires LinkedPrefix(w, p) && n <= |p|
    ensures |Visited(p[..n])| == n
  {
    if n == 0 {
      assert Visited(p[..0]) == {};
    } else {
      VisitedSize(w, p, n - 1);
      assert ValidAt(w, p, n - 1);
      NewlyVisited(p, n - 1);
    }
  }

  lemma NewlyVisited(p: seq<TablePage>, n: nat)
    requires n < |p| && forall j :: 0 <= j < n ==> p[j].vpid != p[n].vpid
    ensures p[n].vpid !in Visited(p[..n]) && Visited(p[..n + 1]) == Visited(p[..n]) + {p[n].vpid}
  {
    var before, after := p[..n], p[..n + 1];
    assert after[n] == p[n];
    forall x | x in Visited(before)
      ensures x in Visited(after)
    {
      var i :| 0 <= i < n && before[i].vpid == x;
      assert after[i].vpid == x;
    }
    forall x | x in Visited(after)
      ensures x in Visited(before) || x == p[n].vpid
    {
      var i :| 0 <= i < n + 1 && after[i].vpid == x;
      assert i < n ==> before[i].vpid == x;
    }
  }

  // Each successful walk adds every page it stepped on except its start: over the walks of
  // one file the extdata pages are pairwise distinct, within and across tables.
  lemma TablePagesCountSteps(w: Walk, after: Traversal)
    requires w.start in w.before.tablePages && IsWalk(w, None, after)
    ensures |after.tablePages| + 1 == |w.before.tablePages| + (after.steps - w.before.steps)
    ensures w.before.tablePages <= after.tablePages
    ensures w.before.steps < after.steps <= w.input.policy.maxChainSteps
  {
    var p: seq<TablePage> :| Ends(Judging(w), p, Completed) && after == After(w, p);
    CompletedIsComplete(w, p);
    AfterCounts(w, p);
    VisitedSize(w, p, |p|);
    assert p[..|p|] == p;
    assert ValidAt(w, p, 0);
    assert w.start in Visited(p);
    var added := Visited(p) - {w.start};
    assert added !! w.before.tablePages by {
      forall x | x in added
        ensures x !in w.before.tablePages
      {
        var i :| 0 <= i < |p| && p[i].vpid == x;
        assert ValidAt(w, p, i);
      }
    }
  }
}
