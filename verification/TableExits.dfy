// Why the walk of a file table fails, stated over the pages on disk, and which failure the
// collection of a file reports: `walk_file_table` and `collect_file_allocations` in
// `src/inspection.rs`.
module TableExits {
  import opened Wrappers
  import opened Bits
  import opened Bytes
  import opened Pages
  import opened Walks
  import opened FileTable
  import opened Claims
  import opened Allocation
  import opened TableRows

  // There is a page to look at: the start, or the page that the last one links to.
  predicate Due(p: seq<TablePage>)
  {
    p == [] || p[|p| - 1].component.next.Some?
  }

  function DuePage(start: Vpid, p: seq<TablePage>): Vpid
    requires Due(p)
  {
    if p == [] then start else p[|p| - 1].component.next.value
  }

  // The counters of the traversal would overflow.
  predicate Overflows(w: Walk, p: seq<TablePage>)
  {
    || w.before.steps + |p| == 0xFFFF_FFFF_FFFF_FFFF
    || w.before.decoded + 16_384 * (|p| + 1) > 0xFFFF_FFFF_FFFF_FFFF
  }

  // A limit refuses one more step of the traversal.
  predicate StepRefused(w: Walk, p: seq<TablePage>)
  {
    || w.before.steps + |p| + 1 > w.input.policy.maxChainSteps
    || w.before.decoded + 16_384 * (|p| + 1) > w.input.policy.maxDecodedBytes
  }

  predicate Turn(w: Walk, p: seq<TablePage>)
  {
    Due(p) && !w.input.cancelled(w.before.steps + |p|) && !Overflows(w, p) && !StepRefused(w, p)
  }

  predicate Fresh(w: Walk, p: seq<TablePage>)
    requires Due(p)
  {
    forall i :: 0 <= i < |p| ==> p[i].vpid != DuePage(w.start, p)
  }

  // The page has been used by an earlier table of the file.
  predicate Shared(w: Walk, p: seq<TablePage>)
    requires Due(p)
  {
    DuePage(w.start, p) != w.start && DuePage(w.start, p) in w.before.tablePages
  }

  predicate Examined(w: Walk, p: seq<TablePage>)
  {
    Turn(w, p) && Fresh(w, p) && !Shared(w, p)
  }

  // The page is read: it fits in memory with its plaintext if it is encrypted.
  predicate Read(w: Walk, p: seq<TablePage>)
  {
    Examined(w, p) && BytesHeld(w.input.disk(DuePage(w.start, p))) <= w.input.policy.memoryLimit
  }

  predicate Opened(w: Walk, p: seq<TablePage>, area: Envelope)
  {
    Read(w, p) && Holds(w.input.disk(DuePage(w.start, p)), area)
  }

  // What the page holds is refused, for this rule.
  predicate AreaRefused(w: Walk, p: seq<TablePage>, area: Envelope, rule: string)
  {
    if area.pageType != PageType.FileTable then rule == "file.extdata.page_type"
    else w.input.decode(w.kind, area, if p == [] then w.offset else 0) == Failure(rule)
  }

  // What makes the walk fail behind these pages with this error.
  ghost predicate Reason(w: Walk, p: seq<TablePage>, error: TableError)
  {
    match error
    case Operation(Interrupted) => Due(p) && w.input.cancelled(w.before.steps + |p|)
    case Operation(Arithmetic) => Due(p) && !w.input.cancelled(w.before.steps + |p|) && Overflows(w, p)
    case Operation(LimitHit) =>
      || (Due(p) && !w.input.cancelled(w.before.steps + |p|) && !Overflows(w, p) && StepRefused(w, p))
      || (Examined(w, p) && !Read(w, p))
    case Operation(SourceError) => Read(w, p) && w.input.disk(DuePage(w.start, p)) == ReadFault
    case Decode(rule) =>
      || (Turn(w, p) && !Fresh(w, p) && rule == "file.extdata.cycle")
      || (Turn(w, p) && Fresh(w, p) && Shared(w, p) && rule == "file.extdata.page_shared")
      || PageRefused(w, p, rule)
      || exists area :: Opened(w, p, area) && AreaRefused(w, p, area, rule)
  }

  // The page cannot be read, for this rule.
  predicate PageRefused(w: Walk, p: seq<TablePage>, rule: string)
  {
    && Read(w, p)
    && var page := w.input.disk(DuePage(w.start, p));
       || (page == NoVolume && rule == "page.volume.exists")
       || page == BadEnvelope(rule)
       || (page == Cipher(NoKey) && rule == "file.extdata.encrypted")
       || (page == Cipher(DecryptFault) && rule == "tde.page.decrypt")
       || page == Cipher(Clear(Failure(rule)))
  }

  // The walk came to these pages.
  ghost predicate Reached(w: Walk, p: seq<TablePage>)
  {
    && Run(w.input, w.start, w.offset, w.kind, w.before.tablePages, p)
    && (p != [] ==> w.before.steps + |p| <= w.input.policy.maxChainSteps)
    && (p != [] ==> w.before.decoded + 16_384 * |p| <= w.input.policy.maxDecodedBytes)
    && forall i :: 0 <= i < |p| ==> PageAfforded(w.input, w.before.steps + i, p[i])
  }

  lemma ReachedIff(w: Walk, p: seq<TablePage>)
    ensures Reached(w, p) <==> Admitted(Judging(w), p)
  {
    forall i | 0 <= i < |p|
      ensures PageAfforded(w.input, w.before.steps + i, p[i]) <==> StepAfforded(w, p, i)
    {
    }
    if Admitted(Judging(w), p) {
      AdmittedIsLinked(w, p);
      LinkedIsRun(w, p);
    }
    if Reached(w, p) {
      RunIsLinked(w, p);
      forall i | 0 <= i < |p|
        ensures Judging(w)(p[..i]) == Extend(p[i])
      {
        LinkedIsAdmitted(w, p, i);
      }
    }
  }

  lemma StopsBeforeReading(w: Walk, p: seq<TablePage>)
    requires Due(p) && !Examined(w, p)
    ensures Judge(w, p) == Halt(Failed(
      if w.input.cancelled(w.before.steps + |p|) then Operation(Interrupted)
      else if Overflows(w, p) then Operation(Arithmetic)
      else if StepRefused(w, p) then Operation(LimitHit)
      else if !Fresh(w, p) then Decode("file.extdata.cycle")
      else Decode("file.extdata.page_shared")))
  {
    AfterCounts(w, p);
    DueIff(w, p);
  }

  lemma DueIff(w: Walk, p: seq<TablePage>)
    requires Due(p)
    ensures DuePage(w.start, p) == Current(w, p) && (Fresh(w, p) <==> Current(w, p) !in Visited(p))
  {
  }

  lemma StopsReading(w: Walk, p: seq<TablePage>)
    requires Examined(w, p)
    ensures Judge(w, p) ==
      ReadComponent(w.input, w.kind, DuePage(w.start, p), if p == [] then w.offset else 0)
  {
    AfterCounts(w, p);
    DueIff(w, p);
  }

  lemma ReasonBeforeReading(w: Walk, p: seq<TablePage>, error: TableError)
    requires !Examined(w, p)
    ensures Reason(w, p, error) <==> Judge(w, p) == Halt(Failed(error))
  {
    if Due(p) {
      StopsBeforeReading(w, p);
    }
  }

  lemma ReasonReading(w: Walk, p: seq<TablePage>, error: TableError)
    requires Examined(w, p) && forall area :: !Opened(w, p, area)
    ensures Reason(w, p, error) <==> Judge(w, p) == Halt(Failed(error))
  {
    StopsReading(w, p);
    if Read(w, p) {
      forall area
        ensures !Holds(w.input.disk(DuePage(w.start, p)), area)
      {
        assert !Opened(w, p, area);
      }
      NothingHeld(w.input.disk(DuePage(w.start, p)));
    }
  }

  lemma ReasonDecoding(w: Walk, p: seq<TablePage>, error: TableError, area: Envelope)
    requires Opened(w, p, area)
    ensures Reason(w, p, error) <==> Judge(w, p) == Halt(Failed(error))
  {
    StopsReading(w, p);
    forall other | Holds(w.input.disk(DuePage(w.start, p)), other)
      ensures other == area
    {
    }
  }

  lemma ReasonIff(w: Walk, p: seq<TablePage>, error: TableError)
    ensures Reason(w, p, error) <==> Judge(w, p) == Halt(Failed(error))
  {
    if !Examined(w, p) {
      ReasonBeforeReading(w, p, error);
    } else if area :| Opened(w, p, area) {
      ReasonDecoding(w, p, error, area);
    } else {
      ReasonReading(w, p, error);
    }
  }

  // The run of pages that the walk reads comes to the reason for this error.
  ghost predicate Fails(w: Walk, error: TableError)
  {
    exists p :: Reached(w, p) && Reason(w, p, error)
  }

  lemma FailedHasReason(w: Walk, p: seq<TablePage>, error: TableError)
    ensures Ends(Judging(w), p, Failed(error)) <==> Reached(w, p) && Reason(w, p, error)
  {
    ReachedIff(w, p);
    ReasonIff(w, p, error);
    assert Judging(w)(p) == Judge(w, p);
  }

  lemma EndsFailing(w: Walk, p: seq<TablePage>, exit: Exit, error: TableError)
    requires Ends(Judging(w), p, exit)
    ensures exit == Failed(error) ==> Fails(w, error)
  {
    FailedHasReason(w, p, error);
  }

  lemma FailingEnds(w: Walk, q: seq<TablePage>, exit: Exit, error: TableError)
    requires Ends(Judging(w), q, exit)
    ensures Fails(w, error) ==> exit == Failed(error)
  {
    if p :| Reached(w, p) && Reason(w, p, error) {
      FailedHasReason(w, p, error);
      EndsUnique(Judging(w), q, exit, p, Failed(error));
    }
  }

  // A walk fails with this error exactly if the run of pages it reads comes to the reason for it.
  lemma WalkFailsIff(w: Walk, r: Option<TableError>, after: Traversal, error: TableError)
    requires IsWalk(w, r, after)
    ensures r == Some(error) <==> Fails(w, error)
  {
    var q, exit :| Ends(Judging(w), q, exit)
      && r == (if exit.Completed? then None else Some(exit.error))
      && (r.None? ==> after == After(w, q));
    EndsFailing(w, q, exit, error);
    FailingEnds(w, q, exit, error);
  }

  // ---- The failure a collection reports ----

  // The table fails with this error, behind a traversal that has used these pages in n steps.
  ghost predicate TableFails(input: Input, h: Header, offset: Option<nat>, kind: Kind, used: Traversal,
                             error: TableError)
  {
    offset.Some?
    && Fails(Walk(input, HeaderPage(h), offset.value, kind, used), error)
  }

  lemma TableFailsIff(input: Input, h: Header, offset: Option<nat>, kind: Kind, used: Traversal,
                      r: Option<TableError>, after: Traversal, error: TableError)
    requires OptionalWalk(input, HeaderPage(h), offset, kind, used, r, after)
    ensures r == Some(error) <==> TableFails(input, h, offset, kind, used, error)
  {
    if offset.Some? {
      WalkFailsIff(Walk(input, HeaderPage(h), offset.value, kind, used), r, after, error);
    }
  }

  // A file whose tables cannot all be read is refused with the error of the first that cannot.
  lemma FirstFailureReported(input: Input, volumes: Geometry, h: Header, r: Result<Facts, TableError>,
                             p: seq<TablePage>, q: seq<TablePage>, error: TableError)
    requires IsCollection(input, volumes, h, r) && PresenceFailure(h).None?
    ensures TableFails(input, h, h.partialOffset, Partial, Seen({HeaderPage(h)}), error) ==> r == Failure(error)
    ensures PartialReadable(input, h, p) && TableFails(input, h, h.fullOffset, Full, PartialRead(h, p), error) ==>
      r == Failure(error)
    ensures PartialReadable(input, h, p) && FullReadable(input, h, p, q) ==>
      TableFails(input, h, h.userOffset, User, FullRead(h, p, q), error) ==>
      r == Failure(error)
  {
    var failure, t :| TablesWalked(input, h, failure, t)
      && r == if failure.Some? then Failure(failure.value)
              else Reconcile(volumes, h, t, input.policy.memoryLimit);
    var r1, t1 :| OptionalWalk(input, HeaderPage(h), h.partialOffset, Partial, Seen({HeaderPage(h)}), r1, t1)
      && if r1.Some? then failure == r1 else RestWalked(input, h, t1, failure, t);
    TableFailsIff(input, h, h.partialOffset, Partial, Seen({HeaderPage(h)}), r1, t1, error);
    if PartialReadable(input, h, p) {
      PartialIsWalked(input, h, p);
      OptionalWalkUnique(input, HeaderPage(h), h.partialOffset, Partial, Seen({HeaderPage(h)}), r1, t1,
                         None, PartialRead(h, p));
      RestFailureReported(input, h, p, q, failure, t, error);
    }
  }

  ghost predicate PartialReadable(input: Input, h: Header, p: seq<TablePage>)
  {
    TableRead(input, HeaderPage(h), h.partialOffset, Partial, {HeaderPage(h)}, p) && PagesAfforded(input, 0, p)
  }

  ghost predicate FullReadable(input: Input, h: Header, p: seq<TablePage>, q: seq<TablePage>)
  {
    && TableRead(input, HeaderPage(h), h.fullOffset, Full, {HeaderPage(h)} + Visited(p), q)
    && PagesAfforded(input, |p|, q)
  }

  lemma RestFailureReported(input: Input, h: Header, p: seq<TablePage>, q: seq<TablePage>,
                            failure: Option<TableError>, t: Traversal, error: TableError)
    requires RestWalked(input, h, PartialRead(h, p), failure, t)
    ensures TableFails(input, h, h.fullOffset, Full, PartialRead(h, p), error) ==> failure == Some(error)
    ensures FullReadable(input, h, p, q) ==>
      TableFails(input, h, h.userOffset, User, FullRead(h, p, q), error) ==>
      failure == Some(error)
  {
    var start := HeaderPage(h);
    var r2, t2 :| OptionalWalk(input, start, h.fullOffset, Full, PartialRead(h, p), r2, t2)
      && if r2.Some? then failure == r2 else OptionalWalk(input, start, h.userOffset, User, t2, failure, t);
    TableFailsIff(input, h, h.fullOffset, Full, PartialRead(h, p), r2, t2, error);
    if FullReadable(input, h, p, q) {
      FullIsWalked(input, h, p, q);
      OptionalWalkUnique(input, start, h.fullOffset, Full, PartialRead(h, p), r2, t2, None, FullRead(h, p, q));
      TableFailsIff(input, h, h.userOffset, User, FullRead(h, p, q), failure, t, error);
    }
  }
}
