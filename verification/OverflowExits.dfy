// What the overflow walker returns and why it stops, stated over the pages on disk:
// `walk_overflow_chain` in `src/inspection.rs`.
module OverflowExits {
  import opened Wrappers
  import opened Bytes
  import opened Pages
  import opened Walks
  import opened OverflowChain

  // ---- A run of pages and its cost ----

  function Sum(p: seq<PageView>): nat
  {
    if p == [] then 0 else p[0].length + Sum(p[1..])
  }

  // The bytes read along the run: a page each, and the plaintext of each encrypted one.
  ghost function ReadAlong(c: Chain, p: seq<PageView>): nat
  {
    16_384 * |p| + 16_344 * |Encrypted(c, p)|
  }

  // The places of the encrypted pages.
  ghost function Encrypted(c: Chain, p: seq<PageView>): set<nat>
  {
    set i: nat | i < |p| && c.disk(p[i].vpid).Cipher?
  }

  // The head announces this total and shows this page.
  predicate HeadShows(c: Chain, v: PageView, total: nat, area: Envelope)
  {
    v.head && c.decodeHead(area) == Success(PageFact(v.next, Some(total), v.offset, v.length))
  }

  // A later page shows this page when so many bytes are due.
  predicate NextShows(c: Chain, v: PageView, remaining: nat, area: Envelope)
  {
    && !v.head && c.decodeNext(area, remaining).Success?
    && var fact := c.decodeNext(area, remaining).value;
       v.next == fact.next && v.offset == fact.offset && v.length == fact.length
  }

  predicate Owned(c: Chain, at: Vpid)
  {
    at in c.owners && c.owners[at] == c.owner
  }

  predicate RoleFits(c: Chain, at: Vpid)
  {
    at in c.roles && c.roles[at].pageType == Some(Overflow) && c.roles[at].availability == Available
  }

  // A page of the chain behind others that deliver `before` bytes of the total.
  ghost predicate GoodPage(c: Chain, v: PageView, first: bool, total: nat, before: nat)
  {
    && Owned(c, v.vpid) && RoleFits(c, v.vpid)
    && before + v.length <= total
    && exists area :: Holds(c.disk(v.vpid), area)
         && (if first then HeadShows(c, v, total, area) else NextShows(c, v, total - before, area))
         && (c.capture ==> v.offset + v.length <= |area.user|)
  }

  // Distinct good pages, each linked to the next, from the head on.
  ghost predicate Run(c: Chain, p: seq<PageView>, total: nat)
  {
    && (p != [] ==> p[0].vpid == c.head)
    && (forall i :: 1 <= i < |p| ==> p[i - 1].next == Some(p[i].vpid))
    && (forall i, j :: 0 <= i < j < |p| ==> p[i].vpid != p[j].vpid)
    && (forall i :: 0 <= i < |p| ==> GoodPage(c, p[i], i == 0, total, Sum(p[..i])))
  }

  // Every page was read within the limits, beside the buffer for the whole payload if it is captured.
  ghost predicate Budgeted(c: Chain, p: seq<PageView>, total: nat)
  {
    && |p| <= c.policy.maxChainSteps
    && (forall i :: 0 <= i < |p| ==> !c.cancelled(i))
    && (forall i :: 0 <= i < |p| ==>
          (if c.capture then total else 0) + BytesHeld(c.disk(p[i].vpid)) <= c.policy.memoryLimit)
    && (p != [] ==> c.decodedBefore + ReadAlong(c, p) <= c.policy.maxDecodedBytes)
    && (p != [] && c.capture ==> total <= c.policy.maxDecodedBytes && c.reserves)
  }

  // The bytes of a page's fragment.
  ghost predicate IsPiece(c: Chain, v: PageView, piece: seq<byte>)
  {
    exists area :: Holds(c.disk(v.vpid), area) && v.offset + v.length <= |area.user|
                   && piece == area.user[v.offset..v.offset + v.length]
  }

  // The fragments of the pages, in chain order.
  ghost predicate Captured(c: Chain, p: seq<PageView>, payload: seq<byte>)
  {
    exists pieces: seq<seq<byte>> ::
      |pieces| == |p| && payload == Joined(pieces) && forall i :: 0 <= i < |p| ==> IsPiece(c, p[i], pieces[i])
  }

  lemma {:induction false} SumLast(p: seq<PageView>, v: PageView)
    ensures Sum(p + [v]) == Sum(p) + v.length
  {
    if p != [] {
      SumLast(p[1..], v);
      assert (p + [v])[1..] == p[1..] + [v];
    }
  }

  lemma {:induction false} LengthsAre(p: seq<PageView>)
    ensures Lengths(p) == Sum(p)
  {
    if p != [] {
      var q, v := p[..|p| - 1], p[|p| - 1];
      LengthsAre(q);
      SumLast(q, v);
      assert q + [v] == p;
    }
  }

  lemma EncryptedLast(c: Chain, p: seq<PageView>, v: PageView)
    ensures |Encrypted(c, p + [v])| == |Encrypted(c, p)| + if c.disk(v.vpid).Cipher? then 1 else 0
  {
    var q := p + [v];
    assert Encrypted(c, q) - {|p|} == Encrypted(c, p);
    assert |p| in Encrypted(c, q) <==> c.disk(v.vpid).Cipher?;
    assert |p| !in Encrypted(c, p);
  }

  lemma {:induction false} DecodedIs(c: Chain, p: seq<PageView>)
    ensures Decoded(c, p) == c.decodedBefore + ReadAlong(c, p)
  {
    if p != [] {
      var q, v := p[..|p| - 1], p[|p| - 1];
      DecodedIs(c, q);
      EncryptedLast(c, q, v);
      assert q + [v] == p;
    }
  }

  lemma GoodPageIff(c: Chain, p: seq<PageView>, i: nat, total: nat)
    requires i < |p| && HeadTotal(c) == Some(total) && (i == 0 ==> p[0].vpid == c.head)
    ensures GoodPage(c, p[i], i == 0, total, Sum(p[..i])) <==>
      && PageValid(c, p[i]) && Lengths(p[..i]) + p[i].length <= total
      && Decoding(c, p[i].vpid, i == 0, total - Lengths(p[..i])) == Some(p[i])
  {
    LengthsAre(p[..i]);
    var v := p[i];
    var content := Content(c.disk(v.vpid));
    if content.Some? {
      assert Holds(c.disk(v.vpid), content.value);
    }
    if i == 0 {
      assert p[..i] == [];
    }
  }

  lemma LinkedIsRun(c: Chain, p: seq<PageView>, total: nat)
    requires p != [] && LinkedPrefix(c, p) && HeadTotal(c) == Some(total)
    ensures Run(c, p, total)
  {
    assert ValidAt(c, p, 0);
    forall i | 0 <= i < |p|
      ensures GoodPage(c, p[i], i == 0, total, Sum(p[..i]))
      ensures i > 0 ==> p[i - 1].next == Some(p[i].vpid)
      ensures forall j :: 0 <= j < i ==> p[j].vpid != p[i].vpid
    {
      assert ValidAt(c, p, i);
      GoodPageIff(c, p, i, total);
    }
  }

  lemma RunIsLinked(c: Chain, p: seq<PageView>, total: nat)
    requires p != [] && Run(c, p, total)
    ensures LinkedPrefix(c, p) && HeadTotal(c) == Some(total)
  {
    RunAnnounces(c, p, total);
    forall i | 0 <= i < |p|
      ensures ValidAt(c, p, i)
    {
      GoodPageIff(c, p, i, total);
    }
  }

  lemma RunAnnounces(c: Chain, p: seq<PageView>, total: nat)
    requires p != [] && Run(c, p, total)
    ensures HeadTotal(c) == Some(total)
  {
    assert GoodPage(c, p[0], true, total, Sum(p[..0]));
  }

  lemma BudgetedIff(c: Chain, p: seq<PageView>, total: nat)
    requires p != [] && p[0].vpid == c.head && HeadTotal(c) == Some(total)
    ensures Budgeted(c, p, total) <==> Affordable(c, p)
  {
    DecodedIs(c, p);
    if Affordable(c, p) {
      forall i | 0 <= i < |p|
        ensures (if c.capture then total else 0) + BytesHeld(c.disk(p[i].vpid)) <= c.policy.memoryLimit
        ensures c.capture ==> total <= c.policy.maxDecodedBytes && c.reserves
      {
        assert ResidencyFits(c, p[i]);
      }
    }
    if Budgeted(c, p, total) {
      assert (if c.capture then total else 0) + BytesHeld(c.disk(p[0].vpid)) <= c.policy.memoryLimit;
      forall i | 0 <= i < |p|
        ensures ResidencyFits(c, p[i])
      {
      }
    }
  }

  lemma PieceIs(c: Chain, v: PageView, piece: seq<byte>)
    requires IsPiece(c, v, piece)
    ensures piece == Slice(c, v)
  {
  }

  lemma {:induction false} CapturedIs(c: Chain, p: seq<PageView>, pieces: seq<seq<byte>>)
    requires |pieces| == |p| && forall i :: 0 <= i < |p| ==> pieces[i] == Slice(c, p[i])
    ensures Joined(pieces) == Payload(c, p)
  {
    if p != [] {
      var n := |p| - 1;
      CapturedIs(c, p[..n], pieces[..n]);
      JoinedLast(pieces[..n], pieces[n]);
      assert pieces[..n] + [pieces[n]] == pieces;
    }
  }

  lemma GoodPiece(c: Chain, v: PageView, first: bool, total: nat, before: nat)
    requires GoodPage(c, v, first, total, before) && c.capture
    ensures IsPiece(c, v, Slice(c, v))
  {
  }

  // The captured bytes are the fragments of the run's pages, in order.
  lemma CapturedIff(c: Chain, p: seq<PageView>, total: nat, payload: seq<byte>)
    requires Run(c, p, total) && c.capture
    ensures Captured(c, p, payload) <==> payload == Payload(c, p)
  {
    forall i | 0 <= i < |p|
      ensures IsPiece(c, p[i], Slice(c, p[i]))
    {
      GoodPiece(c, p[i], i == 0, total, Sum(p[..i]));
    }
    PiecesIff(c, p, payload);
  }

  lemma PiecesIff(c: Chain, p: seq<PageView>, payload: seq<byte>)
    requires forall i :: 0 <= i < |p| ==> IsPiece(c, p[i], Slice(c, p[i]))
    ensures Captured(c, p, payload) <==> payload == Payload(c, p)
  {
    var pieces := seq(|p|, i requires 0 <= i < |p| => Slice(c, p[i]));
    CapturedIs(c, p, pieces);
    if Captured(c, p, payload) {
      var others: seq<seq<byte>> :| |others| == |p| && payload == Joined(others)
        && forall i :: 0 <= i < |p| ==> IsPiece(c, p[i], others[i]);
      forall i | 0 <= i < |p|
        ensures others[i] == pieces[i]
      {
        PieceIs(c, p[i], others[i]);
      }
      assert others == pieces;
    }
  }

  // What a walk validated so far is a run within the limits.
  lemma AdmittedIsRun(c: Chain, p: seq<PageView>)
    requires p != [] && Admitted(Judging(c), p)
    ensures HeadTotal(c).Some? && Run(c, p, HeadTotal(c).value) && Budgeted(c, p, HeadTotal(c).value)
  {
    AdmittedIsLinked(c, p);
    assert ValidAt(c, p, 0);
    LinkedIsRun(c, p, HeadTotal(c).value);
    BudgetedIff(c, p, HeadTotal(c).value);
  }

  lemma RunIsAdmitted(c: Chain, p: seq<PageView>, total: nat)
    requires p != [] && Run(c, p, total) && Budgeted(c, p, total)
    ensures HeadTotal(c) == Some(total) && Lengths(p) <= total && Admitted(Judging(c), p)
  {
    RunIsLinked(c, p, total);
    BudgetedIff(c, p, total);
    forall i | 0 <= i < |p|
      ensures Judging(c)(p[..i]) == Extend(p[i])
    {
      LinkedIsAdmitted(c, p, i);
    }
    AdmittedIsLinked(c, p);
  }

  // A walk that succeeds returns the one complete run that the limits cover: its pages, the total
  // they add up to, and their fragments in order if they are captured.
  lemma WalkReturnsIff(c: Chain, r: Traversal, p: seq<PageView>, total: nat, payload: seq<byte>)
    requires IsWalk(c, r)
    ensures r == Walked(Some(total), total, p, payload, None) <==>
      && p != [] && Run(c, p, total) && p[|p| - 1].next.None? && Sum(p) == total
      && Budgeted(c, p, total)
      && (if c.capture then Captured(c, p, payload) else payload == [])
  {
    WalkSucceedsIffComplete(c, r);
    LengthsAre(p);
    if r == Walked(Some(total), total, p, payload, None) {
      var q :| CompletePath(c, q) && Affordable(c, q);
      assert q == p && ValidAt(c, p, 0);
      LinkedIsRun(c, p, total);
      BudgetedIff(c, p, total);
      if c.capture {
        CapturedIff(c, p, total, payload);
      }
    }
    if p != [] && Run(c, p, total) && p[|p| - 1].next.None? && Sum(p) == total && Budgeted(c, p, total)
       && (if c.capture then Captured(c, p, payload) else payload == []) {
      RunIsLinked(c, p, total);
      BudgetedIff(c, p, total);
      if c.capture {
        CapturedIff(c, p, total, payload);
      }
      assert CompletePath(c, p) && Affordable(c, p);
    }
  }

  // Every walk, whatever stopped it, publishes a run within the limits, with its fragments.
  lemma PublishedIsRun(c: Chain, r: Traversal)
    requires IsWalk(c, r) && r.Walked? && r.pages != []
    ensures r.total.Some? && Run(c, r.pages, r.total.value) && Budgeted(c, r.pages, r.total.value)
    ensures r.validated == Sum(r.pages)
    ensures if c.capture then Captured(c, r.pages, r.payload) else r.payload == []
  {
    var p, exit :| Ends(Judging(c), p, exit) && r == Render(c, p, exit);
    WalkTotal(c, p, exit);
    LengthsAre(p);
    AdmittedIsRun(c, p);
    if c.capture {
      CapturedIff(c, p, r.total.value, r.payload);
    }
  }

  lemma WalkTotal(c: Chain, p: seq<PageView>, exit: Exit)
    requires p != [] && Ends(Judging(c), p, exit) && !exit.SourceFault?
    ensures Render(c, p, exit).total == HeadTotal(c)
  {
    assert Judging(c)(p) == Judge(c, p);
    StoppedTotal(c, p, exit);
  }

  // ---- Why a walk stops ----

  // There is a page to look at: the head, or the page that the last one links to.
  predicate Due(p: seq<PageView>)
  {
    p == [] || p[|p| - 1].next.Some?
  }

  function DuePage(c: Chain, p: seq<PageView>): Vpid
    requires Due(p)
  {
    if p == [] then c.head else p[|p| - 1].next.value
  }

  // Its turn comes: the walk is not cancelled and has steps left.
  predicate Turn(c: Chain, p: seq<PageView>)
  {
    Due(p) && !c.cancelled(|p|) && |p| < c.policy.maxChainSteps
  }

  predicate Fresh(c: Chain, p: seq<PageView>)
    requires Due(p)
  {
    forall i :: 0 <= i < |p| ==> p[i].vpid != DuePage(c, p)
  }

  // It may be read: the walk was not there yet, and it is an available overflow page of the file.
  predicate Examined(c: Chain, p: seq<PageView>)
  {
    Turn(c, p) && Fresh(c, p) && Owned(c, DuePage(c, p)) && RoleFits(c, DuePage(c, p))
  }

  // Its bytes fit in memory beside the buffer, and in what may be decoded.
  ghost predicate DueFits(c: Chain, p: seq<PageView>, total: nat)
    requires Due(p)
  {
    var size := BytesHeld(c.disk(DuePage(c, p)));
    && (if c.capture && p != [] then total else 0) + size <= c.policy.memoryLimit
    && c.decodedBefore + ReadAlong(c, p) + size <= c.policy.maxDecodedBytes
  }

  ghost predicate Opened(c: Chain, p: seq<PageView>, total: nat, area: Envelope)
  {
    Examined(c, p) && DueFits(c, p, total) && Holds(c.disk(DuePage(c, p)), area)
  }

  // The buffer for the whole payload is refused beside the head page.
  predicate BufferRefused(c: Chain, total: nat)
  {
    && c.capture
    && (total > c.policy.maxDecodedBytes || total + BytesHeld(c.disk(c.head)) > c.policy.memoryLimit || !c.reserves)
  }

  // A limit refuses the next step, the next page or the buffer.
  ghost predicate LimitRefuses(c: Chain, p: seq<PageView>, total: nat)
  {
    && Due(p) && !c.cancelled(|p|)
    && (|| |p| >= c.policy.maxChainSteps
        || (Examined(c, p) && !DueFits(c, p, total))
        || (p == [] && exists area, t :: HeadReads(c, area, t) && BufferRefused(c, t)))
  }

  // The head page can be read and announces this total.
  ghost predicate HeadReads(c: Chain, area: Envelope, total: nat)
  {
    Opened(c, [], 0, area) && c.decodeHead(area).Success? && c.decodeHead(area).value.total == Some(total)
  }

  // The page cannot be read, for this rule.
  ghost predicate PageRefused(c: Chain, p: seq<PageView>, total: nat, rule: string)
  {
    && Examined(c, p) && DueFits(c, p, total)
    && var page := c.disk(DuePage(c, p));
       || (page == NoVolume && rule == "page.volume.exists")
       || page == BadEnvelope(rule)
       || page == Cipher(Clear(Failure(rule)))
  }

  // The fragment delivers more than is due, or lies outside the page it is copied from.
  predicate FragmentRefused(c: Chain, fact: PageFact, due: nat, area: Envelope, rule: string)
  {
    if fact.length > due then rule == "overflow.chain.complete_length"
    else c.capture && fact.offset + fact.length > |area.user| && rule == "overflow.chain.payload"
  }

  // What the page holds is refused, for this rule.
  predicate AreaRefused(c: Chain, p: seq<PageView>, total: nat, area: Envelope, rule: string)
  {
    if p == [] then
      match c.decodeHead(area)
      case Failure(found) => rule == found
      case Success(fact) =>
        if fact.total.None? then rule == "overflow.head.total_required"
        else !BufferRefused(c, fact.total.value) && FragmentRefused(c, fact, fact.total.value, area, rule)
    else
      Sum(p) <= total
      && match c.decodeNext(area, total - Sum(p))
         case Failure(found) => rule == found
         case Success(fact) => FragmentRefused(c, fact, total - Sum(p), area, rule)
  }

  // What makes a walk stop behind these pages with this failure.
  ghost predicate Reason(c: Chain, p: seq<PageView>, total: nat, failure: Failure)
  {
    match failure
    case Interrupted => Due(p) && c.cancelled(|p|)
    case ResourceLimitHit => LimitRefuses(c, p, total)
    case PageOwner => Turn(c, p) && Fresh(c, p) && !Owned(c, DuePage(c, p))
    case PageRoleMismatch =>
      Turn(c, p) && Fresh(c, p) && Owned(c, DuePage(c, p)) && !RoleFits(c, DuePage(c, p))
    case EncryptedPage => Examined(c, p) && DueFits(c, p, total) && c.disk(DuePage(c, p)) == Cipher(NoKey)
    case DecryptFailed => Examined(c, p) && DueFits(c, p, total) && c.disk(DuePage(c, p)) == Cipher(DecryptFault)
    case FormatRule(rule) =>
      || (!Due(p) && Sum(p) != total && rule == "overflow.chain.complete_length")
      || (Turn(c, p) && !Fresh(c, p) && rule == "overflow.chain.acyclic")
      || PageRefused(c, p, total, rule)
      || exists area :: Opened(c, p, total, area) && AreaRefused(c, p, total, area, rule)
  }

  predicate StopsWith(c: Chain, p: seq<PageView>, failure: Failure)
  {
    var verdict := Judge(c, p);
    verdict.Halt? && verdict.exit.Stopped? && verdict.exit.failure == failure
  }

  // The total that the pages validated so far have announced.
  predicate Announced(c: Chain, p: seq<PageView>, total: nat)
  {
    p != [] ==> HeadTotal(c) == Some(total) && Sum(p) <= total
  }

  lemma FreshIff(c: Chain, p: seq<PageView>)
    requires Due(p)
    ensures DuePage(c, p) == Current(c, p) && (Fresh(c, p) <==> Current(c, p) !in Visited(p))
  {
  }

  lemma StopsAtTheEnd(c: Chain, p: seq<PageView>, total: nat)
    requires Announced(c, p, total) && !Due(p)
    ensures Sum(p) != total ==> StopsWith(c, p, FormatRule("overflow.chain.complete_length"))
    ensures Sum(p) == total ==> Judge(c, p) == Halt(Finished)
  {
    LengthsAre(p);
  }

  lemma StopsBeforeReading(c: Chain, p: seq<PageView>)
    ensures Due(p) && c.cancelled(|p|) ==> StopsWith(c, p, Interrupted)
    ensures Due(p) && !c.cancelled(|p|) && |p| >= c.policy.maxChainSteps ==> StopsWith(c, p, ResourceLimitHit)
    ensures Turn(c, p) && !Fresh(c, p) ==> StopsWith(c, p, FormatRule("overflow.chain.acyclic"))
    ensures Turn(c, p) && Fresh(c, p) && !Owned(c, DuePage(c, p)) ==> StopsWith(c, p, PageOwner)
    ensures Turn(c, p) && Fresh(c, p) && Owned(c, DuePage(c, p)) && !RoleFits(c, DuePage(c, p)) ==>
      StopsWith(c, p, PageRoleMismatch)
  {
    if Due(p) {
      FreshIff(c, p);
    }
  }

  lemma FitsIff(c: Chain, p: seq<PageView>, total: nat)
    requires Announced(c, p, total) && Due(p)
    ensures DueFits(c, p, total) <==>
      && Retained(c, p) + Resident(c.disk(DuePage(c, p))) <= c.policy.memoryLimit
      && Decoded(c, p) + Resident(c.disk(DuePage(c, p))) <= c.policy.maxDecodedBytes
  {
    DecodedIs(c, p);
  }

  lemma StopsReading(c: Chain, p: seq<PageView>, total: nat)
    requires Announced(c, p, total) && Examined(c, p)
    ensures var page := c.disk(DuePage(c, p));
      if !DueFits(c, p, total) then StopsWith(c, p, ResourceLimitHit)
      else match page
        case NoVolume => StopsWith(c, p, FormatRule("page.volume.exists"))
        case ReadFault => Judge(c, p) == Halt(SourceFault)
        case BadEnvelope(rule) => StopsWith(c, p, FormatRule(rule))
        case Cipher(NoKey) => StopsWith(c, p, EncryptedPage)
        case Cipher(DecryptFault) => StopsWith(c, p, DecryptFailed)
        case Cipher(Clear(Failure(rule))) => StopsWith(c, p, FormatRule(rule))
        case Plain(area) => Judge(c, p) == JudgeArea(c, p, DuePage(c, p), BytesHeld(page), area)
        case Cipher(Clear(Success(area))) => Judge(c, p) == JudgeArea(c, p, DuePage(c, p), BytesHeld(page), area)
  {
    FreshIff(c, p);
    FitsIff(c, p, total);
  }

  predicate AreaStopsWith(verdict: Verdict<PageView, Exit>, failure: Failure)
  {
    verdict.Halt? && verdict.exit.Stopped? && verdict.exit.failure == failure
  }

  // What decoding the page of a chain comes to.
  lemma StopsDecoding(c: Chain, p: seq<PageView>, total: nat, area: Envelope, verdict: Verdict<PageView, Exit>)
    requires Announced(c, p, total) && Opened(c, p, total, area)
    requires verdict == JudgeArea(c, p, DuePage(c, p), BytesHeld(c.disk(DuePage(c, p))), area)
    ensures verdict.Halt? ==> verdict.exit.Stopped?
    ensures forall f :: AreaStopsWith(verdict, f) <==>
      || (f.FormatRule? && AreaRefused(c, p, total, area, f.rule))
      || (f == ResourceLimitHit && p == [] && exists t :: HeadReads(c, area, t) && BufferRefused(c, t))
  {
    LengthsAre(p);
    if p == [] {
      HeadStops(c, total, area, verdict);
    } else {
      assert AnnouncedTotal(c, p) == Some(total);
    }
  }

  lemma HeadStops(c: Chain, total: nat, area: Envelope, verdict: Verdict<PageView, Exit>)
    requires Opened(c, [], total, area)
    requires verdict == JudgeArea(c, [], c.head, BytesHeld(c.disk(c.head)), area)
    ensures verdict.Halt? ==> verdict.exit.Stopped?
    ensures forall f :: AreaStopsWith(verdict, f) <==>
      || (f.FormatRule? && AreaRefused(c, [], total, area, f.rule))
      || (f == ResourceLimitHit && exists t :: HeadReads(c, area, t) && BufferRefused(c, t))
  {
    if c.decodeHead(area).Success? && c.decodeHead(area).value.total.Some? {
      assert HeadReads(c, area, c.decodeHead(area).value.total.value);
    }
  }

  lemma ReasonBeforeReading(c: Chain, p: seq<PageView>, total: nat, f: Failure)
    requires Announced(c, p, total) && !Examined(c, p)
    ensures Reason(c, p, total, f) <==> StopsWith(c, p, f)
  {
    if Due(p) {
      StopsBeforeReading(c, p);
    } else {
      StopsAtTheEnd(c, p, total);
    }
  }

  lemma ReasonReading(c: Chain, p: seq<PageView>, total: nat, f: Failure)
    requires Announced(c, p, total) && Examined(c, p)
    requires DueFits(c, p, total) ==> forall area :: !Holds(c.disk(DuePage(c, p)), area)
    ensures Reason(c, p, total, f) <==> StopsWith(c, p, f)
  {
    StopsReading(c, p, total);
    NothingHeld(c.disk(DuePage(c, p)));
    forall area
      ensures !Opened(c, p, total, area)
      ensures p == [] ==> !Opened(c, [], 0, area)
    {
    }
  }

  lemma ReasonDecoding(c: Chain, p: seq<PageView>, total: nat, f: Failure, area: Envelope)
    requires Announced(c, p, total) && Opened(c, p, total, area)
    ensures Reason(c, p, total, f) <==> StopsWith(c, p, f)
  {
    StopsReading(c, p, total);
    StopsDecoding(c, p, total, area, Judge(c, p));
    assert AreaStopsWith(Judge(c, p), f) <==> StopsWith(c, p, f);
    forall other | Holds(c.disk(DuePage(c, p)), other)
      ensures other == area
    {
    }
  }

  lemma ReasonIff(c: Chain, p: seq<PageView>, total: nat, f: Failure)
    requires Announced(c, p, total)
    ensures Reason(c, p, total, f) <==> StopsWith(c, p, f)
  {
    if !Examined(c, p) {
      ReasonBeforeReading(c, p, total, f);
    } else if area :| DueFits(c, p, total) && Holds(c.disk(DuePage(c, p)), area) {
      ReasonDecoding(c, p, total, f, area);
    } else {
      ReasonReading(c, p, total, f);
    }
  }

  // The walk came to these pages, which announced this total.
  ghost predicate Reached(c: Chain, p: seq<PageView>, total: nat)
  {
    p == [] || (Run(c, p, total) && Budgeted(c, p, total))
  }

  lemma ReachedIff(c: Chain, p: seq<PageView>, total: nat)
    ensures Reached(c, p, total) <==> Admitted(Judging(c), p) && Announced(c, p, total)
  {
    LengthsAre(p);
    if p != [] && Admitted(Judging(c), p) && Announced(c, p, total) {
      AdmittedIsRun(c, p);
    }
    if p != [] && Reached(c, p, total) {
      RunIsAdmitted(c, p, total);
    }
  }

  lemma WalkReached(c: Chain, p: seq<PageView>)
    requires Admitted(Judging(c), p)
    ensures exists total :: Reached(c, p, total) && Announced(c, p, total)
  {
    if p == [] {
      assert Reached(c, p, 0) && Announced(c, p, 0);
    } else {
      AdmittedIsRun(c, p);
      var total := HeadTotal(c).value;
      assert Reached(c, p, total);
      ReachedIff(c, p, total);
    }
  }

  // A walk stops behind these pages with this failure exactly if they are a run within the limits
  // and the failure has its reason there.
  lemma WalkStopsIff(c: Chain, r: Traversal, p: seq<PageView>, f: Failure)
    requires IsWalk(c, r)
    ensures (r.Walked? && r.pages == p && r.failure == Some(f)) <==>
      exists total :: Reached(c, p, total) && Reason(c, p, total, f)
  {
    var q, exit :| Ends(Judging(c), q, exit) && r == Render(c, q, exit);
    if r.Walked? && r.pages == p && r.failure == Some(f) {
      StoppedHasReason(c, p, exit, f);
    }
    if total :| Reached(c, p, total) && Reason(c, p, total, f) {
      ReasonEnds(c, p, total, f);
      EndsUnique(Judging(c), q, exit, p, Judge(c, p).exit);
    }
  }

  lemma StoppedHasReason(c: Chain, p: seq<PageView>, exit: Exit, f: Failure)
    requires Ends(Judging(c), p, exit) && exit.Stopped? && exit.failure == f
    ensures exists total :: Reached(c, p, total) && Reason(c, p, total, f)
  {
    assert Judging(c)(p) == Judge(c, p);
    WalkReached(c, p);
    var total :| Reached(c, p, total) && Announced(c, p, total);
    ReasonIff(c, p, total, f);
  }

  lemma ReasonEnds(c: Chain, p: seq<PageView>, total: nat, f: Failure)
    requires Reached(c, p, total) && Reason(c, p, total, f)
    ensures StopsWith(c, p, f) && Ends(Judging(c), p, Judge(c, p).exit)
  {
    ReachedIff(c, p, total);
    ReasonIff(c, p, total, f);
    assert Judging(c)(p) == Judge(c, p);
  }

  // A source error propagates exactly from a page whose turn came and which fits.
  lemma WalkFaultsIff(c: Chain, r: Traversal)
    requires IsWalk(c, r)
    ensures r.Faulted? <==> exists p, total :: Reached(c, p, total) && FaultsAt(c, p, total)
  {
    var q, exit :| Ends(Judging(c), q, exit) && r == Render(c, q, exit);
    assert Judging(c)(q) == Judge(c, q);
    if r.Faulted? {
      WalkReached(c, q);
      var total :| Reached(c, q, total) && Announced(c, q, total);
      FaultIff(c, q, total);
    }
    if p, total :| Reached(c, p, total) && FaultsAt(c, p, total) {
      ReachedIff(c, p, total);
      FaultIff(c, p, total);
      assert Judging(c)(p) == Judge(c, p);
      EndsUnique(Judging(c), q, exit, p, SourceFault);
    }
  }

  ghost predicate FaultsAt(c: Chain, p: seq<PageView>, total: nat)
  {
    Examined(c, p) && DueFits(c, p, total) && c.disk(DuePage(c, p)) == ReadFault
  }

  lemma FaultIff(c: Chain, p: seq<PageView>, total: nat)
    requires Announced(c, p, total)
    ensures Judge(c, p) == Halt(SourceFault) <==> FaultsAt(c, p, total)
  {
    if !Due(p) {
      StopsAtTheEnd(c, p, total);
    } else if !Examined(c, p) {
      StopsBeforeReading(c, p);
    } else {
      StopsReading(c, p, total);
      if area :| DueFits(c, p, total) && Holds(c.disk(DuePage(c, p)), area) {
        StopsDecoding(c, p, total, area, Judge(c, p));
      }
    }
  }

  // A walk that stops at its head publishes the total that the head announces, if it was decoded.
  lemma HeadTotalPublished(c: Chain, r: Traversal, total: nat)
    requires IsWalk(c, r) && r.Walked? && r.pages == []
    ensures r.total == Some(total) <==> exists area :: HeadReads(c, area, total)
  {
    var p, exit :| Ends(Judging(c), p, exit) && r == Render(c, p, exit);
    assert Judging(c)(p) == Judge(c, p);
    if area :| Opened(c, [], 0, area) {
      StopsReading(c, [], 0);
      HeadAnnounces(c, area, total);
    } else {
      NothingAnnounced(c, exit);
    }
  }

  lemma NothingAnnounced(c: Chain, exit: Exit)
    requires Judge(c, []) == Halt(exit) && forall area :: !Opened(c, [], 0, area)
    ensures exit.Stopped? ==> exit.total == None
  {
    if Examined(c, []) && DueFits(c, [], 0) {
      StopsReading(c, [], 0);
      NothingHeld(c.disk(c.head));
      forall area
        ensures !Holds(c.disk(c.head), area)
      {
        assert !Opened(c, [], 0, area);
      }
    }
    FreshIff(c, []);
    FitsIff(c, [], 0);
  }

  lemma HeadAnnounces(c: Chain, area: Envelope, total: nat)
    requires Opened(c, [], 0, area)
    ensures var verdict := JudgeArea(c, [], c.head, BytesHeld(c.disk(c.head)), area);
      verdict.Halt? ==> verdict.exit.Stopped? && (verdict.exit.total == Some(total) <==> HeadReads(c, area, total))
    ensures forall other :: HeadReads(c, other, total) ==> other == area
  {
  }
}
