// What the OOS walker publishes and why it stops, stated over the chunks on disk:
// `enrich_oos` in `src/inspection.rs`.
module OosExits {
  import opened Wrappers
  import opened Bytes
  import opened Pages
  import opened Walks
  import opened OosChain

  // ---- A run of chunks and its cost ----

  function Sum(p: seq<ChunkView>): nat
  {
    if p == [] then 0 else p[0].length + Sum(p[1..])
  }

  function PageOn(c: Chain, at: Oid): Physical<Envelope>
  {
    c.disk(Vpid(at.vol, at.page))
  }

  // The bytes read along the run: a page each, and the plaintext of each encrypted one.
  ghost function ReadAlong(c: Chain, p: seq<ChunkView>): nat
  {
    16_384 * |p| + 16_344 * |Encrypted(c, p)|
  }

  // The places of the encrypted pages.
  ghost function Encrypted(c: Chain, p: seq<ChunkView>): set<nat>
  {
    set i: nat | i < |p| && PageOn(c, p[i].oid).Cipher?
  }

  predicate Known(c: Chain, at: Oid)
  {
    Vpid(at.vol, at.page) in c.roles
  }

  predicate RoleFits(c: Chain, at: Oid)
    requires Known(c, at)
  {
    var role := c.roles[Vpid(at.vol, at.page)];
    role.pageType == Some(Oos) && role.availability == Available
  }

  // What the slot holds if nothing stands in the way of reading its page.
  ghost predicate Decoded(c: Chain, at: Oid, fact: ChunkFact)
  {
    exists area :: Holds(PageOn(c, at), area) && c.decode(area, at.slot) == Success(fact)
  }

  // A chunk of the chain: the i-th, behind others that deliver `before` bytes of the total.
  ghost predicate GoodChunk(c: Chain, v: ChunkView, i: nat, total: nat, before: nat)
  {
    && Known(c, v.oid) && RoleFits(c, v.oid)
    && Decoded(c, v.oid, ChunkFact(total, i, v.next, v.offset, v.length))
    && v.total == total && v.index == i
    && before + v.length <= total
  }

  // Distinct good chunks, each linked to the next, from the head on.
  ghost predicate Run(c: Chain, p: seq<ChunkView>)
  {
    && (p != [] ==> p[0].oid == c.head)
    && (forall i :: 1 <= i < |p| ==> p[i - 1].next == Some(p[i].oid))
    && (forall i, j :: 0 <= i < j < |p| ==> p[i].oid != p[j].oid)
    && (forall i :: 0 <= i < |p| ==> GoodChunk(c, p[i], i, p[0].total, Sum(p[..i])))
  }

  // So many bytes may be decoded, and may stay in memory twice over, with one more page.
  predicate RoomForPage(c: Chain, decoded: nat)
  {
    && decoded + 16_384 <= c.policy.maxDecodedBytes
    && (decoded + 16_384 <= 2 * c.policy.memoryLimit && decoded + 16_384 <= 0xFFFF_FFFF_FFFF_FFFF)
  }

  // The n-th chunk was read within the limits, behind others that took `read` and delivered `before` bytes.
  predicate Afforded(c: Chain, v: ChunkView, n: nat, read: nat, before: nat)
  {
    var size := BytesHeld(PageOn(c, v.oid));
    && !c.cancelled(n) && n < c.policy.maxChainSteps && n <= 0xFFFF_FFFF
    && RoomForPage(c, read)
    && size <= c.policy.memoryLimit && read + size <= c.policy.maxDecodedBytes
    && before + v.length <= c.policy.maxDecodedBytes
  }

  ghost predicate Budgeted(c: Chain, p: seq<ChunkView>)
  {
    forall i :: 0 <= i < |p| ==> Afforded(c, p[i], i, ReadAlong(c, p[..i]), Sum(p[..i]))
  }

  lemma {:induction false} SumLast(p: seq<ChunkView>, v: ChunkView)
    ensures Sum(p + [v]) == Sum(p) + v.length
  {
    if p != [] {
      SumLast(p[1..], v);
      assert (p + [v])[1..] == p[1..] + [v];
    }
  }

  lemma {:induction false} LengthsAre(p: seq<ChunkView>)
    ensures Lengths(p) == Sum(p)
  {
    if p != [] {
      var q, v := p[..|p| - 1], p[|p| - 1];
      LengthsAre(q);
      SumLast(q, v);
      assert q + [v] == p;
    }
  }

  lemma EncryptedLast(c: Chain, p: seq<ChunkView>, v: ChunkView)
    ensures |Encrypted(c, p + [v])| == |Encrypted(c, p)| + if PageOn(c, v.oid).Cipher? then 1 else 0
  {
    var q := p + [v];
    assert Encrypted(c, q) - {|p|} == Encrypted(c, p);
    assert |p| in Encrypted(c, q) <==> PageOn(c, v.oid).Cipher?;
    assert |p| !in Encrypted(c, p);
  }

  lemma {:induction false} DecodedIs(c: Chain, p: seq<ChunkView>)
    ensures OosChain.Decoded(c, p) == ReadAlong(c, p)
  {
    if p != [] {
      var q, v := p[..|p| - 1], p[|p| - 1];
      DecodedIs(c, q);
      EncryptedLast(c, q, v);
      assert q + [v] == p;
    }
  }

  lemma DecodesIff(c: Chain, v: ChunkView)
    ensures Decodes(c, v) <==>
      && Known(c, v.oid) && RoleFits(c, v.oid)
      && Decoded(c, v.oid, ChunkFact(v.total, v.index, v.next, v.offset, v.length))
  {
    var content := Content(PageOn(c, v.oid));
    if content.Some? {
      assert Holds(PageOn(c, v.oid), content.value);
    }
  }

  // The chunks of a run are those of a linked prefix.
  lemma RunIff(c: Chain, p: seq<ChunkView>)
    ensures Run(c, p) <==> LinkedPrefix(c, p)
  {
    forall i | 0 <= i < |p|
      ensures GoodChunk(c, p[i], i, p[0].total, Sum(p[..i])) <==>
        && Decodes(c, p[i]) && p[i].index == i && p[i].total == p[0].total
        && Lengths(p[..i]) + p[i].length <= p[i].total
    {
      LengthsAre(p[..i]);
      DecodesIff(c, p[i]);
    }
    if LinkedPrefix(c, p) {
      LinkedIsRun(c, p);
    }
    if Run(c, p) {
      forall i | 0 <= i < |p|
        ensures ValidAt(c, p, i)
      {
      }
    }
  }

  lemma LinkedIsRun(c: Chain, p: seq<ChunkView>)
    requires LinkedPrefix(c, p)
    ensures Run(c, p)
  {
    forall i | 0 <= i < |p|
      ensures GoodChunk(c, p[i], i, p[0].total, Sum(p[..i]))
      ensures i == 0 ==> p[i].oid == c.head
      ensures i > 0 ==> p[i - 1].next == Some(p[i].oid)
      ensures forall j :: 0 <= j < i ==> p[j].oid != p[i].oid
    {
      assert ValidAt(c, p, i);
      LengthsAre(p[..i]);
      DecodesIff(c, p[i]);
    }
  }

  lemma BudgetedIff(c: Chain, p: seq<ChunkView>)
    ensures Budgeted(c, p) <==> Affordable(c, p)
  {
    forall i | 0 <= i < |p|
      ensures AffordsAt(c, p, i) <==> Afforded(c, p[i], i, ReadAlong(c, p[..i]), Sum(p[..i]))
    {
      LengthsAre(p[..i]);
      DecodedIs(c, p[..i]);
    }
  }

  // A walk that succeeds publishes the one complete run that the limits cover.
  lemma WalkPublishesIff(c: Chain, r: Outcome, p: seq<ChunkView>, total: nat)
    requires IsWalk(c, r)
    ensures r == ChainPublished(Some(total), total, p, None) <==>
      && p != [] && p[0].total == total && Run(c, p) && p[|p| - 1].next.None? && Sum(p) == total
      && Budgeted(c, p)
  {
    WalkSucceedsIffComplete(c, r);
    LengthsAre(p);
    RunIff(c, p);
    BudgetedIff(c, p);
    if r == ChainPublished(Some(total), total, p, None) {
      var q :| CompletePath(c, q) && Affordable(c, q);
      assert q == p;
    } else if p != [] && LinkedPrefix(c, p) && Affordable(c, p) {
      assert p[|p| - 1].next.None? && Lengths(p) == p[0].total ==> CompletePath(c, p);
    }
  }

  // ---- Why a walk stops ----

  // There is a chunk to look at: the head, or the one that the last chunk links to.
  predicate Due(p: seq<ChunkView>)
  {
    p == [] || p[|p| - 1].next.Some?
  }

  function DueChunk(c: Chain, p: seq<ChunkView>): Oid
    requires Due(p)
  {
    if p == [] then c.head else p[|p| - 1].next.value
  }

  // Its turn comes: its index is a u32, the walk is not cancelled and has steps left.
  predicate Turn(c: Chain, p: seq<ChunkView>)
  {
    Due(p) && |p| <= 0xFFFF_FFFF && !c.cancelled(|p|) && |p| < c.policy.maxChainSteps
  }

  predicate Fresh(c: Chain, p: seq<ChunkView>)
    requires Due(p)
  {
    forall i :: 0 <= i < |p| ==> p[i].oid != DueChunk(c, p)
  }

  // The walk was not there yet, and there is room for one more page.
  ghost predicate Admits(c: Chain, p: seq<ChunkView>)
  {
    Turn(c, p) && Fresh(c, p) && RoomForPage(c, ReadAlong(c, p))
  }

  // It may be read: it is on an available OOS page, which fits in memory.
  ghost predicate Examined(c: Chain, p: seq<ChunkView>)
  {
    && Admits(c, p) && Known(c, DueChunk(c, p)) && RoleFits(c, DueChunk(c, p))
    && BytesHeld(PageOn(c, DueChunk(c, p))) <= c.policy.memoryLimit
  }

  // The plaintext of the page may not be decoded any more.
  ghost predicate PlaintextRefused(c: Chain, p: seq<ChunkView>)
    requires Due(p)
  {
    var page := PageOn(c, DueChunk(c, p));
    page.Cipher? && page.plaintext.Clear? && ReadAlong(c, p) + 32_728 > c.policy.maxDecodedBytes
  }

  ghost predicate Opened(c: Chain, p: seq<ChunkView>, area: Envelope)
  {
    Examined(c, p) && !PlaintextRefused(c, p) && Holds(PageOn(c, DueChunk(c, p)), area)
  }

  // A limit refuses the next step, room for its page, the page itself or its plaintext.
  ghost predicate LimitRefuses(c: Chain, p: seq<ChunkView>)
  {
    && Due(p) && |p| <= 0xFFFF_FFFF && !c.cancelled(|p|)
    && (|| |p| >= c.policy.maxChainSteps
        || (Fresh(c, p) && !RoomForPage(c, ReadAlong(c, p)))
        || (Admits(c, p) && Known(c, DueChunk(c, p)) && RoleFits(c, DueChunk(c, p))
            && BytesHeld(PageOn(c, DueChunk(c, p))) > c.policy.memoryLimit)
        || (Examined(c, p) && PlaintextRefused(c, p)))
  }

  // The page cannot be read, for this rule.
  ghost predicate PageRefused(c: Chain, p: seq<ChunkView>, rule: string)
  {
    && Examined(c, p)
    && var page := PageOn(c, DueChunk(c, p));
       || (page == NoVolume && rule == "page.volume.exists")
       || page == BadEnvelope(rule)
       || (page == Cipher(NoKey) && rule == "oos.chain.encrypted")
       || (page == Cipher(DecryptFault) && rule == "tde.page.decrypt")
       || (page == Cipher(Clear(Failure(rule))) && !PlaintextRefused(c, p))
  }

  // The chunk is not the next one of this chain.
  predicate OutOfSequence(p: seq<ChunkView>, fact: ChunkFact)
  {
    fact.index != |p| || (p != [] && fact.total != p[0].total)
  }

  // It delivers more than the total, or than may be decoded.
  predicate TooLong(c: Chain, p: seq<ChunkView>, fact: ChunkFact)
  {
    Sum(p) + fact.length > fact.total || Sum(p) + fact.length > c.policy.maxDecodedBytes
  }

  // What the slot holds is refused, for this rule.
  predicate ChunkRefused(c: Chain, p: seq<ChunkView>, decoded: Result<ChunkFact, string>, rule: string)
  {
    match decoded
    case Failure(found) => rule == found
    case Success(fact) =>
      if OutOfSequence(p, fact) then rule == "oos.chain.sequence"
      else TooLong(c, p, fact) && rule == "oos.chain.accumulated_length"
  }

  // What makes a walk stop behind these chunks with this rule.
  ghost predicate Reason(c: Chain, p: seq<ChunkView>, rule: string)
  {
    || (!Due(p) && Sum(p) != p[|p| - 1].total && rule == "oos.chain.complete_length")
    || (Due(p) && |p| <= 0xFFFF_FFFF && c.cancelled(|p|) && rule == "interrupted")
    || (LimitRefuses(c, p) && rule == "resource-limit")
    || (Turn(c, p) && !Fresh(c, p) && rule == "oos.chain.acyclic")
    || (Admits(c, p) && !Known(c, DueChunk(c, p)) && rule == "oos.chain.page_exists")
    || (Admits(c, p) && Known(c, DueChunk(c, p)) && !RoleFits(c, DueChunk(c, p)) && rule == "oos.chain.page_role")
    || PageRefused(c, p, rule)
    || exists area :: Opened(c, p, area) && ChunkRefused(c, p, c.decode(area, DueChunk(c, p).slot), rule)
  }

  predicate StopsWith(verdict: Verdict<ChunkView, Exit>, rule: string)
  {
    verdict.Halt? && verdict.exit.Published? && verdict.exit.failure == Some(rule)
  }

  lemma FreshIff(c: Chain, p: seq<ChunkView>)
    requires Due(p)
    ensures DueChunk(c, p) == Current(c, p) && (Fresh(c, p) <==> Current(c, p) !in Visited(p))
    ensures RoomForPage(c, ReadAlong(c, p)) <==> PageAdmitted(c.policy, OosChain.Decoded(c, p))
  {
    DecodedIs(c, p);
  }

  lemma StopsBeforeReading(c: Chain, p: seq<ChunkView>)
    ensures !Due(p) && Sum(p) != p[|p| - 1].total ==> StopsWith(Judge(c, p), "oos.chain.complete_length")
    ensures !Due(p) && Sum(p) == p[|p| - 1].total ==> Judge(c, p) == Halt(Published(Total(p), None))
    ensures Due(p) && |p| > 0xFFFF_FFFF ==> Judge(c, p) == Halt(IndexOverflow)
    ensures Due(p) && |p| <= 0xFFFF_FFFF && c.cancelled(|p|) ==> StopsWith(Judge(c, p), "interrupted")
    ensures Due(p) && |p| <= 0xFFFF_FFFF && !c.cancelled(|p|) && |p| >= c.policy.maxChainSteps ==>
      StopsWith(Judge(c, p), "resource-limit")
    ensures Turn(c, p) && !Fresh(c, p) ==> StopsWith(Judge(c, p), "oos.chain.acyclic")
    ensures Turn(c, p) && Fresh(c, p) && !RoomForPage(c, ReadAlong(c, p)) ==> StopsWith(Judge(c, p), "resource-limit")
    ensures Admits(c, p) && !Known(c, DueChunk(c, p)) ==> StopsWith(Judge(c, p), "oos.chain.page_exists")
    ensures Admits(c, p) && Known(c, DueChunk(c, p)) && !RoleFits(c, DueChunk(c, p)) ==>
      StopsWith(Judge(c, p), "oos.chain.page_role")
  {
    LengthsAre(p);
    if Due(p) {
      FreshIff(c, p);
    }
  }

  lemma StopsReading(c: Chain, p: seq<ChunkView>)
    requires Admits(c, p) && Known(c, DueChunk(c, p)) && RoleFits(c, DueChunk(c, p))
    ensures var page := PageOn(c, DueChunk(c, p));
      if !Examined(c, p) then StopsWith(Judge(c, p), "resource-limit")
      else if PlaintextRefused(c, p) then StopsWith(Judge(c, p), "resource-limit")
      else match page
        case NoVolume => StopsWith(Judge(c, p), "page.volume.exists")
        case ReadFault => Judge(c, p) == Halt(SourceFault)
        case BadEnvelope(rule) => StopsWith(Judge(c, p), rule)
        case Cipher(NoKey) => StopsWith(Judge(c, p), "oos.chain.encrypted")
        case Cipher(DecryptFault) => StopsWith(Judge(c, p), "tde.page.decrypt")
        case Cipher(Clear(Failure(rule))) => StopsWith(Judge(c, p), rule)
        case Plain(area) => Judge(c, p) == JudgeChunk(c, p, DueChunk(c, p), c.decode(area, DueChunk(c, p).slot))
        case Cipher(Clear(Success(area))) =>
          Judge(c, p) == JudgeChunk(c, p, DueChunk(c, p), c.decode(area, DueChunk(c, p).slot))
  {
    FreshIff(c, p);
    DecodedIs(c, p);
  }

  lemma StopsDecoding(c: Chain, p: seq<ChunkView>, decoded: Result<ChunkFact, string>, rule: string)
    requires Due(p)
    ensures var verdict := JudgeChunk(c, p, DueChunk(c, p), decoded);
      && (verdict.Halt? ==> verdict.exit.Published?)
      && (StopsWith(verdict, rule) <==> ChunkRefused(c, p, decoded, rule))
  {
    LengthsAre(p);
  }

  lemma ReasonBeforeReading(c: Chain, p: seq<ChunkView>, rule: string)
    requires !(Admits(c, p) && Known(c, DueChunk(c, p)) && RoleFits(c, DueChunk(c, p)))
    ensures Reason(c, p, rule) <==> StopsWith(Judge(c, p), rule)
  {
    StopsBeforeReading(c, p);
  }

  lemma ReasonReading(c: Chain, p: seq<ChunkView>, rule: string)
    requires Admits(c, p) && Known(c, DueChunk(c, p)) && RoleFits(c, DueChunk(c, p))
    requires forall area :: !Opened(c, p, area)
    ensures Reason(c, p, rule) <==> StopsWith(Judge(c, p), rule)
  {
    StopsReading(c, p);
    if Examined(c, p) && !PlaintextRefused(c, p) {
      forall area
        ensures !Holds(PageOn(c, DueChunk(c, p)), area)
      {
        assert !Opened(c, p, area);
      }
      NothingHeld(PageOn(c, DueChunk(c, p)));
    }
  }

  lemma ReasonDecoding(c: Chain, p: seq<ChunkView>, rule: string, area: Envelope)
    requires Opened(c, p, area)
    ensures Reason(c, p, rule) <==> StopsWith(Judge(c, p), rule)
  {
    StopsReading(c, p);
    StopsDecoding(c, p, c.decode(area, DueChunk(c, p).slot), rule);
    forall other | Holds(PageOn(c, DueChunk(c, p)), other)
      ensures other == area
    {
    }
  }

  lemma ReasonIff(c: Chain, p: seq<ChunkView>, rule: string)
    ensures Reason(c, p, rule) <==> StopsWith(Judge(c, p), rule)
  {
    if !(Admits(c, p) && Known(c, DueChunk(c, p)) && RoleFits(c, DueChunk(c, p))) {
      ReasonBeforeReading(c, p, rule);
    } else if area :| Opened(c, p, area) {
      ReasonDecoding(c, p, rule, area);
    } else {
      ReasonReading(c, p, rule);
    }
  }

  // The walk came to these chunks.
  ghost predicate Reached(c: Chain, p: seq<ChunkView>)
  {
    Run(c, p) && Budgeted(c, p)
  }

  lemma ReachedIff(c: Chain, p: seq<ChunkView>)
    ensures Reached(c, p) <==> Admitted(Judging(c), p)
  {
    RunIff(c, p);
    BudgetedIff(c, p);
    if Admitted(Judging(c), p) {
      AdmittedIsLinked(c, p);
    }
    if LinkedPrefix(c, p) && Affordable(c, p) {
      forall i | 0 <= i < |p|
        ensures Judging(c)(p[..i]) == Extend(p[i])
      {
        assert ValidAt(c, p, i) && AffordsAt(c, p, i);
        ValidChunkIsAdmitted(c, p, i);
      }
    }
  }

  // Every published chain, whatever stopped it, is a run within the limits, with its payload sum.
  lemma PublishedIsRun(c: Chain, r: Outcome)
    requires IsWalk(c, r) && r.ChainPublished?
    ensures Run(c, r.chunks) && Budgeted(c, r.chunks) && r.validated == Sum(r.chunks)
    ensures r.chunks != [] ==> r.total == Some(r.chunks[0].total)
  {
    PublishedExitIsSound(c, r);
    RunIff(c, r.chunks);
    BudgetedIff(c, r.chunks);
    LengthsAre(r.chunks);
  }

  // A walk publishes these chunks with this rule exactly if they are a run within the limits and
  // the rule has its reason there.
  lemma WalkStopsIff(c: Chain, r: Outcome, p: seq<ChunkView>, rule: string)
    requires IsWalk(c, r)
    ensures (r.ChainPublished? && r.chunks == p && r.failure == Some(rule)) <==> Reached(c, p) && Reason(c, p, rule)
  {
    var q, exit :| Ends(Judging(c), q, exit) && r == Render(q, exit);
    assert Judging(c)(q) == Judge(c, q) && Judging(c)(p) == Judge(c, p);
    ReachedIff(c, p);
    ReasonIff(c, p, rule);
    if Reached(c, p) && Reason(c, p, rule) {
      EndsUnique(Judging(c), q, exit, p, Judge(c, p).exit);
    }
  }

  // What makes an error propagate: an index past u32, or a page that the source fails to read.
  ghost predicate FaultsAt(c: Chain, p: seq<ChunkView>)
  {
    || (Due(p) && |p| > 0xFFFF_FFFF)
    || (Examined(c, p) && PageOn(c, DueChunk(c, p)) == ReadFault)
  }

  lemma FaultIff(c: Chain, p: seq<ChunkView>)
    ensures FaultsAt(c, p) <==> Judge(c, p) == Halt(SourceFault) || Judge(c, p) == Halt(IndexOverflow)
  {
    if !(Admits(c, p) && Known(c, DueChunk(c, p)) && RoleFits(c, DueChunk(c, p))) {
      StopsBeforeReading(c, p);
    } else {
      StopsReading(c, p);
      if area :| Opened(c, p, area) {
        StopsDecoding(c, p, c.decode(area, DueChunk(c, p).slot), "");
      }
    }
  }

  lemma FaultsIff(c: Chain, p: seq<ChunkView>, exit: Exit)
    requires Ends(Judging(c), p, exit)
    ensures Reached(c, p) && (FaultsAt(c, p) <==> !exit.Published?)
  {
    assert Judging(c)(p) == Judge(c, p);
    ReachedIff(c, p);
    FaultIff(c, p);
  }

  lemma FaultEnds(c: Chain, p: seq<ChunkView>)
    requires Reached(c, p) && FaultsAt(c, p)
    ensures Judge(c, p).Halt? && Ends(Judging(c), p, Judge(c, p).exit)
  {
    assert Judging(c)(p) == Judge(c, p);
    ReachedIff(c, p);
    FaultIff(c, p);
  }

  // An error propagates exactly from an index past u32 or a page that cannot be read.
  lemma WalkFaultsIff(c: Chain, r: Outcome)
    requires IsWalk(c, r)
    ensures r.ErrorPropagated? <==> exists p :: Reached(c, p) && FaultsAt(c, p)
  {
    var q, exit :| Ends(Judging(c), q, exit) && r == Render(q, exit);
    FaultsIff(c, q, exit);
    if p :| Reached(c, p) && FaultsAt(c, p) {
      FaultEnds(c, p);
      EndsUnique(Judging(c), q, exit, p, Judge(c, p).exit);
    }
  }

  // A head chunk that is too long is published with its total, and no other head that stops the walk.
  ghost predicate HeadTooLong(c: Chain, area: Envelope, total: nat)
  {
    && Opened(c, [], area) && c.decode(area, c.head.slot).Success?
    && var fact := c.decode(area, c.head.slot).value;
       fact.total == total && !OutOfSequence([], fact) && TooLong(c, [], fact)
  }

  lemma HeadTotalPublished(c: Chain, r: Outcome, total: nat)
    requires IsWalk(c, r) && r.ChainPublished? && r.chunks == []
    ensures r.total == Some(total) <==> exists area :: HeadTooLong(c, area, total)
  {
    var p, exit :| Ends(Judging(c), p, exit) && r == Render(p, exit);
    assert Judging(c)(p) == Judge(c, p);
    if area :| Opened(c, [], area) {
      StopsReading(c, []);
      HeadAnnounces(c, area, total);
    } else {
      NothingAnnounced(c, exit);
    }
  }

  lemma HeadAnnounces(c: Chain, area: Envelope, total: nat)
    requires Opened(c, [], area)
    ensures var verdict := JudgeChunk(c, [], c.head, c.decode(area, c.head.slot));
      verdict.Halt? ==>
        verdict.exit.Published? && (verdict.exit.total == Some(total) <==> HeadTooLong(c, area, total))
    ensures forall other :: HeadTooLong(c, other, total) ==> other == area
  {
  }

  lemma NothingAnnounced(c: Chain, exit: Exit)
    requires Judge(c, []) == Halt(exit) && forall area :: !Opened(c, [], area)
    ensures exit.Published? ==> exit.total == None
  {
    if Examined(c, []) && !PlaintextRefused(c, []) {
      StopsReading(c, []);
      NothingHeld(PageOn(c, c.head));
      forall area
        ensures !Holds(PageOn(c, c.head), area)
      {
        assert !Opened(c, [], area);
      }
    }
    FreshIff(c, []);
    DecodedIs(c, []);
  }
}
