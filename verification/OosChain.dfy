// The OOS chain walker: `enrich_oos` in `src/inspection.rs`.
module OosChain {
  import opened Wrappers
  import opened Bytes
  import opened Pages
  import opened Walks
  import Bits

  // A decoded chunk, as `OosChunkFact`.
  datatype ChunkFact = ChunkFact(total: nat, index: nat, next: Option<Oid>, offset: nat, length: nat)

  // `OosChunkView`: one validated chunk of the chain.
  datatype ChunkView = ChunkView(oid: Oid, total: nat, index: nat, next: Option<Oid>, offset: nat, length: nat)

  // Why the walk ended: a published chain (`None` is success) or a propagated error.
  datatype Exit = Published(total: Option<nat>, failure: Option<string>) | SourceFault | IndexOverflow

  // One call of the walker together with everything it reads.  `decode` stands for the
  // slotted page and chunk decoders applied to one slot.
  datatype Chain = Chain(
    head: Oid,
    roles: map<Vpid, PageRole>,
    disk: Vpid -> Physical<Envelope>,
    decode: (Envelope, nat) -> Result<ChunkFact, string>,
    policy: ResourcePolicy,
    cancelled: nat -> bool)

  function PageOf(oid: Oid): Vpid
  {
    Vpid(oid.vol, oid.page)
  }

  function Lengths(p: seq<ChunkView>): nat
  {
    if p == [] then 0 else Lengths(p[..|p| - 1]) + p[|p| - 1].length
  }

  function Visited(p: seq<ChunkView>): set<Oid>
  {
    set i | 0 <= i < |p| :: p[i].oid
  }

  function Decoded(c: Chain, p: seq<ChunkView>): nat
  {
    if p == [] then 0 else Decoded(c, p[..|p| - 1]) + Resident(c.disk(PageOf(p[|p| - 1].oid)))
  }

  function Total(p: seq<ChunkView>): Option<nat>
  {
    if p == [] then None else Some(p[0].total)
  }

  function Current(c: Chain, p: seq<ChunkView>): Oid
  {
    if p != [] && p[|p| - 1].next.Some? then p[|p| - 1].next.value else c.head
  }

  function DoubledMemory(policy: ResourcePolicy): nat
  {
    if 2 * policy.memoryLimit <= Bits.U64_MAX then 2 * policy.memoryLimit else Bits.U64_MAX
  }

  // The decoded-byte budget admits one more physical page.
  predicate PageAdmitted(policy: ResourcePolicy, decoded: nat)
  {
    decoded + IO_PAGE_SIZE <= policy.maxDecodedBytes && decoded + IO_PAGE_SIZE <= DoubledMemory(policy)
  }

  function ReadFailure(error: PageError): string
    requires error != Source
  {
    match error
    case Format(rule) => rule
    case Encrypted => "oos.chain.encrypted"
    case Decrypt => "tde.page.decrypt"
    case ResourceLimit => "resource-limit"
  }

  function Fail(total: Option<nat>, rule: string): Verdict<ChunkView, Exit>
  {
    Halt(Published(total, Some(rule)))
  }

  // One turn of the loop, from the chunks validated so far.
  function Judge(c: Chain, p: seq<ChunkView>): Verdict<ChunkView, Exit>
  {
    var total := Total(p);
    if p != [] && p[|p| - 1].next.None? then
      if Lengths(p) == p[|p| - 1].total then Halt(Published(total, None))
      else Fail(total, "oos.chain.complete_length")
    else if |p| > Bits.U32_MAX then Halt(IndexOverflow)
    else
      var current := Current(c, p);
      if c.cancelled(|p|) then Fail(total, "interrupted")
      else if |p| >= c.policy.maxChainSteps then Fail(total, "resource-limit")
      else if current in Visited(p) then Fail(total, "oos.chain.acyclic")
      else if !PageAdmitted(c.policy, Decoded(c, p)) then Fail(total, "resource-limit")
      else if PageOf(current) !in c.roles then Fail(total, "oos.chain.page_exists")
      else if c.roles[PageOf(current)] != PageRole(Some(Oos), Available) then
        Fail(total, "oos.chain.page_role")
      else
        match ReadAdmitted(c.disk(PageOf(current)), c.policy.memoryLimit)
        case Failure(error) => if error == Source then Halt(SourceFault) else Fail(total, ReadFailure(error))
        case Success(owned) =>
          if owned.decrypted && Decoded(c, p) + Footprint(true) > c.policy.maxDecodedBytes then
            Fail(total, "resource-limit")
          else
            match owned.envelope
            case Failure(rule) => Fail(total, rule)
            case Success(area) => JudgeChunk(c, p, current, c.decode(area, current.slot))
  }

  function JudgeChunk(c: Chain, p: seq<ChunkView>, current: Oid, decoded: Result<ChunkFact, string>):
    Verdict<ChunkView, Exit>
  {
    match decoded
    case Failure(rule) => Fail(Total(p), rule)
    case Success(fact) =>
      if fact.index != |p| || (p != [] && p[0].total != fact.total) then
        Fail(Total(p), "oos.chain.sequence")
      else if Lengths(p) + fact.length > fact.total || Lengths(p) + fact.length > c.policy.maxDecodedBytes then
        Fail(Some(fact.total), "oos.chain.accumulated_length")
      else
        Extend(ChunkView(current, fact.total, fact.index, fact.next, fact.offset, fact.length))
  }

  function Judging(c: Chain): seq<ChunkView> -> Verdict<ChunkView, Exit>
  {
    (p: seq<ChunkView>) => Judge(c, p)
  }

  // The arguments of `publish_oos_chain`, or the propagated error.
  datatype Outcome =
    | ErrorPropagated
    | ChainPublished(total: Option<nat>, validated: nat, chunks: seq<ChunkView>, failure: Option<string>)

  function Render(p: seq<ChunkView>, exit: Exit): Outcome
  {
    match exit
    case Published(total, failure) => ChainPublished(total, Lengths(p), p, failure)
    case _ => ErrorPropagated
  }

  ghost predicate IsWalk(c: Chain, r: Outcome)
  {
    exists p, exit :: Ends(Judging(c), p, exit) && r == Render(p, exit)
  }

  // ---- The loop ----

  // The state the loop carries, tied to the chunks validated so far.
  ghost predicate Carried(
    c: Chain, chunks: seq<ChunkView>, current: Oid, visited: set<Oid>, total: Option<nat>, index: nat,
    validated: nat, decoded: nat)
  {
    && (chunks != [] ==> chunks[|chunks| - 1].next.Some?)
    && current == Current(c, chunks)
    && visited == Visited(chunks)
    && total == Total(chunks)
    && index == |chunks| <= Bits.U32_MAX
    && validated == Lengths(chunks)
    && decoded == Decoded(c, chunks)
  }

  method ExamineChunk(
    c: Chain, chunks: seq<ChunkView>, current: Oid, visited: set<Oid>, total: Option<nat>, index: nat,
    validated: nat, decoded: nat) returns (verdict: Verdict<ChunkView, Exit>, read: nat)
    requires Carried(c, chunks, current, visited, total, index, validated, decoded)
    ensures verdict == Judge(c, chunks)
    ensures verdict.Extend? ==> verdict.item.oid == current && read == decoded + Resident(c.disk(PageOf(current)))
  {
    read := decoded;
    if c.cancelled(|chunks|) {
      return Fail(total, "interrupted"), read;
    }
    if |chunks| >= c.policy.maxChainSteps {
      return Fail(total, "resource-limit"), read;
    }
    if current in visited {
      return Fail(total, "oos.chain.acyclic"), read;
    }
    if !PageAdmitted(c.policy, decoded) {
      return Fail(total, "resource-limit"), read;
    }
    read := decoded + IO_PAGE_SIZE;
    if PageOf(current) !in c.roles {
      return Fail(total, "oos.chain.page_exists"), read;
    }
    if c.roles[PageOf(current)] != PageRole(Some(Oos), Available) {
      return Fail(total, "oos.chain.page_role"), read;
    }
    var reading := ReadAdmitted(c.disk(PageOf(current)), c.policy.memoryLimit);
    if reading.Failure? {
      verdict := if reading.error == Source then Halt(SourceFault) else Fail(total, ReadFailure(reading.error));
      return;
    }
    if reading.value.decrypted {
      if read + DB_PAGE_SIZE > c.policy.maxDecodedBytes {
        return Fail(total, "resource-limit"), read;
      }
      read := read + DB_PAGE_SIZE;
    }
    if reading.value.envelope.Failure? {
      return Fail(total, reading.value.envelope.error), read;
    }
    var chunk := c.decode(reading.value.envelope.value, current.slot);
    if chunk.Failure? {
      return Fail(total, chunk.error), read;
    }
    var fact := chunk.value;
    if fact.index != index || (total.Some? && total.value != fact.total) {
      return Fail(total, "oos.chain.sequence"), read;
    }
    if validated + fact.length > fact.total || validated + fact.length > c.policy.maxDecodedBytes {
      return Fail(Some(fact.total), "oos.chain.accumulated_length"), read;
    }
    verdict := Extend(ChunkView(current, fact.total, fact.index, fact.next, fact.offset, fact.length));
  }

  // Everything the loop carries besides the chunk to look at next and its index.
  ghost predicate Gathered(c: Chain, chunks: seq<ChunkView>, visited: set<Oid>, total: Option<nat>, validated: nat,
                           decoded: nat)
  {
    && Admitted(Judging(c), chunks) && |chunks| <= c.policy.maxChainSteps
    && visited == Visited(chunks)
    && total == Total(chunks)
    && validated == Lengths(chunks)
    && decoded == Decoded(c, chunks)
  }

  // The bookkeeping for one validated chunk.
  method TakeChunk(c: Chain, view: ChunkView, read: nat, chunks: seq<ChunkView>, visited: set<Oid>, total: Option<nat>,
                   validated: nat, ghost decoded: nat)
    returns (visited': set<Oid>, total': Option<nat>, validated': nat)
    requires Gathered(c, chunks, visited, total, validated, decoded)
    requires Judge(c, chunks) == Extend(view) && read == decoded + Resident(c.disk(PageOf(view.oid)))
    ensures |chunks| < c.policy.maxChainSteps
    ensures Gathered(c, chunks + [view], visited', total', validated', read)
  {
    TurnTaken(c, chunks, view);
    visited' := visited + {view.oid};
    total' := if total.None? then Some(view.total) else total;
    validated' := validated + view.length;
  }

  method WalkOosChain(c: Chain) returns (r: Outcome)
    ensures IsWalk(c, r)
  {
    var visited: set<Oid> := {};
    var chunks: seq<ChunkView> := [];
    var current := c.head;
    var total: Option<nat> := None;
    var index: nat := 0;
    var validated: nat := 0;
    var decoded: nat := 0;
    while true
      invariant Gathered(c, chunks, visited, total, validated, decoded)
      invariant chunks != [] ==> chunks[|chunks| - 1].next.Some?
      invariant current == Current(c, chunks) && index == |chunks| <= Bits.U32_MAX
      decreases c.policy.maxChainSteps - |chunks|
    {
      var verdict, read := ExamineChunk(c, chunks, current, visited, total, index, validated, decoded);
      if verdict.Halt? {
        r := if verdict.exit.Published?
             then ChainPublished(verdict.exit.total, validated, chunks, verdict.exit.failure)
             else ErrorPropagated;
        WalkEnded(c, chunks, verdict.exit, r);
        return;
      }
      var view := verdict.item;
      visited, total, validated := TakeChunk(c, view, read, chunks, visited, total, validated, decoded);
      decoded := read;
      chunks := chunks + [view];
      if view.next.None? || index == Bits.U32_MAX {
        var failure := if validated == view.total then None else Some("oos.chain.complete_length");
        r := if view.next.Some? then ErrorPropagated else ChainPublished(total, validated, chunks, failure);
        LastChunkReached(c, chunks, failure, r);
        return;
      }
      current := view.next.value;
      index := index + 1;
    }
  }

  lemma WalkEnded(c: Chain, p: seq<ChunkView>, exit: Exit, r: Outcome)
    requires Admitted(Judging(c), p) && Judge(c, p) == Halt(exit) && r == Render(p, exit)
    ensures IsWalk(c, r)
  {
    assert Judging(c)(p) == Judge(c, p);
    assert Ends(Judging(c), p, exit);
  }

  lemma WalkGrows(c: Chain, p: seq<ChunkView>, v: ChunkView)
    requires Admitted(Judging(c), p) && Judge(c, p) == Extend(v)
    ensures Admitted(Judging(c), p + [v])
    ensures |p| < c.policy.maxChainSteps
  {
    assert Judging(c)(p) == Judge(c, p);
    AdmittedExtends(Judging(c), p, v);
  }

  // What one successful turn adds to everything the loop carries.
  lemma TurnTaken(c: Chain, p: seq<ChunkView>, v: ChunkView)
    requires Admitted(Judging(c), p) && Judge(c, p) == Extend(v)
    ensures var q := p + [v];
      && Admitted(Judging(c), q)
      && |q| <= c.policy.maxChainSteps
      && Lengths(q) == Lengths(p) + v.length
      && Visited(q) == Visited(p) + {v.oid}
      && Decoded(c, q) == Decoded(c, p) + Resident(c.disk(PageOf(v.oid)))
      && Total(q) == (if p == [] then Some(v.total) else Total(p))
  {
    WalkGrows(c, p, v);
    PrefixGrows(c, p, v);
  }

  lemma LastChunkReached(c: Chain, p: seq<ChunkView>, failure: Option<string>, r: Outcome)
    requires Admitted(Judging(c), p) && p != [] && (p[|p| - 1].next.None? || |p| > Bits.U32_MAX)
    requires failure == if Lengths(p) == p[|p| - 1].total then None else Some("oos.chain.complete_length")
    requires r == if p[|p| - 1].next.Some? then ErrorPropagated else ChainPublished(Total(p), Lengths(p), p, failure)
    ensures IsWalk(c, r)
  {
    WalkEnded(c, p, if p[|p| - 1].next.Some? then IndexOverflow else Published(Total(p), failure), r);
  }

  lemma PrefixGrows(c: Chain, p: seq<ChunkView>, v: ChunkView)
    ensures Lengths(p + [v]) == Lengths(p) + v.length
    ensures Visited(p + [v]) == Visited(p) + {v.oid}
    ensures Decoded(c, p + [v]) == Decoded(c, p) + Resident(c.disk(PageOf(v.oid)))
  {
    var q := p + [v];
    assert q[..|q| - 1] == p;
    forall x | x in Visited(p) + {v.oid}
      ensures x in Visited(q)
    {
      if x in Visited(p) {
        var i :| 0 <= i < |p| && p[i].oid == x;
        assert q[i].oid == x;
      } else {
        assert q[|p|].oid == x;
      }
    }
  }

  // ---- Soundness and completeness ----

  // The i-th chunk of p is the chunk its predecessor links to, not seen before, on an
  // available OOS page, and decodes with index i, the common total and a fitting length.
  ghost predicate ValidAt(c: Chain, p: seq<ChunkView>, i: nat)
    requires i < |p|
  {
    && (if i == 0 then p[0].oid == c.head else p[i - 1].next == Some(p[i].oid))
    && (forall j :: 0 <= j < i ==> p[j].oid != p[i].oid)
    && Decodes(c, p[i])
    && p[i].index == i && p[i].total == p[0].total
    && Lengths(p[..i]) + p[i].length <= p[i].total
  }

  // The chunk is what its slot decodes to, and its page is an available OOS page.
  ghost predicate Decodes(c: Chain, v: ChunkView)
  {
    && PageOf(v.oid) in c.roles && c.roles[PageOf(v.oid)] == PageRole(Some(Oos), Available)
    && Content(c.disk(PageOf(v.oid))).Some?
    && c.decode(Content(c.disk(PageOf(v.oid))).value, v.oid.slot)
       == Success(ChunkFact(v.total, v.index, v.next, v.offset, v.length))
  }

  ghost predicate LinkedPrefix(c: Chain, p: seq<ChunkView>)
  {
    forall i :: 0 <= i < |p| ==> ValidAt(c, p, i)
  }

  ghost predicate CompletePath(c: Chain, p: seq<ChunkView>)
  {
    p != [] && LinkedPrefix(c, p) && p[|p| - 1].next.None? && Lengths(p) == p[0].total
  }

  // The policy covers the i-th chunk of p.
  ghost predicate AffordsAt(c: Chain, p: seq<ChunkView>, i: nat)
    requires i < |p|
  {
    var resident := Resident(c.disk(PageOf(p[i].oid)));
    && !c.cancelled(i) && i < c.policy.maxChainSteps && i <= Bits.U32_MAX
    && resident <= c.policy.memoryLimit
    && PageAdmitted(c.policy, Decoded(c, p[..i]))
    && Decoded(c, p[..i]) + resident <= c.policy.maxDecodedBytes
    && Lengths(p[..i]) + p[i].length <= c.policy.maxDecodedBytes
  }

  ghost predicate Affordable(c: Chain, p: seq<ChunkView>)
  {
    forall i :: 0 <= i < |p| ==> AffordsAt(c, p, i)
  }

  // A slot length has 14 bits and a chunk index is a non-negative i32.
  ghost predicate SlotSized(c: Chain)
  {
    forall e, slot :: c.decode(e, slot).Success? ==>
      c.decode(e, slot).value.length <= 0x3FFF && c.decode(e, slot).value.index <= Bits.I32_MAX
  }

  lemma ChunkReached(c: Chain, p: seq<ChunkView>, v: ChunkView) returns (area: Envelope)
    requires Judge(c, p) == Extend(v)
    ensures p != [] ==> p[|p| - 1].next == Some(Current(c, p))
    ensures !c.cancelled(|p|) && |p| < c.policy.maxChainSteps && |p| <= Bits.U32_MAX
    ensures PageAdmitted(c.policy, Decoded(c, p))
    ensures var current := Current(c, p); var at := PageOf(current);
      && current !in Visited(p)
      && at in c.roles && c.roles[at] == PageRole(Some(Oos), Available)
      && Content(c.disk(at)) == Some(area)
      && Resident(c.disk(at)) <= c.policy.memoryLimit
      && Decoded(c, p) + Resident(c.disk(at)) <= c.policy.maxDecodedBytes
      && JudgeChunk(c, p, current, c.decode(area, current.slot)) == Extend(v)
  {
    var reading := ReadAdmitted(c.disk(PageOf(Current(c, p))), c.policy.memoryLimit);
    area := reading.value.envelope.value;
  }

  lemma ChunkIsValid(c: Chain, p: seq<ChunkView>, v: ChunkView)
    requires Judge(c, p) == Extend(v)
    requires LinkedPrefix(c, p)
    ensures ValidAt(c, p + [v], |p|) && AffordsAt(c, p + [v], |p|)
  {
    var area := ChunkReached(c, p, v);
    var q, n := p + [v], |p|;
    assert q[..n] == p;
    assert forall j :: 0 <= j < n ==> p[j].oid in Visited(p);
    assert v.oid == Current(c, p);
    assert Decodes(c, v);
    if n > 0 {
      assert q[0] == p[0];
    }
  }

  lemma ValidityExtends(c: Chain, p: seq<ChunkView>, v: ChunkView, i: nat)
    requires i < |p|
    ensures ValidAt(c, p, i) <==> ValidAt(c, p + [v], i)
    ensures AffordsAt(c, p, i) <==> AffordsAt(c, p + [v], i)
  {
    assert (p + [v])[..i] == p[..i];
    assert (p + [v])[i] == p[i] && (p + [v])[0] == p[0];
    assert forall j :: 0 <= j < i ==> (p + [v])[j] == p[j];
  }

  lemma {:induction false} AdmittedIsLinked(c: Chain, p: seq<ChunkView>)
    requires Admitted(Judging(c), p)
    ensures LinkedPrefix(c, p) && Affordable(c, p)
  {
    if p != [] {
      var n := |p| - 1;
      var q, v := p[..n], p[n];
      forall i | 0 <= i < n
        ensures Judging(c)(q[..i]) == Extend(q[i])
      {
        assert q[..i] == p[..i];
      }
      AdmittedIsLinked(c, q);
      assert Judging(c)(q) == Judge(c, q);
      LinkedGrows(c, q, v);
      assert p == q + [v];
    }
  }

  lemma LinkedGrows(c: Chain, p: seq<ChunkView>, v: ChunkView)
    requires LinkedPrefix(c, p) && Affordable(c, p) && Judge(c, p) == Extend(v)
    ensures LinkedPrefix(c, p + [v]) && Affordable(c, p + [v])
  {
    ChunkIsValid(c, p, v);
    forall i | 0 <= i < |p|
      ensures ValidAt(c, p + [v], i) && AffordsAt(c, p + [v], i)
    {
      ValidityExtends(c, p, v, i);
    }
  }

  predicate IsResource(rule: string)
  {
    rule == "resource-limit" || rule == "interrupted"
  }

  predicate StopsOnResource(verdict: Verdict<ChunkView, Exit>)
  {
    verdict.Halt? && verdict.exit.Published? && verdict.exit.failure.Some? && IsResource(verdict.exit.failure.value)
  }

  // At a valid chunk the walk continues unless a budget or the cancel token stops it.
  lemma ValidChunkIsAdmitted(c: Chain, q: seq<ChunkView>, i: nat)
    requires i < |q| && ValidAt(c, q, i) && i <= Bits.U32_MAX
    requires Lengths(q[..i]) + q[i].length <= c.policy.maxDecodedBytes || !PageAdmitted(c.policy, Decoded(c, q[..i]))
    ensures Judge(c, q[..i]) == Extend(q[i]) || StopsOnResource(Judge(c, q[..i]))
    ensures AffordsAt(c, q, i) ==> Judge(c, q[..i]) == Extend(q[i])
  {
    var p, v := q[..i], q[i];
    assert v.oid == Current(c, p) && v.oid !in Visited(p);
    var area := Content(c.disk(PageOf(v.oid))).value;
    if PageAdmitted(c.policy, Decoded(c, p)) {
      ChunkContinues(c, q, i, area);
      var reading := ReadAdmitted(c.disk(PageOf(v.oid)), c.policy.memoryLimit);
      if reading.Success? {
        assert reading.value == OwnedPage(c.disk(PageOf(v.oid)).Cipher?, Success(area));
      }
    }
  }

  lemma ChunkContinues(c: Chain, q: seq<ChunkView>, i: nat, area: Envelope)
    requires i < |q| && ValidAt(c, q, i) && Content(c.disk(PageOf(q[i].oid))) == Some(area)
    requires Lengths(q[..i]) + q[i].length <= c.policy.maxDecodedBytes
    ensures JudgeChunk(c, q[..i], q[i].oid, c.decode(area, q[i].oid.slot)) == Extend(q[i])
  {
    if i > 0 {
      assert q[..i][0] == q[0];
    }
  }

  lemma EndOfChain(c: Chain, p: seq<ChunkView>)
    requires LinkedPrefix(c, p)
    ensures Judge(c, p) == Halt(Published(Total(p), None)) <==> CompletePath(c, p)
    ensures forall total :: Judge(c, p) == Halt(Published(total, None)) ==> total == Total(p)
  {
    if p != [] {
      assert ValidAt(c, p, |p| - 1);
    }
  }

  lemma FinishedIsComplete(c: Chain, p: seq<ChunkView>)
    ensures Ends(Judging(c), p, Published(Total(p), None)) <==> CompletePath(c, p) && Affordable(c, p)
  {
    assert Judging(c)(p) == Judge(c, p);
    if Ends(Judging(c), p, Published(Total(p), None)) {
      AdmittedIsLinked(c, p);
      EndOfChain(c, p);
    }
    if CompletePath(c, p) && Affordable(c, p) {
      EndOfChain(c, p);
      forall i | 0 <= i < |p|
        ensures Judging(c)(p[..i]) == Extend(p[i])
      {
        assert ValidAt(c, p, i) && AffordsAt(c, p, i);
        ValidChunkIsAdmitted(c, p, i);
      }
    }
  }

  // Success exactly when the links from the head form a complete affordable chain.
  lemma WalkSucceedsIffComplete(c: Chain, r: Outcome)
    requires IsWalk(c, r)
    ensures (r.ChainPublished? && r.failure.None?) <==> exists p :: CompletePath(c, p) && Affordable(c, p)
    ensures forall p :: CompletePath(c, p) && Affordable(c, p) ==>
      r == ChainPublished(Total(p), Lengths(p), p, None)
  {
    var p, exit :| Ends(Judging(c), p, exit) && r == Render(p, exit);
    assert Judging(c)(p) == Judge(c, p);
    AdmittedIsLinked(c, p);
    EndOfChain(c, p);
    FinishedIsComplete(c, p);
    forall q | CompletePath(c, q) && Affordable(c, q)
      ensures q == p && exit == Published(Total(p), None)
    {
      FinishedIsComplete(c, q);
      EndsUnique(Judging(c), p, exit, q, Published(Total(q), None));
    }
  }

  // Every published exit: indices 0, 1, 2, …, one common total, distinct linked chunks, the
  // payload sum reported and never past the total, all within the budgets; and the chain is
  // complete exactly when its last link is terminal and the sum is the total.
  lemma PublishedExitIsSound(c: Chain, r: Outcome)
    requires IsWalk(c, r) && r.ChainPublished?
    ensures LinkedPrefix(c, r.chunks) && Affordable(c, r.chunks)
    ensures r.validated == Lengths(r.chunks)
    ensures r.chunks != [] ==> r.total == Some(r.chunks[0].total) && r.validated <= r.total.value
    ensures r.failure.None? <==>
      r.chunks != [] && r.chunks[|r.chunks| - 1].next.None? && r.total == Some(r.validated)
  {
    var p, exit :| Ends(Judging(c), p, exit) && r == Render(p, exit);
    assert Judging(c)(p) == Judge(c, p);
    AdmittedIsLinked(c, p);
    EndOfChain(c, p);
    if p != [] {
      StoppedTotal(c, p, exit);
      assert ValidAt(c, p, |p| - 1);
    }
  }

  lemma StoppedTotal(c: Chain, p: seq<ChunkView>, exit: Exit)
    requires p != [] && Judge(c, p) == Halt(exit)
    ensures exit.Published? ==> exit.total == Total(p)
  {
  }

  // ---- Failures that no budget can mend ----

  lemma {:induction false} LinkedRunsAgree(c: Chain, p: seq<ChunkView>, q: seq<ChunkView>, n: nat)
    requires LinkedPrefix(c, p) && LinkedPrefix(c, q) && n <= |p| && n <= |q|
    ensures p[..n] == q[..n]
  {
    if n > 0 {
      LinkedRunsAgree(c, p, q, n - 1);
      assert ValidAt(c, p, n - 1) && ValidAt(c, q, n - 1);
      if n > 1 {
        assert p[n - 2] == p[..n - 1][n - 2] == q[..n - 1][n - 2] == q[n - 2];
      }
      assert p[n - 1] == q[n - 1];
      assert p[..n] == p[..n - 1] + [p[n - 1]];
      assert q[..n] == q[..n - 1] + [q[n - 1]];
    }
  }

  lemma LinksOnward(c: Chain, p: seq<ChunkView>)
    requires LinkedPrefix(c, p)
    ensures forall i :: 0 <= i < |p| - 1 ==> p[i].next.Some?
  {
    forall i | 0 <= i < |p| - 1
      ensures p[i].next.Some?
    {
      assert ValidAt(c, p, i + 1);
    }
  }

  // A linked run cannot outgrow a complete chain.
  lemma CompletePathIsLongest(c: Chain, p: seq<ChunkView>, q: seq<ChunkView>)
    requires LinkedPrefix(c, p) && CompletePath(c, q)
    ensures |p| <= |q| && p == q[..|p|]
  {
    var n := if |p| < |q| then |p| else |q|;
    LinkedRunsAgree(c, p, q, n);
    var last := |q| - 1;
    if n == |q| {
      assert p[last] == p[..n][last] == q[..n][last] == q[last];
    }
    LinksOnward(c, p);
    assert p[..|p|] == p;
  }

  // Payload never outgrows the pages it was read from.
  lemma {:induction false} PayloadWithinPages(c: Chain, q: seq<ChunkView>, i: nat)
    requires SlotSized(c) && LinkedPrefix(c, q) && i <= |q|
    ensures Lengths(q[..i]) <= Decoded(c, q[..i])
  {
    if i > 0 {
      PayloadWithinPages(c, q, i - 1);
      assert ValidAt(c, q, i - 1);
      assert q[..i] == q[..i - 1] + [q[i - 1]];
      PrefixGrows(c, q[..i - 1], q[i - 1]);
    }
  }

  // A failure other than the two resource rules, or a propagated error, is a fact about the
  // chain: no complete chain starts at this head.  In particular the payload check against
  // the decoded-byte budget never misreports a budget as a structural violation.
  lemma StructuralFailureIsFinal(c: Chain, r: Outcome)
    requires SlotSized(c) && IsWalk(c, r)
    requires r.ErrorPropagated? || (r.failure.Some? && !IsResource(r.failure.value))
    ensures forall q :: !CompletePath(c, q)
  {
    var p, exit :| Ends(Judging(c), p, exit) && r == Render(p, exit);
    assert Judging(c)(p) == Judge(c, p);
    AdmittedIsLinked(c, p);
    forall q
      ensures !CompletePath(c, q)
    {
      if CompletePath(c, q) {
        CompletePathStopsOnlyOnResources(c, p, q);
      }
    }
  }

  lemma CompletePathStopsOnlyOnResources(c: Chain, p: seq<ChunkView>, q: seq<ChunkView>)
    requires SlotSized(c) && LinkedPrefix(c, p) && CompletePath(c, q)
    ensures Judge(c, p).Extend? || Judge(c, p) == Halt(Published(Total(p), None)) || StopsOnResource(Judge(c, p))
  {
    CompletePathIsLongest(c, p, q);
    if |p| < |q| {
      var n := |p|;
      assert ValidAt(c, q, n);
      PayloadWithinPages(c, q, n);
      ValidChunkIsAdmitted(c, q, n);
    } else {
      assert p == q;
      EndOfChain(c, p);
    }
  }
}
