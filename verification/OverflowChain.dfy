// The multipage-overflow walker: `walk_overflow_chain` in `src/inspection.rs`.
module OverflowChain {
  import opened Wrappers
  import opened Bytes
  import opened Pages
  import opened Walks

  // A decoded overflow page, as `OverflowPageFact`.
  datatype PageFact = PageFact(next: Option<Vpid>, total: Option<nat>, offset: nat, length: nat)

  // `OverflowPageView`: one validated page of the chain.
  datatype PageView = PageView(vpid: Vpid, head: bool, next: Option<Vpid>, offset: nat, length: nat)

  datatype Failure =
    | Interrupted | ResourceLimitHit | PageOwner | PageRoleMismatch | EncryptedPage | DecryptFailed
    | FormatRule(rule: string)

  datatype Exit = Finished | SourceFault | Stopped(total: Option<nat>, failure: Failure)

  // One call of the walker together with everything it reads.  `cancelled(n)` is the
  // cancel token as read once n pages are validated; `reserves` is the allocator's answer.
  datatype Chain = Chain(
    head: Vpid,
    owner: Vfid,
    owners: map<Vpid, Vfid>,
    roles: map<Vpid, PageRole>,
    disk: Vpid -> Physical<Envelope>,
    decodeHead: Envelope -> Result<PageFact, string>,
    decodeNext: (Envelope, nat) -> Result<PageFact, string>,
    policy: ResourcePolicy,
    decodedBefore: nat,
    capture: bool,
    reserves: bool,
    cancelled: nat -> bool)

  function Lengths(p: seq<PageView>): nat
  {
    if p == [] then 0 else Lengths(p[..|p| - 1]) + p[|p| - 1].length
  }

  function Visited(p: seq<PageView>): set<Vpid>
  {
    set i | 0 <= i < |p| :: p[i].vpid
  }

  function Decoded(c: Chain, p: seq<PageView>): nat
  {
    if p == [] then c.decodedBefore
    else Decoded(c, p[..|p| - 1]) + Resident(c.disk(p[|p| - 1].vpid))
  }

  function Slice(c: Chain, v: PageView): seq<byte>
  {
    match Content(c.disk(v.vpid))
    case Some(area) => if v.offset + v.length <= |area.user| then area.user[v.offset..v.offset + v.length] else []
    case None => []
  }

  // The captured bytes of a prefix, in chain order.
  function Payload(c: Chain, p: seq<PageView>): seq<byte>
  {
    if p == [] then [] else Payload(c, p[..|p| - 1]) + Slice(c, p[|p| - 1])
  }

  // The length announced by the head page.
  function HeadTotal(c: Chain): Option<nat>
  {
    match Content(c.disk(c.head))
    case None => None
    case Some(area) =>
      match c.decodeHead(area)
      case Success(fact) => fact.total
      case Failure(_) => None
  }

  function Retained(c: Chain, p: seq<PageView>): nat
  {
    if c.capture && p != [] && HeadTotal(c).Some? then HeadTotal(c).value else 0
  }

  function Current(c: Chain, p: seq<PageView>): Vpid
  {
    if p != [] && p[|p| - 1].next.Some? then p[|p| - 1].next.value else c.head
  }

  function ReadFailure(error: PageError): Failure
    requires error != Source
  {
    match error
    case Format(rule) => FormatRule(rule)
    case Encrypted => EncryptedPage
    case Decrypt => DecryptFailed
    case ResourceLimit => ResourceLimitHit
  }

  // `admitted_overflow_payload_capacity` followed by the reservation.
  predicate CaptureAdmitted(c: Chain, total: nat, resident: nat)
  {
    total <= c.policy.maxDecodedBytes && total + resident <= c.policy.memoryLimit && c.reserves
  }

  predicate RoleValid(c: Chain, v: Vpid)
  {
    v in c.roles && c.roles[v] == PageRole(Some(Overflow), Available)
  }

  function AnnouncedTotal(c: Chain, p: seq<PageView>): Option<nat>
  {
    if p == [] then None else HeadTotal(c)
  }

  // One turn of the loop, from the pages validated so far.
  function Judge(c: Chain, p: seq<PageView>): Verdict<PageView, Exit>
  {
    var total := AnnouncedTotal(c, p);
    if p != [] && p[|p| - 1].next.None? then
      if total == Some(Lengths(p)) then Halt(Finished)
      else Halt(Stopped(total, FormatRule("overflow.chain.complete_length")))
    else
      var current := Current(c, p);
      if c.cancelled(|p|) then Halt(Stopped(total, Interrupted))
      else if |p| >= c.policy.maxChainSteps then Halt(Stopped(total, ResourceLimitHit))
      else if current in Visited(p) then Halt(Stopped(total, FormatRule("overflow.chain.acyclic")))
      else if current !in c.owners || c.owners[current] != c.owner then Halt(Stopped(total, PageOwner))
      else if !RoleValid(c, current) then Halt(Stopped(total, PageRoleMismatch))
      else if c.policy.memoryLimit < Retained(c, p) then Halt(Stopped(total, ResourceLimitHit))
      else if c.policy.maxDecodedBytes < Decoded(c, p) then Halt(Stopped(total, ResourceLimitHit))
      else
        match ReadAdmitted(c.disk(current), Min(c.policy.memoryLimit - Retained(c, p),
                                                c.policy.maxDecodedBytes - Decoded(c, p)))
        case Failure(error) =>
          if error == Source then Halt(SourceFault) else Halt(Stopped(total, ReadFailure(error)))
        case Success(owned) =>
          match owned.envelope
          case Failure(rule) => Halt(Stopped(total, FormatRule(rule)))
          case Success(area) => JudgeArea(c, p, current, Footprint(owned.decrypted), area)
  }

  function JudgeArea(c: Chain, p: seq<PageView>, current: Vpid, resident: nat, area: Envelope):
    Verdict<PageView, Exit>
  {
    var total := AnnouncedTotal(c, p);
    var remaining := if total.Some? && Lengths(p) <= total.value then total.value - Lengths(p) else 0;
    match if p == [] then c.decodeHead(area) else c.decodeNext(area, remaining)
    case Failure(rule) => Halt(Stopped(total, FormatRule(rule)))
    case Success(fact) =>
      if p == [] && fact.total.None? then Halt(Stopped(total, FormatRule("overflow.head.total_required")))
      else
        var announced := if p == [] then fact.total else total;
        var left := if p == [] then fact.total.value else remaining;
        if p == [] && c.capture && !CaptureAdmitted(c, fact.total.value, resident) then
          Halt(Stopped(announced, ResourceLimitHit))
        else if left < fact.length then
          Halt(Stopped(announced, FormatRule("overflow.chain.complete_length")))
        else if c.capture && fact.offset + fact.length > |area.user| then
          Halt(Stopped(announced, FormatRule("overflow.chain.payload")))
        else
          Extend(PageView(current, p == [], fact.next, fact.offset, fact.length))
  }

  function Min(a: nat, b: nat): nat
  {
    if a < b then a else b
  }

  function Judging(c: Chain): seq<PageView> -> Verdict<PageView, Exit>
  {
    (p: seq<PageView>) => Judge(c, p)
  }

  // A page the chain may own: the right file, the right role and, when its bytes are
  // captured, a payload inside the page.
  predicate PageValid(c: Chain, v: PageView)
  {
    && v.vpid in c.owners && c.owners[v.vpid] == c.owner
    && RoleValid(c, v.vpid)
    && Content(c.disk(v.vpid)).Some?
    && (c.capture ==> v.offset + v.length <= |Content(c.disk(v.vpid)).value.user|)
  }

  // The page view at an address, when exactly `remaining` payload bytes are still due.
  function Decoding(c: Chain, at: Vpid, isHead: bool, remaining: nat): Option<PageView>
  {
    match Content(c.disk(at))
    case None => None
    case Some(area) =>
      match if isHead then c.decodeHead(area) else c.decodeNext(area, remaining)
      case Failure(_) => None
      case Success(fact) => Some(PageView(at, isHead, fact.next, fact.offset, fact.length))
  }

  // `OverflowTraversal`, or the propagated source error.
  datatype Traversal =
    | Faulted
    | Walked(total: Option<nat>, validated: nat, pages: seq<PageView>, payload: seq<byte>, failure: Option<Failure>)

  function Render(c: Chain, p: seq<PageView>, exit: Exit): Traversal
  {
    var payload := if c.capture then Payload(c, p) else [];
    match exit
    case SourceFault => Faulted
    case Finished => Walked(AnnouncedTotal(c, p), Lengths(p), p, payload, None)
    case Stopped(total, failure) => Walked(total, Lengths(p), p, payload, Some(failure))
  }

  ghost predicate IsWalk(c: Chain, r: Traversal)
  {
    exists p, exit :: Ends(Judging(c), p, exit) && r == Render(c, p, exit)
  }

  // ---- The loop ----

  // The state the loop carries, tied to the pages validated so far.
  ghost predicate Carried(
    c: Chain, pages: seq<PageView>, current: Vpid, visited: set<Vpid>, capacity: nat, total: Option<nat>,
    remaining: nat, decoded: nat)
  {
    && (pages != [] ==> pages[|pages| - 1].next.Some?)
    && current == Current(c, pages)
    && visited == Visited(pages)
    && capacity == Retained(c, pages)
    && total == AnnouncedTotal(c, pages)
    && (pages != [] ==> total.Some? && Lengths(pages) + remaining == total.value)
    && decoded == Decoded(c, pages)
  }

  // The checks and the decoding of one turn.
  method ExaminePage(
    c: Chain, pages: seq<PageView>, current: Vpid, visited: set<Vpid>, capacity: nat, total: Option<nat>,
    remaining: nat, decoded: nat) returns (verdict: Verdict<PageView, Exit>, area: Envelope)
    requires Carried(c, pages, current, visited, capacity, total, remaining, decoded)
    ensures verdict == Judge(c, pages)
    ensures verdict.Halt? ==> !verdict.exit.Finished?
    ensures verdict.Extend? ==> verdict.item.vpid == current && Content(c.disk(current)) == Some(area)
  {
    area := Envelope(UnknownPage, []);
    if c.cancelled(|pages|) {
      return Halt(Stopped(total, Interrupted)), area;
    }
    if |pages| >= c.policy.maxChainSteps {
      return Halt(Stopped(total, ResourceLimitHit)), area;
    }
    if current in visited {
      return Halt(Stopped(total, FormatRule("overflow.chain.acyclic"))), area;
    }
    if current !in c.owners || c.owners[current] != c.owner {
      return Halt(Stopped(total, PageOwner)), area;
    }
    if !RoleValid(c, current) {
      return Halt(Stopped(total, PageRoleMismatch)), area;
    }
    if c.policy.memoryLimit < capacity || c.policy.maxDecodedBytes < decoded {
      return Halt(Stopped(total, ResourceLimitHit)), area;
    }
    var limit := Min(c.policy.memoryLimit - capacity, c.policy.maxDecodedBytes - decoded);
    var reading := ReadAdmitted(c.disk(current), limit);
    if reading.Failure? {
      verdict := Halt(if reading.error == Source then SourceFault
                      else Stopped(total, ReadFailure(reading.error)));
      return;
    }
    if reading.value.envelope.Failure? {
      return Halt(Stopped(total, FormatRule(reading.value.envelope.error))), area;
    }
    area := reading.value.envelope.value;
    var resident := Footprint(reading.value.decrypted);
    var page := if pages == [] then c.decodeHead(area) else c.decodeNext(area, remaining);
    if page.Failure? {
      return Halt(Stopped(total, FormatRule(page.error))), area;
    }
    var fact := page.value;
    var announced, left := total, remaining;
    if pages == [] {
      if fact.total.None? {
        return Halt(Stopped(total, FormatRule("overflow.head.total_required"))), area;
      }
      announced, left := fact.total, fact.total.value;
      if c.capture && !CaptureAdmitted(c, left, resident) {
        return Halt(Stopped(announced, ResourceLimitHit)), area;
      }
    }
    if left < fact.length {
      return Halt(Stopped(announced, FormatRule("overflow.chain.complete_length"))), area;
    }
    if c.capture && fact.offset + fact.length > |area.user| {
      return Halt(Stopped(announced, FormatRule("overflow.chain.payload"))), area;
    }
    verdict := Extend(PageView(current, pages == [], fact.next, fact.offset, fact.length));
  }

  // Everything the loop carries besides the page to look at next.
  ghost predicate Gathered(
    c: Chain, pages: seq<PageView>, visited: set<Vpid>, payload: seq<byte>, capacity: nat, total: Option<nat>,
    remaining: nat, validated: nat, decoded: nat)
  {
    && Admitted(Judging(c), pages) && |pages| <= c.policy.maxChainSteps
    && visited == Visited(pages)
    && payload == (if c.capture then Payload(c, pages) else [])
    && capacity == Retained(c, pages)
    && total == AnnouncedTotal(c, pages)
    && (pages != [] ==> total.Some? && Lengths(pages) + remaining == total.value)
    && (pages != [] && c.capture ==> CaptureAdmitted(c, capacity, Resident(c.disk(c.head))))
    && validated == Lengths(pages)
    && decoded == Decoded(c, pages)
  }

  // The bookkeeping for one validated page.
  method TakePage(
    c: Chain, view: PageView, area: Envelope, pages: seq<PageView>, visited: set<Vpid>, payload: seq<byte>,
    capacity: nat, total: Option<nat>, remaining: nat, validated: nat, decoded: nat)
    returns (visited': set<Vpid>, payload': seq<byte>, capacity': nat, total': Option<nat>, remaining': nat,
             validated': nat, decoded': nat)
    requires Gathered(c, pages, visited, payload, capacity, total, remaining, validated, decoded)
    requires Judge(c, pages) == Extend(view) && Content(c.disk(view.vpid)) == Some(area)
    ensures |pages| < c.policy.maxChainSteps
    ensures Gathered(c, pages + [view], visited', payload', capacity', total', remaining', validated', decoded')
  {
    TurnTaken(c, pages, view, remaining, area);
    visited' := visited + {view.vpid};
    decoded' := decoded + Resident(c.disk(view.vpid));
    total', remaining', capacity' := total, remaining, capacity;
    if view.head {
      total' := HeadTotal(c);
      remaining' := total'.value;
      capacity' := if c.capture then remaining' else 0;
    }
    remaining' := remaining' - view.length;
    payload' := payload;
    if c.capture {
      payload' := payload + area.user[view.offset..view.offset + view.length];
    }
    validated' := validated + view.length;
  }

  method WalkOverflowChain(c: Chain) returns (r: Traversal)
    ensures IsWalk(c, r)
  {
    var current := c.head;
    var visited: set<Vpid> := {};
    var pages: seq<PageView> := [];
    var payload: seq<byte> := [];
    var capacity: nat := 0;
    var total: Option<nat> := None;
    var remaining: nat := 0;
    var validated: nat := 0;
    var decoded: nat := c.decodedBefore;
    while true
      invariant Gathered(c, pages, visited, payload, capacity, total, remaining, validated, decoded)
      invariant pages != [] ==> pages[|pages| - 1].next.Some?
      invariant current == Current(c, pages)
      decreases c.policy.maxChainSteps - |pages|
    {
      var verdict, area := ExaminePage(c, pages, current, visited, capacity, total, remaining, decoded);
      if verdict.Halt? {
        r := if verdict.exit.SourceFault? then Faulted
             else Walked(verdict.exit.total, validated, pages, payload, Some(verdict.exit.failure));
        WalkEnded(c, pages, verdict.exit, r);
        return;
      }
      var view := verdict.item;
      visited, payload, capacity, total, remaining, validated, decoded :=
        TakePage(c, view, area, pages, visited, payload, capacity, total, remaining, validated, decoded);
      pages := pages + [view];
      if view.next.None? {
        var failure := FormatRule("overflow.chain.complete_length");
        r := Walked(total, validated, pages, payload, if remaining == 0 then None else Some(failure));
        LastPageReached(c, pages, remaining, r);
        return;
      }
      current := view.next.value;
    }
  }

  lemma WalkEnded(c: Chain, p: seq<PageView>, exit: Exit, r: Traversal)
    requires Admitted(Judging(c), p) && Judge(c, p) == Halt(exit) && r == Render(c, p, exit)
    ensures IsWalk(c, r)
  {
    assert Judging(c)(p) == Judge(c, p);
    assert Ends(Judging(c), p, exit);
  }

  lemma LastPageReached(c: Chain, p: seq<PageView>, remaining: nat, r: Traversal)
    requires Admitted(Judging(c), p) && p != [] && p[|p| - 1].next.None?
    requires HeadTotal(c).Some? && HeadTotal(c).value == Lengths(p) + remaining
    requires r == Walked(HeadTotal(c), Lengths(p), p, if c.capture then Payload(c, p) else [],
                         if remaining == 0 then None else Some(FormatRule("overflow.chain.complete_length")))
    ensures IsWalk(c, r)
  {
    var failure := FormatRule("overflow.chain.complete_length");
    WalkEnded(c, p, if remaining == 0 then Finished else Stopped(HeadTotal(c), failure), r);
  }

  lemma WalkGrows(c: Chain, p: seq<PageView>, v: PageView)
    requires Admitted(Judging(c), p) && Judge(c, p) == Extend(v)
    ensures Admitted(Judging(c), p + [v])
  {
    assert Judging(c)(p) == Judge(c, p);
    AdmittedExtends(Judging(c), p, v);
  }

  // What one successful turn adds to everything the loop carries.
  lemma TurnTaken(c: Chain, p: seq<PageView>, v: PageView, remaining: nat, area: Envelope)
    requires Admitted(Judging(c), p) && Judge(c, p) == Extend(v)
    requires Content(c.disk(v.vpid)) == Some(area)
    requires p != [] ==> HeadTotal(c).Some? && HeadTotal(c).value == Lengths(p) + remaining
    requires p != [] && c.capture ==> CaptureAdmitted(c, HeadTotal(c).value, Resident(c.disk(c.head)))
    ensures var q := p + [v];
      && Admitted(Judging(c), q) && |p| < c.policy.maxChainSteps
      && v.vpid == Current(c, p) && v.head == (p == [])
      && HeadTotal(c).Some?
      && (var left := if p == [] then HeadTotal(c).value else remaining;
          v.length <= left && HeadTotal(c).value == Lengths(q) + (left - v.length))
      && Lengths(q) == Lengths(p) + v.length
      && Visited(q) == Visited(p) + {v.vpid}
      && Decoded(c, q) == Decoded(c, p) + Resident(c.disk(v.vpid))
      && (c.capture ==>
            && v.offset + v.length <= |area.user|
            && Payload(c, q) == Payload(c, p) + area.user[v.offset..v.offset + v.length]
            && CaptureAdmitted(c, HeadTotal(c).value, Resident(c.disk(c.head))))
  {
    PageAdmitted(c, p, v);
    PrefixGrows(c, p, v);
    WalkGrows(c, p, v);
  }

  // The checks before decoding, for a page that was admitted.
  lemma PageReached(c: Chain, p: seq<PageView>, v: PageView) returns (area: Envelope)
    requires Judge(c, p) == Extend(v)
    ensures !c.cancelled(|p|) && |p| < c.policy.maxChainSteps
    ensures var current := Current(c, p);
      && current !in Visited(p)
      && current in c.owners && c.owners[current] == c.owner && RoleValid(c, current)
      && Content(c.disk(current)) == Some(area)
      && Retained(c, p) + Resident(c.disk(current)) <= c.policy.memoryLimit
      && Decoded(c, p) + Resident(c.disk(current)) <= c.policy.maxDecodedBytes
      && JudgeArea(c, p, current, Resident(c.disk(current)), area) == Extend(v)
  {
    var limit := Min(c.policy.memoryLimit - Retained(c, p), c.policy.maxDecodedBytes - Decoded(c, p));
    var reading := ReadAdmitted(c.disk(Current(c, p)), limit);
    area := reading.value.envelope.value;
  }

  // What admitting one more page establishes about it.
  lemma PageAdmitted(c: Chain, p: seq<PageView>, v: PageView)
    requires Judge(c, p) == Extend(v)
    requires p == [] || (HeadTotal(c).Some? && Lengths(p) <= HeadTotal(c).value)
    requires p != [] && c.capture ==> CaptureAdmitted(c, HeadTotal(c).value, Resident(c.disk(c.head)))
    ensures v.vpid == Current(c, p) && v.vpid !in Visited(p) && v.head == (p == [])
    ensures PageValid(c, v) && ResidencyFits(c, v)
    ensures !c.cancelled(|p|) && |p| < c.policy.maxChainSteps
    ensures Decoded(c, p) + Resident(c.disk(v.vpid)) <= c.policy.maxDecodedBytes
    ensures HeadTotal(c).Some? && Lengths(p) + v.length <= HeadTotal(c).value
    ensures Decoding(c, v.vpid, p == [], HeadTotal(c).value - Lengths(p)) == Some(v)
  {
    var area := PageReached(c, p, v);
    AreaAdmitted(c, p, v, area);
  }

  lemma AreaAdmitted(c: Chain, p: seq<PageView>, v: PageView, area: Envelope)
    requires var current := Current(c, p);
      && Content(c.disk(current)) == Some(area)
      && Retained(c, p) + Resident(c.disk(current)) <= c.policy.memoryLimit
      && JudgeArea(c, p, current, Resident(c.disk(current)), area) == Extend(v)
    requires p == [] || (HeadTotal(c).Some? && Lengths(p) <= HeadTotal(c).value)
    requires p != [] && c.capture ==> CaptureAdmitted(c, HeadTotal(c).value, Resident(c.disk(c.head)))
    ensures v.vpid == Current(c, p) && v.head == (p == []) && ResidencyFits(c, v)
    ensures c.capture ==> v.offset + v.length <= |area.user|
    ensures HeadTotal(c).Some? && Lengths(p) + v.length <= HeadTotal(c).value
    ensures Decoding(c, v.vpid, p == [], HeadTotal(c).value - Lengths(p)) == Some(v)
  {
    if p == [] {
      assert Current(c, p) == c.head && Lengths(p) == 0;
    }
  }

  lemma PrefixGrows(c: Chain, p: seq<PageView>, v: PageView)
    ensures Lengths(p + [v]) == Lengths(p) + v.length
    ensures Visited(p + [v]) == Visited(p) + {v.vpid}
    ensures Decoded(c, p + [v]) == Decoded(c, p) + Resident(c.disk(v.vpid))
    ensures Payload(c, p + [v]) == Payload(c, p) + Slice(c, v)
  {
    var q := p + [v];
    assert q[..|q| - 1] == p;
    forall x | x in Visited(p) + {v.vpid}
      ensures x in Visited(q)
    {
      if x in Visited(p) {
        var i :| 0 <= i < |p| && p[i].vpid == x;
        assert q[i].vpid == x;
      } else {
        assert q[|p|].vpid == x;
      }
    }
  }

  // ---- Soundness and completeness ----

  // The i-th page of p is the page its predecessor links to, not seen before, owned by the
  // chain's file, an available overflow page, and decodes to this view with exactly the
  // payload its predecessors left due.
  ghost predicate ValidAt(c: Chain, p: seq<PageView>, i: nat)
    requires i < |p|
  {
    && (if i == 0 then p[0].vpid == c.head else p[i - 1].next == Some(p[i].vpid))
    && (forall j :: 0 <= j < i ==> p[j].vpid != p[i].vpid)
    && PageValid(c, p[i])
    && HeadTotal(c).Some? && Lengths(p[..i]) + p[i].length <= HeadTotal(c).value
    && Decoding(c, p[i].vpid, i == 0, HeadTotal(c).value - Lengths(p[..i])) == Some(p[i])
  }

  // A duplicate-free linked run of valid pages starting at the head.
  ghost predicate LinkedPrefix(c: Chain, p: seq<PageView>)
  {
    forall i :: 0 <= i < |p| ==> ValidAt(c, p, i)
  }

  // The whole chain: a linked run to a page without successor that delivers the total.
  ghost predicate CompletePath(c: Chain, p: seq<PageView>)
  {
    && p != [] && LinkedPrefix(c, p)
    && p[|p| - 1].next.None?
    && HeadTotal(c) == Some(Lengths(p))
  }

  // The policy covers every page of p.
  ghost predicate Affordable(c: Chain, p: seq<PageView>)
  {
    && |p| <= c.policy.maxChainSteps
    && (p != [] ==> Decoded(c, p) <= c.policy.maxDecodedBytes)
    && (forall i :: 0 <= i < |p| ==> !c.cancelled(i) && ResidencyFits(c, p[i]))
  }

  // Reading a page fits in memory, on top of the capture buffer when there is one.
  predicate ResidencyFits(c: Chain, v: PageView)
  {
    var resident := Resident(c.disk(v.vpid));
    && resident <= c.policy.memoryLimit
    && (c.capture ==>
          && HeadTotal(c).Some?
          && CaptureAdmitted(c, HeadTotal(c).value, Resident(c.disk(c.head)))
          && HeadTotal(c).value + resident <= c.policy.memoryLimit)
  }

  lemma {:induction false} DecodedGrows(c: Chain, p: seq<PageView>, i: nat)
    requires i < |p|
    ensures Decoded(c, p[..i]) + Resident(c.disk(p[i].vpid)) <= Decoded(c, p)
    decreases |p|
  {
    if i == |p| - 1 {
      assert p[..i] == p[..|p| - 1];
    } else {
      DecodedGrows(c, p[..|p| - 1], i);
      assert p[..|p| - 1][..i] == p[..i];
    }
  }

  // Soundness of every turn: an admitted prefix is a linked run within the budgets.
  lemma {:induction false} AdmittedIsLinked(c: Chain, p: seq<PageView>)
    requires Admitted(Judging(c), p)
    ensures LinkedPrefix(c, p) && Affordable(c, p)
    ensures p != [] ==> HeadTotal(c).Some? && Lengths(p) <= HeadTotal(c).value
    ensures p != [] && c.capture ==> CaptureAdmitted(c, HeadTotal(c).value, Resident(c.disk(c.head)))
  {
    if p != [] {
      var n := |p| - 1;
      var q := p[..n];
      forall i | 0 <= i < n
        ensures Judging(c)(q[..i]) == Extend(q[i])
      {
        assert q[..i] == p[..i];
      }
      AdmittedIsLinked(c, q);
      assert Judging(c)(q) == Judge(c, q);
      assert p == q + [p[n]];
      PageAdmitted(c, q, p[n]);
      if q != [] {
        LinkContinues(c, q, p[n]);
      }
      PrefixGrows(c, q, p[n]);
      LinkedGrows(c, q, p[n]);
      AffordableGrows(c, q, p[n]);
    }
  }

  lemma LinkContinues(c: Chain, p: seq<PageView>, v: PageView)
    requires p != [] && Judge(c, p) == Extend(v)
    ensures p[|p| - 1].next == Some(Current(c, p))
  {
  }

  lemma LinkedGrows(c: Chain, p: seq<PageView>, v: PageView)
    requires LinkedPrefix(c, p)
    requires v.vpid == Current(c, p) && v.vpid !in Visited(p)
    requires p != [] ==> p[|p| - 1].next == Some(v.vpid)
    requires PageValid(c, v)
    requires HeadTotal(c).Some? && Lengths(p) + v.length <= HeadTotal(c).value
    requires Decoding(c, v.vpid, p == [], HeadTotal(c).value - Lengths(p)) == Some(v)
    ensures LinkedPrefix(c, p + [v])
  {
    LastIsValid(c, p, v);
    forall i | 0 <= i < |p|
      ensures ValidAt(c, p + [v], i)
    {
      ValidAtExtends(c, p, v, i);
    }
  }

  lemma AffordableGrows(c: Chain, p: seq<PageView>, v: PageView)
    requires Affordable(c, p) && ResidencyFits(c, v)
    requires !c.cancelled(|p|) && |p| < c.policy.maxChainSteps
    requires Decoded(c, p) + Resident(c.disk(v.vpid)) <= c.policy.maxDecodedBytes
    ensures Affordable(c, p + [v])
  {
    PrefixGrows(c, p, v);
    forall i | 0 <= i < |p| + 1
      ensures !c.cancelled(i) && ResidencyFits(c, (p + [v])[i])
    {
      assert (p + [v])[i] == if i < |p| then p[i] else v;
    }
  }

  lemma LastIsValid(c: Chain, p: seq<PageView>, v: PageView)
    requires v.vpid == Current(c, p) && v.vpid !in Visited(p)
    requires p != [] ==> p[|p| - 1].next == Some(v.vpid)
    requires PageValid(c, v)
    requires HeadTotal(c).Some? && Lengths(p) + v.length <= HeadTotal(c).value
    requires Decoding(c, v.vpid, p == [], HeadTotal(c).value - Lengths(p)) == Some(v)
    ensures ValidAt(c, p + [v], |p|)
  {
    var q, n := p + [v], |p|;
    assert q[..n] == p;
    assert forall j :: 0 <= j < n ==> p[j].vpid in Visited(p);
    var first := p == [];
    assert first == (n == 0);
    assert Decoding(c, q[n].vpid, first, HeadTotal(c).value - Lengths(q[..n])) == Some(q[n]);
  }

  lemma ValidAtExtends(c: Chain, p: seq<PageView>, v: PageView, i: nat)
    requires i < |p| && ValidAt(c, p, i)
    ensures ValidAt(c, p + [v], i)
  {
    assert (p + [v])[..i] == p[..i];
  }

  // Completeness of every turn: the next page of an affordable linked run is admitted.
  lemma LinkedIsAdmitted(c: Chain, p: seq<PageView>, i: nat)
    requires i < |p| && LinkedPrefix(c, p) && Affordable(c, p)
    ensures Judge(c, p[..i]) == Extend(p[i])
  {
    var q, v := p[..i], p[i];
    assert ValidAt(c, p, i);
    DecodedGrows(c, p, i);
    assert v.vpid == Current(c, q);
    assert v.vpid !in Visited(q);
    var area := Content(c.disk(v.vpid)).value;
    assert Decoding(c, v.vpid, i == 0, HeadTotal(c).value - Lengths(q)) == Some(v);
    var limit := Min(c.policy.memoryLimit - Retained(c, q), c.policy.maxDecodedBytes - Decoded(c, q));
    assert ReadAdmitted(c.disk(v.vpid), limit) == Success(OwnedPage(c.disk(v.vpid).Cipher?, Success(area)));
    AreaIsAdmitted(c, p, i, area);
  }

  lemma AreaIsAdmitted(c: Chain, p: seq<PageView>, i: nat, area: Envelope)
    requires i < |p| && ValidAt(c, p, i) && ResidencyFits(c, p[i])
    requires Content(c.disk(p[i].vpid)) == Some(area)
    ensures JudgeArea(c, p[..i], p[i].vpid, Resident(c.disk(p[i].vpid)), area) == Extend(p[i])
  {
    var q := p[..i];
    if i == 0 {
      assert q == [] && Lengths(q) == 0;
    } else {
      assert AnnouncedTotal(c, q) == HeadTotal(c);
    }
  }

  lemma FinishedIsComplete(c: Chain, p: seq<PageView>)
    ensures Ends(Judging(c), p, Finished) <==> CompletePath(c, p) && Affordable(c, p)
  {
    assert Judging(c)(p) == Judge(c, p);
    if Ends(Judging(c), p, Finished) {
      AdmittedIsLinked(c, p);
      FinishedOnLastPage(c, p);
    }
    if CompletePath(c, p) && Affordable(c, p) {
      forall i | 0 <= i < |p|
        ensures Judging(c)(p[..i]) == Extend(p[i])
      {
        LinkedIsAdmitted(c, p, i);
      }
    }
  }

  lemma FinishedOnLastPage(c: Chain, p: seq<PageView>)
    ensures Judge(c, p) == Halt(Finished) <==>
      p != [] && p[|p| - 1].next.None? && HeadTotal(c) == Some(Lengths(p))
  {
  }

  // The walk reports no failure exactly when the pointers reachable from the head form a
  // complete path that the policy can afford; that path is then what it returns.
  lemma WalkSucceedsIffComplete(c: Chain, r: Traversal)
    requires IsWalk(c, r)
    ensures (r.Walked? && r.failure.None?) <==> exists p :: CompletePath(c, p) && Affordable(c, p)
    ensures forall p :: CompletePath(c, p) && Affordable(c, p) ==>
      r == Walked(HeadTotal(c), Lengths(p), p, if c.capture then Payload(c, p) else [], None)
  {
    var p, exit :| Ends(Judging(c), p, exit) && r == Render(c, p, exit);
    FinishedIsComplete(c, p);
    forall q | CompletePath(c, q) && Affordable(c, q)
      ensures q == p && exit == Finished
    {
      FinishedIsComplete(c, q);
      EndsUnique(Judging(c), p, exit, q, Finished);
    }
  }

  // Every exit, with or without failure, publishes a linked distinct prefix within the
  // budgets, whose payload sum is reported and never passes the announced total.
  lemma WalkExitIsSound(c: Chain, r: Traversal)
    requires IsWalk(c, r) && r.Walked?
    ensures LinkedPrefix(c, r.pages) && Affordable(c, r.pages)
    ensures r.validated == Lengths(r.pages)
    ensures r.pages != [] ==> r.total == HeadTotal(c) && r.total.Some? && r.validated <= r.total.value
    ensures |r.payload| == if c.capture then r.validated else 0
    ensures r.failure.None? ==> r.total == Some(r.validated)
  {
    var p, exit :| Ends(Judging(c), p, exit) && r == Render(c, p, exit);
    assert Judging(c)(p) == Judge(c, p);
    AdmittedIsLinked(c, p);
    if c.capture {
      PayloadSize(c, p, p);
    }
    if p != [] {
      StoppedTotal(c, p, exit);
    }
    FinishedOnLastPage(c, p);
  }

  lemma StoppedTotal(c: Chain, p: seq<PageView>, exit: Exit)
    requires p != [] && Judge(c, p) == Halt(exit)
    ensures exit.Stopped? ==> exit.total == HeadTotal(c)
  {
  }

  lemma {:induction false} PayloadSize(c: Chain, p: seq<PageView>, whole: seq<PageView>)
    requires p <= whole && LinkedPrefix(c, whole) && c.capture
    ensures |Payload(c, p)| == Lengths(p)
  {
    if p != [] {
      PayloadSize(c, p[..|p| - 1], whole);
      assert ValidAt(c, whole, |p| - 1);
    }
  }

  // ---- Failures that no budget can mend ----

  predicate IsResource(exit: Exit)
  {
    exit.Stopped? && (exit.failure == ResourceLimitHit || exit.failure == Interrupted)
  }

  // At a valid page the walk continues unless a budget or the cancel token stops it.
  lemma ValidPageStopsOnlyOnResources(c: Chain, q: seq<PageView>, i: nat)
    requires i < |q| && ValidAt(c, q, i)
    ensures Judge(c, q[..i]) == Extend(q[i]) || (Judge(c, q[..i]).Halt? && IsResource(Judge(c, q[..i]).exit))
  {
    var p, v := q[..i], q[i];
    assert v.vpid == Current(c, p) && v.vpid !in Visited(p);
    var area := Content(c.disk(v.vpid)).value;
    if c.policy.memoryLimit >= Retained(c, p) && c.policy.maxDecodedBytes >= Decoded(c, p) {
      var limit := Min(c.policy.memoryLimit - Retained(c, p), c.policy.maxDecodedBytes - Decoded(c, p));
      var reading := ReadAdmitted(c.disk(v.vpid), limit);
      if reading.Success? {
        assert reading.value.envelope == Success(area);
        ValidAreaStopsOnlyOnResources(c, q, i, Footprint(reading.value.decrypted), area);
      }
    }
  }

  lemma ValidAreaStopsOnlyOnResources(c: Chain, q: seq<PageView>, i: nat, resident: nat, area: Envelope)
    requires i < |q| && ValidAt(c, q, i) && Content(c.disk(q[i].vpid)) == Some(area)
    ensures var verdict := JudgeArea(c, q[..i], q[i].vpid, resident, area);
      verdict == Extend(q[i]) || (verdict.Halt? && IsResource(verdict.exit))
  {
    if i == 0 {
      assert q[..i] == [] && Lengths(q[..i]) == 0;
    } else {
      assert AnnouncedTotal(c, q[..i]) == HeadTotal(c);
    }
  }

  // Linked runs never diverge: the pointers determine the chain.
  lemma {:induction false} LinkedRunsAgree(c: Chain, p: seq<PageView>, q: seq<PageView>, n: nat)
    requires LinkedPrefix(c, p) && LinkedPrefix(c, q) && n <= |p| && n <= |q|
    ensures p[..n] == q[..n]
  {
    if n > 0 {
      LinkedRunsAgree(c, p, q, n - 1);
      assert ValidAt(c, p, n - 1) && ValidAt(c, q, n - 1);
      if n > 1 {
        assert p[n - 2] == p[..n - 1][n - 2] == q[..n - 1][n - 2] == q[n - 2];
      }
      assert p[n - 1] == q[n - 1];
      assert p[..n] == p[..n - 1] + [p[n - 1]];
      assert q[..n] == q[..n - 1] + [q[n - 1]];
    }
  }

  lemma LinksOnward(c: Chain, p: seq<PageView>)
    requires LinkedPrefix(c, p)
    ensures forall i :: 0 <= i < |p| - 1 ==> p[i].next.Some?
  {
    forall i | 0 <= i < |p| - 1
      ensures p[i].next.Some?
    {
      assert ValidAt(c, p, i + 1);
    }
  }

  // A linked run cannot outgrow a complete path.
  lemma CompletePathIsLongest(c: Chain, p: seq<PageView>, q: seq<PageView>)
    requires LinkedPrefix(c, p) && CompletePath(c, q)
    ensures |p| <= |q| && p == q[..|p|]
  {
    var n := if |p| < |q| then |p| else |q|;
    LinkedRunsAgree(c, p, q, n);
    var last := |q| - 1;
    if n == |q| {
      assert p[last] == p[..n][last] == q[..n][last] == q[last];
    }
    LinksOnward(c, p);
    assert p[..|p|] == p;
  }

  lemma CompletePathStopsOnlyOnResources(c: Chain, p: seq<PageView>, q: seq<PageView>, exit: Exit)
    requires LinkedPrefix(c, p) && Judge(c, p) == Halt(exit) && CompletePath(c, q)
    ensures exit == Finished || IsResource(exit)
  {
    CompletePathIsLongest(c, p, q);
    if |p| < |q| {
      assert ValidAt(c, q, |p|);
      ValidPageStopsOnlyOnResources(c, q, |p|);
    } else {
      assert p == q;
      FinishedOnLastPage(c, p);
    }
  }

  // A structural failure (or a source fault) is a fact about the chain, not about the
  // budget: no complete path from this head exists at all.
  lemma StructuralFailureIsFinal(c: Chain, r: Traversal)
    requires IsWalk(c, r)
    requires r.Faulted? || (r.failure.Some? && r.failure.value !in {ResourceLimitHit, Interrupted})
    ensures forall q :: !CompletePath(c, q)
  {
    var p, exit :| Ends(Judging(c), p, exit) && r == Render(c, p, exit);
    assert Judging(c)(p) == Judge(c, p);
    AdmittedIsLinked(c, p);
    forall q
      ensures !CompletePath(c, q)
    {
      if CompletePath(c, q) {
        CompletePathStopsOnlyOnResources(c, p, q, exit);
      }
    }
  }
}
