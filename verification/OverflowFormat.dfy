// The pinned overflow page layout: `src/format/overflow.rs`.
module OverflowFormat {
  import opened Wrappers
  import opened Bytes
  import opened Pages
  import opened OverflowChain

  const FIRST_HEADER_SIZE: nat := 12
  const CONTINUATION_HEADER_SIZE: nat := 8
  const HEAD_CAPACITY: nat := DB_PAGE_SIZE - FIRST_HEADER_SIZE
  const CONTINUATION_CAPACITY: nat := DB_PAGE_SIZE - CONTINUATION_HEADER_SIZE

  function ReadSigned(user: seq<byte>, offset: nat, size: nat): Option<int>
  {
    match Range(ByteView(user, 0), offset, size)
    case Failure(_) => None
    case Success(bytes) => Some(Signed(FromLe(bytes), size))
  }

  function OptionalVpid(user: seq<byte>, rule: string): Result<Option<Vpid>, string>
  {
    match (ReadSigned(user, 0, 4), ReadSigned(user, 4, 2))
    case (Some(page), Some(volume)) =>
      if page == -1 && volume == -1 then Success(None)
      else if page < 0 || volume < 0 then Failure(rule)
      else Success(Some(Vpid(volume, page)))
    case _ => Failure(rule)
  }

  // The link must be present exactly when payload remains.
  function Linked(next: Option<Vpid>, due: nat, capacity: nat, total: Option<nat>, offset: nat):
    Result<PageFact, string>
  {
    if next.Some? != (due > capacity) then Failure("overflow.page.link_shape")
    else Success(PageFact(next, total, offset, Min(due, capacity)))
  }

  function DecodeHead(e: Envelope): Result<PageFact, string>
  {
    if e.pageType != Overflow then Failure("overflow.page.type")
    else match OptionalVpid(e.user, "overflow.head.next")
      case Failure(rule) => Failure(rule)
      case Success(next) =>
        match ReadSigned(e.user, 8, 4)
        case None => Failure("overflow.head.length")
        case Some(length) =>
          if length <= 0 then Failure("overflow.head.length")
          else Linked(next, length, HEAD_CAPACITY, Some(length), FIRST_HEADER_SIZE)
  }

  function DecodeContinuation(e: Envelope, remaining: nat): Result<PageFact, string>
  {
    if remaining == 0 then Failure("overflow.continuation.remaining")
    else if e.pageType != Overflow then Failure("overflow.page.type")
    else match OptionalVpid(e.user, "overflow.continuation.next")
      case Failure(rule) => Failure(rule)
      case Success(next) =>
        Linked(next, remaining, CONTINUATION_CAPACITY, None, CONTINUATION_HEADER_SIZE)
  }

  // A walk that decodes pages with the pinned layout.
  ghost predicate Pinned(c: Chain)
  {
    && (forall e :: c.decodeHead(e) == DecodeHead(e))
    && (forall e, remaining :: c.decodeNext(e, remaining) == DecodeContinuation(e, remaining))
  }

  function Capacity(i: nat): nat
  {
    if i == 0 then HEAD_CAPACITY else CONTINUATION_CAPACITY
  }

  // The payload that i full pages hold.
  function FullBytes(i: nat): nat
  {
    if i == 0 then 0 else FullBytes(i - 1) + Capacity(i - 1)
  }

  lemma PinnedPage(c: Chain, p: seq<PageView>, i: nat)
    requires Pinned(c) && i < |p| && ValidAt(c, p, i)
    ensures var due := HeadTotal(c).value - Lengths(p[..i]);
      p[i].length == Min(due, Capacity(i)) && (p[i].next.Some? <==> due > Capacity(i))
  {
    var area := Content(c.disk(p[i].vpid)).value;
    var due := HeadTotal(c).value - Lengths(p[..i]);
    if i == 0 {
      assert Lengths(p[..0]) == 0;
      assert c.decodeHead(area) == DecodeHead(area);
      assert p[0].vpid == c.head;
    } else {
      assert c.decodeNext(area, due) == DecodeContinuation(area, due);
    }
  }

  // A page with a successor is full.
  lemma LinkedPageIsFull(c: Chain, p: seq<PageView>, i: nat)
    requires Pinned(c) && LinkedPrefix(c, p) && i + 1 < |p|
    ensures p[i].length == Capacity(i)
  {
    assert ValidAt(c, p, i) && ValidAt(c, p, i + 1);
    PinnedPage(c, p, i);
  }

  lemma {:induction false} FullPagesSum(c: Chain, p: seq<PageView>, i: nat)
    requires i <= |p| && forall j :: 0 <= j < i ==> p[j].length == Capacity(j)
    ensures Lengths(p[..i]) == FullBytes(i)
  {
    if i > 0 {
      FullPagesSum(c, p, i - 1);
      assert p[..i] == p[..i - 1] + [p[i - 1]];
      PrefixGrows(c, p[..i - 1], p[i - 1]);
    }
  }

  lemma PinnedPrefixIsFull(c: Chain, p: seq<PageView>, i: nat)
    requires Pinned(c) && LinkedPrefix(c, p) && i < |p|
    ensures Lengths(p[..i]) == FullBytes(i)
  {
    forall j | 0 <= j < i
      ensures p[j].length == Capacity(j)
    {
      LinkedPageIsFull(c, p, j);
    }
    FullPagesSum(c, p, i);
  }

  // With the pinned layout a page without successor always delivers the whole total, so
  // the two length failures of the walk cannot be reached.
  lemma LastPageDelivers(c: Chain, p: seq<PageView>)
    requires Pinned(c) && LinkedPrefix(c, p) && p != []
    ensures HeadTotal(c).Some?
    ensures p[|p| - 1].next.None? <==> HeadTotal(c).value == Lengths(p)
  {
    var n := |p| - 1;
    assert ValidAt(c, p, n);
    PinnedPage(c, p, n);
    DeliveredIff(HeadTotal(c).value, Lengths(p[..n]), p[n].length, Capacity(n), p[n].next.Some?);
  }

  lemma DeliveredIff(total: nat, before: nat, length: nat, capacity: nat, linked: bool)
    requires before <= total && length == Min(total - before, capacity) && (linked <==> total - before > capacity)
    ensures !linked <==> total == before + length
  {
  }

  // The announced total alone fixes the number of pages of a complete chain: every page
  // but the last is full, and the last is needed and sufficient.
  lemma ChainLengthIsDetermined(c: Chain, p: seq<PageView>)
    requires Pinned(c) && CompletePath(c, p)
    ensures FullBytes(|p| - 1) < HeadTotal(c).value <= FullBytes(|p|)
  {
    var n := |p| - 1;
    assert ValidAt(c, p, n);
    PinnedPrefixIsFull(c, p, n);
    PinnedPage(c, p, n);
    PinnedPositive(c, p, n);
  }

  lemma PinnedPositive(c: Chain, p: seq<PageView>, i: nat)
    requires Pinned(c) && i < |p| && ValidAt(c, p, i)
    ensures Lengths(p[..i]) < HeadTotal(c).value
  {
    var area := Content(c.disk(p[i].vpid)).value;
    var due := HeadTotal(c).value - Lengths(p[..i]);
    if i == 0 {
      assert Lengths(p[..0]) == 0;
      assert c.decodeHead(area) == DecodeHead(area);
      assert p[0].vpid == c.head;
    } else {
      assert c.decodeNext(area, due) == DecodeContinuation(area, due);
    }
  }
}
