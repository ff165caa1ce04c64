// The per-volume fact store, in memory or in a range of one shared spill file:
// `SpillFile` and `PageFactStore` in `src/inspection.rs`.
module FactStore {
  import opened Wrappers
  import opened Bits
  import opened Bytes
  import opened Pages
  import opened PackedFact

  type Packed = s: seq<byte> | |s| == RECORD_SIZE witness [0, 0, 0, 0, 0, 0, 0, 0, 0, 0, 0, 0, 0, 0, 0, 0]

  function Zeros(n: nat): (s: seq<byte>)
    ensures |s| == n
  {
    seq(n, i => 0)
  }

  // A positional write: a gap before the offset reads as zeros, bytes behind it stay.
  function WriteAt(bytes: seq<byte>, offset: nat, data: seq<byte>): seq<byte>
  {
    var padded := if |bytes| < offset then bytes + Zeros(offset - |bytes|) else bytes;
    padded[..offset] + data + if offset + |data| < |padded| then padded[offset + |data|..] else []
  }

  class SpillFile {
    var bytes: seq<byte>

    constructor ()
      ensures bytes == []
    {
      bytes := [];
    }

    method Read(offset: nat) returns (r: Option<Packed>)
      ensures r.Some? <==> offset + RECORD_SIZE <= |bytes|
      ensures r.Some? ==> r.value == bytes[offset..offset + RECORD_SIZE]
    {
      if offset + RECORD_SIZE <= |bytes| {
        r := Some(bytes[offset..offset + RECORD_SIZE]);
      } else {
        r := None;
      }
    }

    method Write(offset: nat, record: Packed)
      modifies this
      ensures bytes == WriteAt(old(bytes), offset, record)
    {
      if |bytes| < offset {
        bytes := bytes + Zeros(offset - |bytes|);
      }
      var behind := if offset + |record| < |bytes| then bytes[offset + |record|..] else [];
      bytes := bytes[..offset] + record + behind;
    }
  }

  datatype StoreError = Io | InvalidRecord | Arithmetic

  // The records of a range of a file.
  function Records(bytes: seq<byte>, offset: nat, len: nat): (r: seq<Packed>)
    requires offset + len * RECORD_SIZE <= |bytes|
    ensures |r| == len
    ensures forall i :: 0 <= i < len ==>
      r[i] == bytes[offset + i * RECORD_SIZE..offset + i * RECORD_SIZE + RECORD_SIZE]
  {
    seq(len, i requires 0 <= i < len =>
      bytes[offset + i * RECORD_SIZE..offset + i * RECORD_SIZE + RECORD_SIZE])
  }

  function FactIn(contents: seq<Packed>, index: nat): Result<Option<PageFact>, StoreError>
  {
    if index >= |contents| then Success(None)
    else match Unpack(contents[index])
      case None => Failure(InvalidRecord)
      case Some(fact) => Success(Some(fact))
  }

  ghost predicate Readable(contents: seq<Packed>)
  {
    forall i :: 0 <= i < |contents| ==> Unpack(contents[i]).Some?
  }

  ghost function FactsOf(contents: seq<Packed>): (facts: seq<PageFact>)
    requires Readable(contents)
    ensures |facts| == |contents|
    ensures forall i :: 0 <= i < |facts| ==> facts[i] == Unpack(contents[i]).value
  {
    seq(|contents|, i requires 0 <= i < |contents| => Unpack(contents[i]).value)
  }

  predicate Ascending(facts: seq<PageFact>)
  {
    forall i, j :: 0 <= i < j < |facts| ==> facts[i].page < facts[j].page
  }

  // The reference lookup: the first fact about the page.
  function Find(facts: seq<PageFact>, page: PageNumber): Option<PageFact>
  {
    if facts == [] then None
    else if facts[0].page == page then Some(facts[0])
    else Find(facts[1..], page)
  }

  lemma {:induction false} FindAt(facts: seq<PageFact>, i: nat)
    requires Ascending(facts) && i < |facts|
    ensures Find(facts, facts[i].page) == Some(facts[i])
  {
    if i > 0 {
      assert facts[0].page < facts[i].page;
      FindAt(facts[1..], i - 1);
    }
  }

  lemma {:induction false} FindMissing(facts: seq<PageFact>, page: PageNumber)
    requires forall i :: 0 <= i < |facts| ==> facts[i].page != page
    ensures Find(facts, page) == None
  {
    if facts != [] {
      FindMissing(facts[1..], page);
    }
  }

  class PageFactStore {
    const file: SpillFile?
    const offset: nat
    var facts: seq<Packed>
    var len: nat

    constructor Memory()
      ensures file == null && Valid() && Contents() == []
    {
      file, offset, facts, len := null, 0, [], 0;
    }

    constructor Spilled(spill: SpillFile, start: nat)
      requires start <= |spill.bytes|
      ensures file == spill && offset == start && Valid() && Contents() == [] && len == 0
    {
      file, offset, facts, len := spill, start, [], 0;
    }

    ghost predicate Valid()
      reads this, file
    {
      file != null ==>
        && offset + len * RECORD_SIZE <= |file.bytes|
        && (len > 0 ==> offset + (len - 1) * RECORD_SIZE <= U64_MAX)
    }

    // What the store holds, whichever its representation.
    ghost function Contents(): seq<Packed>
      requires Valid()
      reads this, file
    {
      if file == null then facts else Records(file.bytes, offset, len)
    }

    method Length() returns (n: nat)
      requires Valid()
      ensures n == |Contents()|
    {
      n := if file == null then |facts| else len;
    }

    method Push(fact: PageFact) returns (error: Option<StoreError>)
      requires Valid()
      modifies this, file
      ensures file != null ==>
        (error.Some? <==> offset + old(len) * RECORD_SIZE > U64_MAX || old(len) == U64_MAX)
      ensures file == null ==> error.None?
      ensures error.None? ==> Valid() && Contents() == old(Contents()) + [Pack(fact)]
      ensures error.None? && file != null ==>
        len == old(len) + 1 && file.bytes == WriteAt(old(file.bytes), offset + old(len) * RECORD_SIZE, Pack(fact))
    {
      var packed := Pack(fact);
      if file == null {
        facts := facts + [packed];
        return None;
      }
      var position := offset + len * RECORD_SIZE;
      if position > U64_MAX || len == U64_MAX {
        return Some(Arithmetic);
      }
      WriteBeyond(file.bytes, offset, len, packed);
      file.Write(position, packed);
      len := len + 1;
      error := None;
    }

    method FactAt(index: nat) returns (r: Result<Option<PageFact>, StoreError>)
      requires Valid()
      ensures r == FactIn(Contents(), index)
    {
      var n := Length();
      if index >= n {
        return Success(None);
      }
      var packed: Packed;
      if file == null {
        packed := facts[index];
      } else {
        var record := file.Read(offset + index * RECORD_SIZE);
        packed := record.value;
      }
      var fact := Unpack(packed);
      r := if fact.None? then Failure(InvalidRecord) else Success(fact);
    }

    // `page_fact`: binary search, which on readable facts in ascending page order is the
    // linear lookup, in either representation.
    method LookUp(page: PageNumber) returns (r: Result<Option<PageFact>, StoreError>)
      requires Valid()
      ensures Readable(Contents()) && Ascending(FactsOf(Contents())) ==>
        r == Success(Find(FactsOf(Contents()), page))
    {
      ghost var all := Contents();
      var low := 0;
      var high := Length();
      while low < high
        invariant 0 <= low <= high <= |all|
        invariant Bracketed(all, page, low, high)
      {
        var middle := low + (high - low) / 2;
        var read := FactAt(middle);
        if read.Failure? {
          return Failure(read.error);
        }
        if read.value.None? {
          return Failure(InvalidRecord);
        }
        var fact := read.value.value;
        Narrow(all, page, low, high, middle, fact);
        if fact.page < page {
          low := middle + 1;
        } else if fact.page > page {
          high := middle;
        } else {
          return Success(Some(fact));
        }
      }
      Exhausted(all, page, low);
      r := Success(None);
    }
  }

  // The page, if present, lies within the bracket.
  ghost predicate Bracketed(all: seq<Packed>, page: PageNumber, low: nat, high: nat)
  {
    low <= high <= |all| && (Readable(all) && Ascending(FactsOf(all)) ==>
      && (forall i :: 0 <= i < low ==> FactsOf(all)[i].page < page)
      && (forall i :: high <= i < |all| ==> FactsOf(all)[i].page > page))
  }

  lemma Narrow(all: seq<Packed>, page: PageNumber, low: nat, high: nat, middle: nat, fact: PageFact)
    requires Bracketed(all, page, low, high) && low <= middle < high
    requires Unpack(all[middle]) == Some(fact)
    ensures fact.page < page ==> Bracketed(all, page, middle + 1, high)
    ensures fact.page > page ==> Bracketed(all, page, low, middle)
    ensures fact.page == page && Readable(all) && Ascending(FactsOf(all)) ==> Find(FactsOf(all), page) == Some(fact)
  {
    if Readable(all) && Ascending(FactsOf(all)) {
      var facts := FactsOf(all);
      assert facts[middle] == fact;
      FindAt(facts, middle);
    }
  }

  lemma Exhausted(all: seq<Packed>, page: PageNumber, at: nat)
    requires Bracketed(all, page, at, at)
    ensures Readable(all) && Ascending(FactsOf(all)) ==> Find(FactsOf(all), page) == None
  {
    if Readable(all) && Ascending(FactsOf(all)) {
      FindMissing(FactsOf(all), page);
    }
  }

  // Appending a record behind a range extends the range by exactly that record.
  lemma WriteBeyond(bytes: seq<byte>, offset: nat, len: nat, record: Packed)
    requires offset + len * RECORD_SIZE <= |bytes|
    ensures var after := WriteAt(bytes, offset + len * RECORD_SIZE, record);
      && offset + (len + 1) * RECORD_SIZE <= |after|
      && Records(after, offset, len + 1) == Records(bytes, offset, len) + [record]
  {
    var position := offset + len * RECORD_SIZE;
    var after := WriteAt(bytes, position, record);
    WriteKeepsOthers(bytes, position, record, offset, len);
    assert after[position..position + RECORD_SIZE] == record;
  }

  // A write changes no record of a range that ends before it or starts behind it: volumes
  // with disjoint ranges of one spill file never see each other's facts.
  lemma WriteKeepsOthers(bytes: seq<byte>, position: nat, record: Packed, offset: nat, len: nat)
    requires position <= |bytes| && offset + len * RECORD_SIZE <= |bytes|
    requires offset + len * RECORD_SIZE <= position || position + RECORD_SIZE <= offset
    ensures var after := WriteAt(bytes, position, record);
      && |bytes| <= |after|
      && Records(after, offset, len) == Records(bytes, offset, len)
  {
    var after := WriteAt(bytes, position, record);
    assert forall k :: 0 <= k < |bytes| && (k < position || position + RECORD_SIZE <= k) ==> after[k] == bytes[k];
    forall i | 0 <= i < len
      ensures Records(after, offset, len)[i] == Records(bytes, offset, len)[i]
    {
      var at := offset + i * RECORD_SIZE;
      assert after[at..at + RECORD_SIZE] == bytes[at..at + RECORD_SIZE];
    }
  }

  function PackAll(facts: seq<PageFact>): (r: seq<Packed>)
    ensures |r| == |facts|
    ensures forall i :: 0 <= i < |facts| ==> r[i] == Pack(facts[i])
  {
    seq(|facts|, i requires 0 <= i < |facts| => Pack(facts[i]))
  }

  // Canonical facts are read back as they were pushed.
  lemma PackedFactsReadBack(facts: seq<PageFact>)
    requires forall i :: 0 <= i < |facts| ==> Canonical(facts[i])
    ensures Readable(PackAll(facts)) && FactsOf(PackAll(facts)) == facts
  {
    forall i | 0 <= i < |facts|
      ensures Unpack(PackAll(facts)[i]) == Some(facts[i])
    {
      PackRoundTripsIffCanonical(facts[i]);
    }
  }
}
