// Entity selectors of the command line: `EntitySelector::parse` in `src/cli.rs` and the
// subjects that diagnostics print.
module Selector {
  import opened Wrappers
  import opened Bits
  import Decimal

  datatype Entity =
    | Volume(vol: nat)
    | Sector(vol: nat, sector: nat)
    | File(vol: nat, file: nat)
    | Page(vol: nat, page: nat)
    | Slot(vol: nat, page: nat, slot: nat)
    | Oos(vol: nat, page: nat, slot: nat)

  // Identifiers within their integer types.
  predicate InRange(e: Entity)
  {
    e.vol <= I16_MAX
    && match e
       case Volume(_) => true
       case Sector(_, sector) => sector <= I32_MAX
       case File(_, file) => file <= I32_MAX
       case Page(_, page) => page <= I32_MAX
       case Slot(_, page, slot) => page <= I32_MAX && slot <= I16_MAX
       case Oos(_, page, slot) => page <= I32_MAX && slot <= I16_MAX
  }

  function Fields(e: Entity): seq<string>
  {
    match e
    case Volume(vol) => ["volume", Decimal.Print(vol)]
    case Sector(vol, sector) => ["sector", Decimal.Print(vol), Decimal.Print(sector)]
    case File(vol, file) => ["file", Decimal.Print(vol), Decimal.Print(file)]
    case Page(vol, page) => ["page", Decimal.Print(vol), Decimal.Print(page)]
    case Slot(vol, page, slot) => ["slot", Decimal.Print(vol), Decimal.Print(page), Decimal.Print(slot)]
    case Oos(vol, page, slot) => ["oos", Decimal.Print(vol), Decimal.Print(page), Decimal.Print(slot)]
  }

  function Join(fields: seq<string>): string
  {
    if fields == [] then ""
    else if |fields| == 1 then fields[0]
    else fields[0] + ":" + Join(fields[1..])
  }

  function Print(e: Entity): string
  {
    Join(Fields(e))
  }

  function ColonFrom(s: string, i: nat): (j: nat)
    requires i <= |s|
    ensures i <= j <= |s|
    ensures forall k :: i <= k < j ==> s[k] != ':'
    ensures j < |s| ==> s[j] == ':'
    decreases |s| - i
  {
    if i == |s| || s[i] == ':' then i else ColonFrom(s, i + 1)
  }

  // `value.split(':')`.
  function Split(s: string): (fields: seq<string>)
    ensures fields != []
    decreases |s|
  {
    var j := ColonFrom(s, 0);
    if j == |s| then [s] else [s[..j]] + Split(s[j + 1..])
  }

  // `parse_vol_id`, `parse_page_id` and the other narrowing parsers: `None` is a usage error.
  function ParseUpTo(s: string, max: nat): Option<nat>
  {
    match Decimal.ParseU64(s)
    case Success(n) => if n <= max then Some(n) else None
    case Failure(_) => None
  }

  function Parse(s: string): Option<Entity>
  {
    ParseFields(Split(s))
  }

  function ParseFields(f: seq<string>): Option<Entity>
    requires f != []
  {
    if |f| == 2 && f[0] == "volume" then
      match ParseUpTo(f[1], I16_MAX)
      case None => None
      case Some(vol) => Some(Volume(vol))
    else if |f| == 3 && f[0] in ["sector", "file", "page"] then
      match (ParseUpTo(f[1], I16_MAX), ParseUpTo(f[2], I32_MAX))
      case (Some(vol), Some(id)) =>
        Some(if f[0] == "sector" then Sector(vol, id) else if f[0] == "file" then File(vol, id) else Page(vol, id))
      case _ => None
    else if |f| == 4 && f[0] in ["slot", "oos"] then
      match (ParseUpTo(f[1], I16_MAX), ParseUpTo(f[2], I32_MAX), ParseUpTo(f[3], I16_MAX))
      case (Some(vol), Some(page), Some(slot)) =>
        Some(if f[0] == "slot" then Slot(vol, page, slot) else Oos(vol, page, slot))
      case _ => None
    else None
  }

  lemma {:induction false} JoinOfSplit(s: string)
    ensures Join(Split(s)) == s
    decreases |s|
  {
    var j := ColonFrom(s, 0);
    if j < |s| {
      JoinOfSplit(s[j + 1..]);
      assert Split(s)[1..] == Split(s[j + 1..]);
      assert s == s[..j] + ":" + s[j + 1..];
    }
  }

  ghost predicate NoColons(fields: seq<string>)
  {
    forall i :: 0 <= i < |fields| ==> ':' !in fields[i]
  }

  lemma {:induction false} ColonAfter(s: string, i: nat, j: nat)
    requires i <= j <= |s| && (forall k :: i <= k < j ==> s[k] != ':') && (j < |s| ==> s[j] == ':')
    ensures ColonFrom(s, i) == j
    decreases j - i
  {
    if i < j {
      ColonAfter(s, i + 1, j);
    }
  }

  lemma FirstColon(first: string, rest: string)
    requires ':' !in first
    ensures ColonFrom(first + ":" + rest, 0) == |first|
  {
    var s := first + ":" + rest;
    forall k | 0 <= k < |first|
      ensures s[k] != ':'
    {
      assert s[k] == first[k];
    }
    ColonAfter(s, 0, |first|);
  }

  lemma {:induction false} SplitOfJoin(fields: seq<string>)
    requires fields != [] && NoColons(fields)
    ensures Split(Join(fields)) == fields
  {
    if |fields| == 1 {
      ColonAfter(fields[0], 0, |fields[0]|);
      assert fields == [fields[0]];
    } else {
      var first, rest := fields[0], Join(fields[1..]);
      SplitOfJoin(fields[1..]);
      FirstColon(first, rest);
      assert (first + ":" + rest)[..|first|] == first && (first + ":" + rest)[|first| + 1..] == rest;
      assert fields == [first] + fields[1..];
    }
  }

  lemma NumberField(s: string, n: nat, max: nat)
    requires max <= U64_MAX
    ensures ParseUpTo(s, max) == Some(n) <==> s == Decimal.Print(n) && n <= max
  {
    Decimal.ParseUndoesPrint(s, n);
  }

  lemma FieldsParse(e: Entity)
    requires InRange(e)
    ensures ParseFields(Fields(e)) == Some(e)
  {
    NumberField(Decimal.Print(e.vol), e.vol, I16_MAX);
    match e
    case Volume(_) =>
    case Sector(_, id) => NumberField(Decimal.Print(id), id, I32_MAX);
    case File(_, id) => NumberField(Decimal.Print(id), id, I32_MAX);
    case Page(_, id) => NumberField(Decimal.Print(id), id, I32_MAX);
    case Slot(_, page, slot) => RecordFieldsParse(e, page, slot);
    case Oos(_, page, slot) => RecordFieldsParse(e, page, slot);
  }

  lemma RecordFieldsParse(e: Entity, page: nat, slot: nat)
    requires InRange(e) && (e.Slot? || e.Oos?) && page == e.page && slot == e.slot
    ensures ParseFields(Fields(e)) == Some(e)
  {
    NumberField(Decimal.Print(e.vol), e.vol, I16_MAX);
    NumberField(Decimal.Print(page), page, I32_MAX);
    NumberField(Decimal.Print(slot), slot, I16_MAX);
  }

  lemma ParsedFields(f: seq<string>, e: Entity)
    requires f != [] && ParseFields(f) == Some(e)
    ensures InRange(e) && f == Fields(e)
  {
    NumberField(f[1], e.vol, I16_MAX);
    match e
    case Volume(_) =>
    case Sector(_, id) => NumberField(f[2], id, I32_MAX);
    case File(_, id) => NumberField(f[2], id, I32_MAX);
    case Page(_, id) => NumberField(f[2], id, I32_MAX);
    case Slot(_, page, slot) =>
      NumberField(f[2], page, I32_MAX);
      NumberField(f[3], slot, I16_MAX);
    case Oos(_, page, slot) =>
      NumberField(f[2], page, I32_MAX);
      NumberField(f[3], slot, I16_MAX);
  }

  lemma FieldsHaveNoColons(e: Entity)
    ensures NoColons(Fields(e))
  {
    Decimal.PrintHasNoColon(e.vol);
    match e
    case Volume(_) =>
    case Sector(_, id) => Decimal.PrintHasNoColon(id);
    case File(_, id) => Decimal.PrintHasNoColon(id);
    case Page(_, id) => Decimal.PrintHasNoColon(id);
    case Slot(_, page, slot) =>
      Decimal.PrintHasNoColon(page);
      Decimal.PrintHasNoColon(slot);
    case Oos(_, page, slot) =>
      Decimal.PrintHasNoColon(page);
      Decimal.PrintHasNoColon(slot);
  }

  // A selector parses to an entity exactly when it is that entity's printed subject and the
  // identifiers fit: parsing and printing are inverse in both directions.
  lemma ParseIffPrinted(s: string, e: Entity)
    ensures Parse(s) == Some(e) <==> s == Print(e) && InRange(e)
  {
    if Parse(s) == Some(e) {
      ParsedFields(Split(s), e);
      JoinOfSplit(s);
    }
    if s == Print(e) && InRange(e) {
      FieldsHaveNoColons(e);
      SplitOfJoin(Fields(e));
      FieldsParse(e);
    }
  }
}
