// The two ownership indexes over the revisions of a session.
module SessionIndex {
  import opened Wrappers
  import opened Bits
  import opened Pages
  import opened Claims
  import Allocation
  import Ownership
  import opened Session

  // The source does not change: a file's tables always give the same facts.
  ghost predicate Unchanging(facts: Vfid -> Facts, e: Enrichment)
  {
    && (e.FilePublished? ==> e.file.facts == facts(e.file.vfid))
    && (e.InventoryPublished? ==>
          && Ownership.DistinctVfids(e.files)
          && forall i :: 0 <= i < |e.files| ==> e.files[i].facts == facts(e.files[i].vfid))
  }

  ghost predicate IndexOk(facts: Vfid -> Facts, ix: Ownership.Index)
  {
    && Ownership.Agrees(ix) && Ownership.WellListed(ix)
    && forall f :: Ownership.FilePages(ix, f) <= facts(f).pages
  }

  function IndexOf(r: Result<SessionData, OperationError>, d: SessionData): Ownership.Index
  {
    if r.Success? then r.value.evidence.index else d.evidence.index
  }

  lemma WalksKeepIndex(d: SessionData, o: Oid, failure: Option<string>)
    ensures IndexOf(PublishOosChain(d, o, failure), d) == d.evidence.index
    ensures IndexOf(PublishOverflowChain(d, o, failure), d) == d.evidence.index
    ensures IndexOf(PublishRelocationEdge(d, o, failure), d) == d.evidence.index
  {
    OosWalkRecorded(d, o, failure);
    OverflowWalkRecorded(d, o, failure);
    RelocationRecorded(d, o, failure);
  }

  lemma PagesKeepIndex(d: SessionData, vpid: Vpid, fact: DeepPage, rule: string)
    ensures IndexOf(PublishDeepPage(d, vpid, fact), d) == d.evidence.index
    ensures IndexOf(PageDecodeFailure(d, vpid, rule), d) == d.evidence.index
  {
    CommittedContents(d, Change(WithDeepPage(d.evidence, vpid, fact), []), DeepPages, None);
  }

  lemma PassKeepsIndex(d: SessionData, pass: Pass)
    ensures IndexOf(PublishInterpretation(d, pass), d) == d.evidence.index
  {
  }

  lemma FileIndexed(d: SessionData, file: Ownership.FileFacts)
    requires !Ownership.OwnedByOther(d.evidence.index, file)
    ensures PublishFile(d, file).Success? ==>
      IndexOf(PublishFile(d, file), d) == Ownership.Published(d.evidence.index, file)
    ensures PublishFile(d, file).Failure? ==> IndexOf(PublishFile(d, file), d) == d.evidence.index
  {
  }

  lemma PublishedOk(facts: Vfid -> Facts, ix: Ownership.Index, file: Ownership.FileFacts)
    requires IndexOk(facts, ix) && !Ownership.OwnedByOther(ix, file)
    requires Allocation.FactsConsistent(file.facts) && file.facts == facts(file.vfid)
    ensures IndexOk(facts, Ownership.Published(ix, file))
  {
    Ownership.PublishAgreesIff(ix, file);
  }

  lemma FileIndex(facts: Vfid -> Facts, d: SessionData, file: Ownership.FileFacts)
    requires IndexOk(facts, d.evidence.index)
    requires Allocation.FactsConsistent(file.facts) && file.facts == facts(file.vfid)
    ensures IndexOk(facts, IndexOf(PublishFile(d, file), d))
  {
    var ix := d.evidence.index;
    if Ownership.OwnedByOther(ix, file) {
      PagesKeepIndex(d, HeaderPage(file.vfid), DeepPage(false, None), "file.table.owner_unique");
    } else {
      FileIndexed(d, file);
      PublishedOk(facts, ix, file);
    }
  }

  lemma InventoryOk(facts: Vfid -> Facts, files: seq<Ownership.FileFacts>)
    requires Ownership.DistinctVfids(files) && Ownership.PagesDisjoint(files)
    requires forall i :: 0 <= i < |files| ==>
      files[i].facts == facts(files[i].vfid) && Allocation.FactsConsistent(files[i].facts)
    ensures IndexOk(facts, Ownership.Inventory(files))
  {
    Ownership.InventoryAgrees(files);
    forall f, v | Ownership.Owns(Ownership.Inventory(files), f, v)
      ensures v in facts(f).pages
    {
      Ownership.InventoryPages(files, f, v);
    }
  }

  lemma InventoryIndex(facts: Vfid -> Facts, d: SessionData, files: seq<Ownership.FileFacts>)
    requires IndexOk(facts, d.evidence.index) && Ownership.DistinctVfids(files)
    requires forall i :: 0 <= i < |files| ==>
      files[i].facts == facts(files[i].vfid) && Allocation.FactsConsistent(files[i].facts)
    ensures IndexOk(facts, IndexOf(PublishInventory(d, files), d))
  {
    InventoryContents(d, files);
    if PublishInventory(d, files).Success? {
      InventoryOk(facts, files);
    }
  }

  lemma InventoryContents(d: SessionData, files: seq<Ownership.FileFacts>)
    ensures PublishInventory(d, files).Success? ==>
      Ownership.PagesDisjoint(files) && IndexOf(PublishInventory(d, files), d) == Ownership.Inventory(files)
    ensures PublishInventory(d, files).Failure? ==> IndexOf(PublishInventory(d, files), d) == d.evidence.index
  {
  }

  lemma EnrichedIndex(facts: Vfid -> Facts, d: SessionData, e: Enrichment)
    requires forall f :: Allocation.FactsConsistent(facts(f))
    requires IndexOk(facts, d.evidence.index) && Unchanging(facts, e)
    ensures IndexOk(facts, Enriched(d, e).evidence.index)
  {
    assert Enriched(d, e).evidence.index == IndexOf(Attempt(d, e), d);
    match e
    case OosWalked(head, failure) => WalksKeepIndex(d, head, failure);
    case OverflowWalked(source, failure) => WalksKeepIndex(d, source, failure);
    case RelocationChecked(source, failure) => WalksKeepIndex(d, source, failure);
    case PageDecoded(vpid, fact) => PagesKeepIndex(d, vpid, fact, "");
    case PageRefused(vpid, rule) => PagesKeepIndex(d, vpid, DeepPage(false, None), rule);
    case FilePublished(file) => FileIndex(facts, d, file);
    case InventoryPublished(files) => InventoryIndex(facts, d, files);
    case SourceChanged =>
    case _ => PassKeepsIndex(d, PassOf(e));
  }

  // Every revision of a session over an unchanging source, whatever was enriched in whatever
  // order, has agreeing indexes that give no file a page its tables do not.
  lemma {:induction false} EveryRevisionIndexed(facts: Vfid -> Facts, d: SessionData, run: seq<Enrichment>)
    requires forall f :: Allocation.FactsConsistent(facts(f))
    requires IndexOk(facts, d.evidence.index) && forall i :: 0 <= i < |run| ==> Unchanging(facts, run[i])
    ensures IndexOk(facts, After(d, run).evidence.index)
  {
    if run != [] {
      EveryRevisionIndexed(facts, d, run[..|run| - 1]);
      EnrichedIndex(facts, After(d, run[..|run| - 1]), run[|run| - 1]);
    }
  }

  // ---- A changing source ----

  // Whoever owns pages has its header on record.
  ghost predicate OwnersKnown(d: SessionData)
  {
    && Ownership.Agrees(d.evidence.index) && Ownership.WellListed(d.evidence.index)
    && forall f, v :: Ownership.Owns(d.evidence.index, f, v) ==> HeaderKnown(d, HeaderPage(f))
  }

  ghost predicate FactsOk(e: Enrichment)
  {
    && (e.FilePublished? ==> Allocation.FactsConsistent(e.file.facts))
    && (e.InventoryPublished? ==>
          && Ownership.DistinctVfids(e.files)
          && forall i :: 0 <= i < |e.files| ==> Allocation.FactsConsistent(e.files[i].facts))
  }

  // The enrichment does not refuse a page on record as a file header.
  predicate SparesHeaders(d: SessionData, e: Enrichment)
  {
    e.PageRefused? ==> !HeaderKnown(d, e.vpid)
  }

  // What an enrichment does to the page records: known headers stay known.
  ghost predicate HeadersKept(d: SessionData, r: SessionData)
  {
    forall v :: HeaderKnown(d, v) ==> HeaderKnown(r, v)
  }

  lemma RefusalKeepsOthers(d: SessionData, vpid: Vpid, rule: string)
    requires !HeaderKnown(d, vpid) && PageDecodeFailure(d, vpid, rule).Success?
    ensures HeadersKept(d, PageDecodeFailure(d, vpid, rule).value)
  {
    RefusedPageRecorded(d, vpid, rule);
  }

  lemma UnknownOwnsNothing(d: SessionData, f: Vfid)
    requires OwnersKnown(d) && !HeaderKnown(d, HeaderPage(f))
    ensures Ownership.FilePages(d.evidence.index, f) == {}
  {
    forall v
      ensures !Ownership.Owns(d.evidence.index, f, v)
    {
    }
    forall v | v in Ownership.FilePages(d.evidence.index, f)
      ensures Ownership.Owns(d.evidence.index, f, v)
    {
    }
  }

  lemma FirstPublication(d: SessionData, file: Ownership.FileFacts)
    requires OwnersKnown(d) && Allocation.FactsConsistent(file.facts) && !HeaderKnown(d, HeaderPage(file.vfid))
    requires PublishFile(d, file).Success? && !Ownership.OwnedByOther(d.evidence.index, file)
    ensures OwnersKnown(PublishFile(d, file).value)
  {
    var ix, r := d.evidence.index, PublishFile(d, file).value;
    UnknownOwnsNothing(d, file.vfid);
    Ownership.PublishAgreesIff(ix, file);
    FileContents(d, file);
    forall f, v | Ownership.Owns(r.evidence.index, f, v)
      ensures HeaderKnown(r, HeaderPage(f))
    {
      if f != file.vfid {
        assert v in Ownership.FilePages(Ownership.Published(ix, file), f);
        assert Ownership.Owns(ix, f, v);
      }
    }
  }

  lemma FileKnown(d: SessionData, file: Ownership.FileFacts)
    requires OwnersKnown(d) && Allocation.FactsConsistent(file.facts) && !HeaderKnown(d, HeaderPage(file.vfid))
    ensures PublishFile(d, file).Success? ==> OwnersKnown(PublishFile(d, file).value)
  {
    if PublishFile(d, file).Success? {
      if Ownership.OwnedByOther(d.evidence.index, file) {
        PagesKeepIndex(d, HeaderPage(file.vfid), DeepPage(false, None), "file.table.owner_unique");
        RefusalKeepsOthers(d, HeaderPage(file.vfid), "file.table.owner_unique");
      } else {
        FirstPublication(d, file);
      }
    }
  }

  lemma FileContents(d: SessionData, file: Ownership.FileFacts)
    requires PublishFile(d, file).Success? && !Ownership.OwnedByOther(d.evidence.index, file)
    ensures var e := PublishFile(d, file).value.evidence;
      && e.index == Ownership.Published(d.evidence.index, file)
      && e.deepPages == d.evidence.deepPages[HeaderPage(file.vfid) := DeepPage(true, None)]
  {
  }

  lemma {:induction false} HeadersInserted(m: map<Vpid, DeepPage>, files: seq<Ownership.FileFacts>, i: nat)
    requires i < |files|
    ensures HeaderPage(files[i].vfid) in InsertHeaders(m, files)
    ensures InsertHeaders(m, files)[HeaderPage(files[i].vfid)] == DeepPage(true, None)
  {
    if i < |files| - 1 {
      HeadersInserted(m, files[..|files| - 1], i);
    }
  }

  lemma InventoryKnown(d: SessionData, files: seq<Ownership.FileFacts>)
    requires Ownership.DistinctVfids(files)
    requires forall i :: 0 <= i < |files| ==> Allocation.FactsConsistent(files[i].facts)
    ensures PublishInventory(d, files).Success? ==> OwnersKnown(PublishInventory(d, files).value)
  {
    InventoryContents(d, files);
    var r := PublishInventory(d, files);
    if r.Success? {
      Ownership.InventoryAgrees(files);
      InventoryPagesOf(d, files);
      forall f, v | Ownership.Owns(r.value.evidence.index, f, v)
        ensures HeaderKnown(r.value, HeaderPage(f))
      {
        Ownership.InventoryPages(files, f, v);
        var i :| 0 <= i < |files| && files[i].vfid == f && v in files[i].facts.pages;
        HeadersInserted(d.evidence.deepPages, files, i);
      }
    }
  }

  lemma InventoryPagesOf(d: SessionData, files: seq<Ownership.FileFacts>)
    ensures PublishInventory(d, files).Success? ==>
      PublishInventory(d, files).value.evidence.deepPages == InsertHeaders(d.evidence.deepPages, files)
  {
  }

  lemma DecodedKeepsHeaders(d: SessionData, vpid: Vpid, fact: DeepPage)
    requires !AlreadyKnown(d, PageDecoded(vpid, fact)) && PublishDeepPage(d, vpid, fact).Success?
    ensures HeadersKept(d, PublishDeepPage(d, vpid, fact).value)
  {
    CommittedContents(d, Change(WithDeepPage(d.evidence, vpid, fact), []), DeepPages, None);
  }

  lemma PassKeepsPages(d: SessionData, pass: Pass)
    ensures PublishInterpretation(d, pass).Success? ==>
      PublishInterpretation(d, pass).value.evidence.deepPages == d.evidence.deepPages
  {
  }

  lemma WalkKeepsHeaders(d: SessionData, o: Oid, failure: Option<string>)
    ensures PublishOosChain(d, o, failure).Success? ==> HeadersKept(d, PublishOosChain(d, o, failure).value)
    ensures PublishOverflowChain(d, o, failure).Success? ==> HeadersKept(d, PublishOverflowChain(d, o, failure).value)
    ensures PublishRelocationEdge(d, o, failure).Success? ==> HeadersKept(d, PublishRelocationEdge(d, o, failure).value)
  {
    OosWalkRecorded(d, o, failure);
    OverflowWalkRecorded(d, o, failure);
    RelocationRecorded(d, o, failure);
    WalksKeepIndex(d, o, failure);
  }

  lemma EnrichedKnown(d: SessionData, e: Enrichment)
    requires OwnersKnown(d) && FactsOk(e) && SparesHeaders(d, e)
    ensures OwnersKnown(Enriched(d, e))
  {
    if !AlreadyKnown(d, e) && Attempt(d, e).Success? {
      match e
      case FilePublished(file) => FileKnown(d, file);
      case InventoryPublished(files) => InventoryKnown(d, files);
      case _ => OtherKnown(d, e);
    }
  }

  lemma OtherKnown(d: SessionData, e: Enrichment)
    requires OwnersKnown(d) && SparesHeaders(d, e) && !AlreadyKnown(d, e) && Attempt(d, e).Success?
    ensures !e.FilePublished? && !e.InventoryPublished? ==> OwnersKnown(Attempt(d, e).value)
  {
    match e
    case OosWalked(head, failure) =>
      WalksKeepIndex(d, head, failure);
      WalkKeepsHeaders(d, head, failure);
    case OverflowWalked(source, failure) =>
      WalksKeepIndex(d, source, failure);
      WalkKeepsHeaders(d, source, failure);
    case RelocationChecked(source, failure) =>
      WalksKeepIndex(d, source, failure);
      WalkKeepsHeaders(d, source, failure);
    case PageDecoded(vpid, fact) =>
      PagesKeepIndex(d, vpid, fact, "");
      DecodedKeepsHeaders(d, vpid, fact);
    case PageRefused(vpid, rule) =>
      PagesKeepIndex(d, vpid, DeepPage(false, None), rule);
      RefusalKeepsOthers(d, vpid, rule);
    case FilePublished(_) =>
    case InventoryPublished(_) =>
    case SourceChanged =>
    case _ =>
      PassKeepsIndex(d, PassOf(e));
      PassKeepsPages(d, PassOf(e));
  }

  // Even over a changing source, the indexes agree in every revision of a run that refuses no
  // page on record as a file header: a file is then published at most once.
  lemma {:induction false} IndexesAgreeUnlessRefused(d: SessionData, run: seq<Enrichment>)
    requires OwnersKnown(d)
    requires forall i :: 0 <= i < |run| ==> FactsOk(run[i]) && SparesHeaders(After(d, run[..i]), run[i])
    ensures OwnersKnown(After(d, run))
  {
    if run != [] {
      var front := run[..|run| - 1];
      forall i | 0 <= i < |front|
        ensures front[i] == run[i] && front[..i] == run[..i]
      {
      }
      IndexesAgreeUnlessRefused(d, front);
      assert run[..|run| - 1] == front;
      EnrichedKnown(After(d, front), run[|run| - 1]);
    }
  }

  // ---- A file published twice ----

  // One more revision over the same scan, with this index.
  predicate Indexed(d: SessionData, r: SessionData, ix: Ownership.Index)
  {
    r.evidence.index == ix && r.revision == d.revision + 1 && r.decryptedPages == d.decryptedPages
  }

  lemma CommittedScan(d: SessionData, change: Change, f: Facet, failure: Option<string>)
    requires Counted(f) && d.revision < U64_MAX
    ensures Committed(d, change, f, failure).Success?
    ensures Indexed(d, Committed(d, change, f, failure).value, change.evidence.index)
  {
  }

  lemma CommittedFilesScan(d: SessionData, change: Change, complete: bool, count: nat, total: Option<nat>,
                           reason: Option<string>)
    requires d.revision < U64_MAX
    ensures CommittedFiles(d, change, complete, count, total, reason).Success?
    ensures Indexed(d, CommittedFiles(d, change, complete, count, total, reason).value, change.evidence.index)
  {
  }

  lemma FileCommitted(d: SessionData, file: Ownership.FileFacts, change: Change)
    requires !HeaderKnown(d, HeaderPage(file.vfid)) && !Ownership.OwnedByOther(d.evidence.index, file)
    requires change == Change(
      WithDeepPage(d.evidence, HeaderPage(file.vfid), DeepPage(true, None))
        .(index := Ownership.Published(d.evidence.index, file)), [])
    ensures Attempt(d, FilePublished(file))
         == CommittedFiles(d, change, false, HeaderCount(change.evidence.deepPages), None, Some("selective-enrichment"))
  {
  }

  lemma FilePublishedContents(d: SessionData, file: Ownership.FileFacts)
    requires !HeaderKnown(d, HeaderPage(file.vfid)) && !Ownership.OwnedByOther(d.evidence.index, file)
    requires d.revision < U64_MAX
    ensures Indexed(d, Enriched(d, FilePublished(file)), Ownership.Published(d.evidence.index, file))
  {
    var change := Change(
      WithDeepPage(d.evidence, HeaderPage(file.vfid), DeepPage(true, None))
        .(index := Ownership.Published(d.evidence.index, file)), []);
    FileCommitted(d, file, change);
    CommittedFilesScan(d, change, false, HeaderCount(change.evidence.deepPages), None, Some("selective-enrichment"));
  }

  lemma HeaderRefused(d: SessionData, f: Vfid, rule: string)
    requires d.revision < U64_MAX && HeaderPage(f) in d.decryptedPages
    ensures var r := Enriched(d, PageRefused(HeaderPage(f), rule));
      Indexed(d, r, d.evidence.index) && !HeaderKnown(r, HeaderPage(f))
  {
    var vpid := HeaderPage(f);
    var e := WithDeepPage(d.evidence, vpid, DeepPage(false, Some(rule)));
    var change := Change(if d.decryptedPages[vpid] then e.(pageOverrides := e.pageOverrides + {vpid}) else e,
                         [Finding(if d.decryptedPages[vpid] then "tde.decrypted_invalid" else "page.body.invalid",
                                  Error, rule)]);
    CommittedScan(d, change, DeepPages, Some("corrupt-structure"));
    CommittedContents(d, change, DeepPages, Some("corrupt-structure"));
  }

  lemma OneMore(d: SessionData, run: seq<Enrichment>, e: Enrichment)
    ensures After(d, run + [e]) == Enriched(After(d, run), e)
  {
    assert (run + [e])[..|run|] == run;
  }

  lemma ThreeSteps(d: SessionData, a: Enrichment, b: Enrichment, c: Enrichment)
    ensures After(d, [a, b, c]) == Enriched(Enriched(Enriched(d, a), b), c)
  {
    OneMore(d, [], a);
    OneMore(d, [a], b);
    OneMore(d, [a, b], c);
    assert [] + [a] == [a] && [a] + [b] == [a, b] && [a, b] + [c] == [a, b, c];
  }

  lemma PublishedOwners(ix: Ownership.Index, first: Ownership.FileFacts, again: Ownership.FileFacts)
    requires first.vfid == again.vfid && !Ownership.OwnedByOther(ix, again)
    ensures !Ownership.OwnedByOther(Ownership.Published(ix, first), again)
  {
  }

  // The session after a publication and a refusal of the header page.
  lemma PublishedThenRefused(d: SessionData, file: Ownership.FileFacts, rule: string)
    requires OwnersKnown(d) && !HeaderKnown(d, HeaderPage(file.vfid)) && Allocation.FactsConsistent(file.facts)
    requires !Ownership.OwnedByOther(d.evidence.index, file)
    requires HeaderPage(file.vfid) in d.decryptedPages && d.revision + 2 <= U64_MAX
    ensures var r := Enriched(Enriched(d, FilePublished(file)), PageRefused(HeaderPage(file.vfid), rule));
      && r.revision == d.revision + 2 && !HeaderKnown(r, HeaderPage(file.vfid))
      && r.evidence.index == Ownership.Published(d.evidence.index, file)
      && Ownership.Agrees(r.evidence.index) && Ownership.WellListed(r.evidence.index)
      && Ownership.FilePages(r.evidence.index, file.vfid) == file.facts.pages
  {
    UnknownOwnsNothing(d, file.vfid);
    Ownership.PublishAgreesIff(d.evidence.index, file);
    FilePublishedContents(d, file);
    HeaderRefused(Enriched(d, FilePublished(file)), file.vfid, rule);
  }

  // While its source changes, a live session can come to publish a file twice: its header page is
  // refused in between.  The indexes then agree exactly if the file gave up no page.
  lemma RepublicationAgreesIff(d: SessionData, first: Ownership.FileFacts, again: Ownership.FileFacts, rule: string)
    requires OwnersKnown(d) && first.vfid == again.vfid && !HeaderKnown(d, HeaderPage(first.vfid))
    requires Allocation.FactsConsistent(first.facts) && Allocation.FactsConsistent(again.facts)
    requires !Ownership.OwnedByOther(d.evidence.index, first) && !Ownership.OwnedByOther(d.evidence.index, again)
    requires HeaderPage(first.vfid) in d.decryptedPages && d.revision + 3 <= U64_MAX
    ensures var refusal := PageRefused(HeaderPage(first.vfid), rule);
      Ownership.Agrees(After(d, [FilePublished(first), refusal, FilePublished(again)]).evidence.index) <==>
        first.facts.pages <= again.facts.pages
  {
    var published, refusal, republished :=
      FilePublished(first), PageRefused(HeaderPage(first.vfid), rule), FilePublished(again);
    PublishedThenRefused(d, first, rule);
    var refused := Enriched(Enriched(d, published), refusal);
    PublishedOwners(d.evidence.index, first, again);
    FilePublishedContents(refused, again);
    Ownership.PublishAgreesIff(refused.evidence.index, again);
    ThreeSteps(d, published, refusal, republished);
  }
}
