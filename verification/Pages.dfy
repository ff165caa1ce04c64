// Physical identities, resource limits and the admitted reading of one page.
module Pages {
  import opened Wrappers
  import opened Bits
  import opened Bytes

  const IO_PAGE_SIZE: nat := 16_384
  const DB_PAGE_SIZE: nat := 16_344
  const SECTOR_PAGES: nat := 64

  // Identifiers are non-negative by construction (`src/model.rs`).
  datatype Vpid = Vpid(vol: nat, page: nat)
  datatype Vfid = Vfid(vol: nat, file: nat)
  datatype Oid = Oid(vol: nat, page: nat, slot: nat)

  datatype PageType =
    | UnknownPage | FileTable | Heap | VolumeHeader | VolumeBitmap
    | QueryResult | ExtensibleHash | Overflow | Oos | Area
    | Catalog | Btree | Log | DroppedFiles | VacuumData

  datatype Availability = Available | Unreadable | Unsupported | EncryptedOpaque

  datatype ResourcePolicy = ResourcePolicy(
    memoryLimit: u64,
    spillLimit: u64,
    workers: nat,
    maxChainSteps: u64,
    maxDecodedBytes: u64)

  // What the fast scan recorded about a page that exists.
  datatype PageRole = PageRole(pageType: Option<PageType>, availability: Availability)

  // A decoded page envelope: the page type and the plaintext user area.
  datatype Envelope = Envelope(pageType: PageType, user: seq<byte>)

  // What reading one page would meet, independently of any limit. `C` is the
  // content behind a decoded envelope.
  datatype Physical<+C> =
    | NoVolume
    | ReadFault
    | BadEnvelope(rule: string)
    | Plain(content: C)
    | Cipher(plaintext: Plaintext<C>)

  datatype Plaintext<+C> = NoKey | DecryptFault | Clear(envelope: Result<C, string>)

  datatype PageError = Source | Format(rule: string) | Encrypted | Decrypt | ResourceLimit

  datatype OwnedPage<+C> = OwnedPage(decrypted: bool, envelope: Result<C, string>)

  function Footprint(decrypted: bool): nat
  {
    IO_PAGE_SIZE + if decrypted then DB_PAGE_SIZE else 0
  }

  // `OwnedInspectionPage::read_admitted`: a page is read only within a resident limit,
  // and decrypted only when the limit also covers the plaintext copy.
  function ReadAdmitted<C>(page: Physical<C>, limit: nat): (r: Result<OwnedPage<C>, PageError>)
    ensures r.Success? ==> Footprint(r.value.decrypted) <= limit
    ensures r == Failure(ResourceLimit) <==>
      limit < Footprint(false) || (page.Cipher? && limit < Footprint(true))
  {
    if limit < IO_PAGE_SIZE then Failure(ResourceLimit)
    else match page
      case NoVolume => Failure(Format("page.volume.exists"))
      case ReadFault => Failure(Source)
      case BadEnvelope(rule) => Failure(Format(rule))
      case Plain(content) => Success(OwnedPage(false, Success(content)))
      case Cipher(plaintext) =>
        if limit < IO_PAGE_SIZE + DB_PAGE_SIZE then Failure(ResourceLimit)
        else match plaintext
          case NoKey => Failure(Encrypted)
          case DecryptFault => Failure(Decrypt)
          case Clear(envelope) => Success(OwnedPage(true, envelope))
  }

  // The content a page yields when no limit intervenes.
  function Content<C>(page: Physical<C>): Option<C>
  {
    match page
    case Plain(content) => Some(content)
    case Cipher(Clear(Success(content))) => Some(content)
    case _ => None
  }

  function Resident<C>(page: Physical<C>): nat
  {
    Footprint(page.Cipher?)
  }

  // Reading the page gives this content if nothing stands in the way.
  predicate Holds<C(==)>(page: Physical<C>, content: C)
  {
    page == Plain(content) || page == Cipher(Clear(Success(content)))
  }

  // The bytes a page occupies while it is read: twice a page, nearly, if it is encrypted.
  function BytesHeld<C>(page: Physical<C>): nat
  {
    if page.Cipher? then 32_728 else 16_384
  }

  lemma NothingHeld(page: Physical<Envelope>)
    ensures (forall area :: !Holds(page, area)) <==>
      !(page.Plain? || (page.Cipher? && page.plaintext.Clear? && page.plaintext.envelope.Success?))
  {
    if page.Plain? {
      assert Holds(page, page.content);
    }
    if page.Cipher? && page.plaintext.Clear? && page.plaintext.envelope.Success? {
      assert Holds(page, page.plaintext.envelope.value);
    }
  }
}
