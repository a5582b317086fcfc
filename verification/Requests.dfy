/**
 What one request makes of the contents of the stores, each request taken as a whole: publishing,
 buying, restoring a receipt, fetching a package, attributing a leaked text.
 */
module Requests {
  import opened Bytes
  import opened Errors
  import opened Utf8
  import opened CanonicalForm
  import opened MarkCodec
  import opened MarkChannel
  import opened Crypto
  import opened StoreContents

  datatype State = State(metadata: Metadata, keys: Keys, claims: set<Identity>, blobs: map<Identity, Sealed>)

  datatype Draft = Draft(title: Name, fileName: Name, content: seq<byte>)

  // ----- access -----

  datatype AccessKind = PurchaseAccess | AuthorAccess

  datatype Access = Access(
    publication: PublicationRecord, kind: AccessKind, userId: UserId, contextId: Id, grantedAt: Timestamp)

  function ResolveContext(m: Metadata, context: Id, faults: Faults): Result<Access, CoreError> {
    match FindPurchase(m, context, faults)
    case Ok(purchase) =>
      (match FindPublication(m, purchase.publicationId, faults)
       case Err(e) => Err(e)
       case Ok(publication) => Ok(Access(publication, PurchaseAccess, purchase.userId, context, purchase.purchasedAt)))
    case Err(e) =>
      if e != PurchaseNotFound then Err(e)
      else
        match FindPublication(m, context, faults)
        case Err(f) => Err(if f == PublicationNotFound then PurchaseNotFound else f)
        case Ok(publication) =>
          Ok(Access(publication, AuthorAccess, publication.authorId, context, publication.publishedAt))
  }

  function ResolveAccess(m: Metadata, user: UserId, context: Id, faults: Faults): Result<Access, CoreError> {
    match ResolveContext(m, context, faults)
    case Err(e) => Err(e)
    case Ok(access) => if access.userId != user then Err(NotPermitted) else Ok(access)
  }

  // ----- publishing -----

  /** A failed attempt gives its claim back; the error of the release wins. */
  function Withdrawn(s: State, identity: Identity, original: CoreError, faults: Faults)
    : (State, Result<PublicationRecord, CoreError>)
  {
    if ReleaseClaim in faults then (s, Err(StorageFailed))
    else (s.(claims := s.claims - {identity}), Err(original))
  }

  ghost function Publish(
    pr: Primitives, s: State, author: UserId, draft: Draft, authorKey: AuthorKey, signature: Signature,
    publishedAt: Timestamp, identifier: Id, faults: Faults): (State, Result<PublicationRecord, CoreError>)
  {
    var name := FindUser(s.metadata, author, faults);
    if name.Err? then (s, Err(name.error))
    else if !ValidText(draft.content) then (s, Err(ContentOutsideChannelDomain))
    else
      var canonical := Canonical(draft.content);
      var identity := ContentIdentity(pr, canonical);
      if !pr.signed(identity, name.value, signature, authorKey) then (s, Err(SignatureInvalid))
      else if Claim in faults then (s, Err(StorageFailed))
      else if identity in s.claims then (s, Err(ContentDuplicate))
      else
        var claimed := s.(claims := s.claims + {identity});
        var (keys, sealed) := SealText(s.keys, identity, canonical, faults);
        var keyed := claimed.(keys := keys);
        if sealed.Err? then Withdrawn(keyed, identity, sealed.error, faults)
        else if WriteBlob in faults then Withdrawn(keyed, identity, StorageFailed, faults)
        else
          var stored := keyed.(blobs := s.blobs[identity := sealed.value]);
          if DrawIdentifier in faults then Withdrawn(stored, identity, CryptoFailed, faults)
          else
            var record := PublicationRecord(
              identifier, author, name.value, draft.title, draft.fileName, |canonical|, publishedAt, identity,
              authorKey, SIGNATURE_ALGORITHM, signature);
            var (metadata, added) := AddPublication(s.metadata, record, faults);
            if added.Err? then Withdrawn(stored.(metadata := metadata), identity, added.error, faults)
            else (stored.(metadata := metadata), Ok(record))
  }

  // ----- buying -----

  function Issue(
    s: State, context: Id, user: UserId, publication: PublicationRecord, grantedAt: Timestamp,
    device: DeviceKey, issuedAt: Timestamp, faults: Faults): (State, Result<Receipt, CoreError>)
  {
    var (keys, purchaseKey) := GenerateKey(s.keys, faults);
    var drawn := s.(keys := keys);
    if purchaseKey.Err? then (drawn, Err(purchaseKey.error))
    else
      var wrapped := WrapFileKey(keys, publication.identity, purchaseKey.value, faults);
      if wrapped.Err? then (drawn, Err(wrapped.error))
      else if SealEnvelope in faults then (drawn, Err(CryptoFailed))
      else
        var header := Header(RECEIPT_VERSION, context, user, grantedAt, issuedAt);
        var receipt := Receipt(header, Envelope(device, header, purchaseKey.value));
        var (metadata, saved) := SaveReceipt(s.metadata, ReceiptRecord(device, wrapped.value, receipt), faults);
        (drawn.(metadata := metadata), if saved.Err? then Err(saved.error) else Ok(receipt))
  }

  ghost function ReceiptFor(s: State, purchase: PurchaseRecord, device: DeviceKey, issuedAt: Timestamp, faults: Faults)
    : (State, Result<Receipt, CoreError>)
  {
    var stored := FindReceipt(s.metadata, purchase.purchaseId, device, faults);
    if stored.Ok? then (s, Ok(stored.value.receipt))
    else if stored.error != ReceiptNotFound then (s, Err(stored.error))
    else
      var any := HasReceipt(s.metadata, purchase.purchaseId, faults);
      if any.Err? then (s, Err(any.error))
      else if any.value then (s, Err(ReceiptNotFound))
      else
        var publication := FindPublication(s.metadata, purchase.publicationId, faults);
        if publication.Err? then (s, Err(publication.error))
        else Issue(s, purchase.purchaseId, purchase.userId, publication.value, purchase.purchasedAt, device, issuedAt,
                   faults)
  }

  ghost function Buy(
    s: State, user: UserId, publicationId: Id, device: DeviceKey, purchasedAt: Timestamp, identifier: Id,
    faults: Faults)
    : (State, Result<Receipt, CoreError>)
  {
    var existing := FindPurchaseOf(s.metadata, user, publicationId, faults);
    if existing.Ok? then ReceiptFor(s, existing.value, device, purchasedAt, faults)
    else if existing.error != PurchaseNotFound then (s, Err(existing.error))
    else
      var publication := FindPublication(s.metadata, publicationId, faults);
      if publication.Err? then (s, Err(publication.error))
      else if publication.value.authorId == user then
        var own := FindReceipt(s.metadata, publicationId, device, faults);
        if own.Ok? then (s, Ok(own.value.receipt))
        else Issue(s, publicationId, user, publication.value, publication.value.publishedAt, device, purchasedAt,
                   faults)
      else if DrawIdentifier in faults then (s, Err(CryptoFailed))
      else
        var purchase := PurchaseRecord(identifier, user, publicationId, purchasedAt);
        var (metadata, added) := AddPurchase(s.metadata, purchase, faults);
        var after := s.(metadata := metadata);
        if added.Ok? then Issue(after, identifier, user, publication.value, purchasedAt, device, purchasedAt, faults)
        else if added.error != RecordExists then (after, Err(added.error))
        else
          var concurrent := FindPurchaseOf(metadata, user, publicationId, Later(faults));
          if concurrent.Err? then (after, Err(concurrent.error))
          else ReceiptFor(after, concurrent.value, device, purchasedAt, Later(faults))
  }

  function Restore(s: State, user: UserId, context: Id, device: DeviceKey, issuedAt: Timestamp, faults: Faults)
    : (State, Result<Receipt, CoreError>)
  {
    match ResolveAccess(s.metadata, user, context, faults)
    case Err(e) => (s, Err(e))
    case Ok(access) => Issue(s, context, user, access.publication, access.grantedAt, device, issuedAt, faults)
  }

  // ----- delivery -----

  /**
   The stored content with the mark of the context written in, or as stored when it has no channel.
   The key that sealed the mark has been loaded once before; it is loaded again to open and to seal.
   */
  ghost function SealMarked(k: Keys, identity: Identity, stored: Sealed, mark: Mark, faults: Faults)
    : (Keys, Result<Sealed, CoreError>)
  {
    var plaintext := OpenText(k, identity, stored, Later(faults));
    if plaintext.Err? then (k, Err(plaintext.error))
    else
      match Embedded(plaintext.value, mark)
      case None => (k, Ok(stored))
      case Some(marked) => SealText(k, identity, marked, Later(Later(faults)))
  }

  ghost function MarkForPurchase(pr: Primitives, k: Keys, identity: Identity, stored: Sealed, context: Id,
                                 faults: Faults)
    : (Keys, Result<Sealed, CoreError>)
  {
    match SealMark(pr, k, identity, context, faults)
    case Err(e) => (k, Err(e))
    case Ok(mark) => SealMarked(k, identity, stored, mark, faults)
  }

  ghost function Fetch(pr: Primitives, s: State, user: UserId, context: Id, device: DeviceKey, faults: Faults)
    : (State, Result<Package, CoreError>)
  {
    var access := ResolveAccess(s.metadata, user, context, faults);
    if access.Err? then (s, Err(access.error))
    else
      var receipt := FindReceipt(s.metadata, context, device, faults);
      if receipt.Err? then (s, Err(receipt.error))
      else
        var publication := access.value.publication;
        var stored := LoadBlob(s.blobs, publication.identity, faults);
        if stored.Err? then (s, Err(stored.error))
        else
          var (keys, content) := MarkForPurchase(pr, s.keys, publication.identity, stored.value, context, faults);
          (s.(keys := keys),
           if content.Err? then Err(content.error)
           else Ok(Package(PACKAGE_VERSION, content.value, receipt.value.wrappedBlobKey, publication.identity,
                           publication.authorKey, publication.authorName, publication.algorithm,
                           publication.signature)))
  }
}
