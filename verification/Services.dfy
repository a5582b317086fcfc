/** The services of the server, step by step over the stores, proved against Requests. */
module Services {
  import opened Bytes
  import opened Errors
  import opened Utf8
  import opened CanonicalForm
  import opened MarkCodec
  import opened MarkChannel
  import opened Crypto
  import opened StoreContents
  import opened Stores
  import Requests
  import Attribution

  class Server {
    const metadata: MetadataRegistry
    const keys: KeyStore
    const identities: IdentityRegistry
    const blobs: BlobStore
    const primitives: Primitives

    ghost function View(): Requests.State
      reads metadata, keys, identities, blobs
    {
      Requests.State(metadata.View(), keys.View(), identities.claims, blobs.blobs)
    }

    ghost predicate Valid()
      reads metadata, keys
    {
      keys.primitives == primitives && PairsMark(metadata.View())
    }

    constructor (primitives: Primitives)
      ensures Valid() && this.primitives == primitives
      ensures fresh(metadata) && fresh(keys) && fresh(identities) && fresh(blobs)
      ensures View() == Requests.State(
                Metadata(map[], map[], map[], map[], map[]), Keys(None, map[], 0), {}, map[])
    {
      this.primitives := primitives;
      metadata := new MetadataRegistry();
      keys := new KeyStore(primitives);
      identities := new IdentityRegistry();
      blobs := new BlobStore();
    }

    method ResolveContext(context: Id, faults: Faults) returns (r: Result<Requests.Access, CoreError>)
      ensures r == Requests.ResolveContext(metadata.View(), context, faults)
    {
      var purchase := metadata.FindPurchase(context, faults);
      if purchase.Ok? {
        var publication := metadata.FindPublication(purchase.value.publicationId, faults);
        if publication.Err? {
          return Err(publication.error);
        }
        return Ok(Requests.Access(publication.value, Requests.PurchaseAccess, purchase.value.userId, context,
                                  purchase.value.purchasedAt));
      }
      if purchase.error != PurchaseNotFound {
        return Err(purchase.error);
      }
      var publication := metadata.FindPublication(context, faults);
      if publication.Err? {
        return Err(if publication.error == PublicationNotFound then purchase.error else publication.error);
      }
      return Ok(Requests.Access(publication.value, Requests.AuthorAccess, publication.value.authorId, context,
                                publication.value.publishedAt));
    }

    method ResolveAccess(user: UserId, context: Id, faults: Faults) returns (r: Result<Requests.Access, CoreError>)
      ensures r == Requests.ResolveAccess(metadata.View(), user, context, faults)
    {
      r := ResolveContext(context, faults);
      if r.Ok? && r.value.userId != user {
        return Err(NotPermitted);
      }
    }

    method Publish(author: UserId, draft: Requests.Draft, authorKey: AuthorKey, signature: Signature,
                   publishedAt: Timestamp, identifier: Id, faults: Faults)
      returns (r: Result<PublicationRecord, CoreError>)
      requires Valid()
      modifies metadata, keys, identities, blobs
      ensures Valid()
      ensures (View(), r) ==
              Requests.Publish(primitives, old(View()), author, draft, authorKey, signature, publishedAt, identifier,
                               faults)
    {
      var name := metadata.FindUser(author, faults);
      if name.Err? {
        return Err(name.error);
      }
      var inDomain := IsValidUtf8(draft.content);
      if !inDomain {
        return Err(ContentOutsideChannelDomain);
      }
      var canonical := ComputeCanonicalForm(draft.content);
      var again := ComputeCanonicalForm(canonical);
      var identity := primitives.digest(again);
      if !primitives.signed(identity, name.value, signature, authorKey) {
        return Err(SignatureInvalid);
      }
      var claimed := identities.ClaimIdentity(identity, faults);
      if claimed.Err? {
        return Err(claimed.error);
      }
      if !claimed.value {
        assert identities.claims == old(identities.claims);
        return Err(ContentDuplicate);
      }
      var sealed := keys.Seal(identity, canonical, faults);
      if sealed.Err? {
        var e := identities.Release(identity, sealed.error, faults);
        return Err(e);
      }
      var stored := blobs.Store(identity, sealed.value, faults);
      if stored.Err? {
        var e := identities.Release(identity, stored.error, faults);
        return Err(e);
      }
      if DrawIdentifier in faults {
        var e := identities.Release(identity, CryptoFailed, faults);
        return Err(e);
      }
      var record := PublicationRecord(
        identifier, author, name.value, draft.title, draft.fileName, |canonical|, publishedAt, identity,
        authorKey, SIGNATURE_ALGORITHM, signature);
      var registered := metadata.AddPublication(record, faults);
      if registered.Err? {
        var e := identities.Release(identity, registered.error, faults);
        return Err(e);
      }
      return Ok(record);
    }

    method IssueReceipt(context: Id, user: UserId, publication: PublicationRecord, grantedAt: Timestamp,
                        device: DeviceKey, issuedAt: Timestamp, faults: Faults)
      returns (r: Result<Receipt, CoreError>)
      requires Valid()
      modifies metadata, keys
      ensures Valid()
      ensures (View(), r)
              == Requests.Issue(old(View()), context, user, publication, grantedAt, device, issuedAt, faults)
    {
      var purchaseKey := keys.Generate(faults);
      if purchaseKey.Err? {
        return Err(purchaseKey.error);
      }
      var wrapped := keys.Wrap(publication.identity, purchaseKey.value, faults);
      if wrapped.Err? {
        return Err(wrapped.error);
      }
      if SealEnvelope in faults {
        return Err(CryptoFailed);
      }
      var header := Header(RECEIPT_VERSION, context, user, grantedAt, issuedAt);
      var receipt := Receipt(header, Envelope(device, header, purchaseKey.value));
      var saved := metadata.SaveReceipt(ReceiptRecord(device, wrapped.value, receipt), faults);
      if saved.Err? {
        return Err(saved.error);
      }
      return Ok(receipt);
    }

    method ReceiptFor(purchase: PurchaseRecord, device: DeviceKey, issuedAt: Timestamp, faults: Faults)
      returns (r: Result<Receipt, CoreError>)
      requires Valid()
      modifies metadata, keys
      ensures Valid()
      ensures (View(), r) == Requests.ReceiptFor(old(View()), purchase, device, issuedAt, faults)
    {
      var stored := metadata.FindReceipt(purchase.purchaseId, device, faults);
      if stored.Ok? {
        return Ok(stored.value.receipt);
      }
      if stored.error != ReceiptNotFound {
        return Err(stored.error);
      }
      var any := metadata.HasReceipt(purchase.purchaseId, faults);
      if any.Err? {
        return Err(any.error);
      }
      if any.value {
        return Err(ReceiptNotFound);
      }
      var publication := metadata.FindPublication(purchase.publicationId, faults);
      if publication.Err? {
        return Err(publication.error);
      }
      r := IssueReceipt(purchase.purchaseId, purchase.userId, publication.value, purchase.purchasedAt, device,
                        issuedAt, faults);
    }

    method Buy(user: UserId, publicationId: Id, device: DeviceKey, purchasedAt: Timestamp, identifier: Id,
               faults: Faults)
      returns (r: Result<Receipt, CoreError>)
      requires Valid()
      modifies metadata, keys
      ensures Valid()
      ensures (View(), r) == Requests.Buy(old(View()), user, publicationId, device, purchasedAt, identifier, faults)
    {
      var existing := metadata.FindPurchaseOf(user, publicationId, faults);
      if existing.Ok? {
        r := ReceiptFor(existing.value, device, purchasedAt, faults);
        return;
      }
      if existing.error != PurchaseNotFound {
        return Err(existing.error);
      }
      var publication := metadata.FindPublication(publicationId, faults);
      if publication.Err? {
        return Err(publication.error);
      }
      if publication.value.authorId == user {
        var own := metadata.FindReceipt(publicationId, device, faults);
        if own.Ok? {
          return Ok(own.value.receipt);
        }
        r := IssueReceipt(publicationId, user, publication.value, publication.value.publishedAt, device,
                          purchasedAt, faults);
        return;
      }
      if DrawIdentifier in faults {
        return Err(CryptoFailed);
      }
      var purchase := PurchaseRecord(identifier, user, publicationId, purchasedAt);
      var added := metadata.AddPurchase(purchase, faults);
      if added.Err? {
        if added.error != RecordExists {
          return Err(added.error);
        }
        var concurrent := metadata.FindPurchaseOf(user, publicationId, Later(faults));
        if concurrent.Err? {
          return Err(concurrent.error);
        }
        r := ReceiptFor(concurrent.value, device, purchasedAt, Later(faults));
        return;
      }
      r := IssueReceipt(identifier, user, publication.value, purchasedAt, device, purchasedAt, faults);
    }

    method RestoreReceipt(user: UserId, context: Id, device: DeviceKey, issuedAt: Timestamp, faults: Faults)
      returns (r: Result<Receipt, CoreError>)
      requires Valid()
      modifies metadata, keys
      ensures Valid()
      ensures (View(), r) == Requests.Restore(old(View()), user, context, device, issuedAt, faults)
    {
      var access := ResolveAccess(user, context, faults);
      if access.Err? {
        return Err(access.error);
      }
      r := IssueReceipt(access.value.contextId, user, access.value.publication, access.value.grantedAt, device,
                        issuedAt, faults);
    }

    method SealMarked(identity: Identity, stored: Sealed, mark: Mark, faults: Faults)
      returns (r: Result<Sealed, CoreError>)
      modifies keys
      ensures (keys.View(), r) == Requests.SealMarked(old(keys.View()), identity, stored, mark, faults)
    {
      var plaintext := keys.Open(identity, stored, Later(faults));
      if plaintext.Err? {
        return Err(plaintext.error);
      }
      var marked := EmbedMark(plaintext.value, mark);
      if marked.None? {
        return Ok(stored);
      }
      r := keys.Seal(identity, marked.value, Later(Later(faults)));
    }

    method MarkForPurchase(publication: PublicationRecord, stored: Sealed, context: Id, faults: Faults)
      returns (r: Result<Sealed, CoreError>)
      requires keys.primitives == primitives
      modifies keys
      ensures (keys.View(), r) ==
              Requests.MarkForPurchase(primitives, old(keys.View()), publication.identity, stored, context, faults)
    {
      var mark := keys.SealMark(publication.identity, context, faults);
      if mark.Err? {
        return Err(mark.error);
      }
      r := SealMarked(publication.identity, stored, mark.value, faults);
    }

    method FetchPackage(user: UserId, context: Id, device: DeviceKey, faults: Faults)
      returns (r: Result<Package, CoreError>)
      requires Valid()
      modifies keys
      ensures Valid()
      ensures (View(), r) == Requests.Fetch(primitives, old(View()), user, context, device, faults)
    {
      var access := ResolveAccess(user, context, faults);
      if access.Err? {
        return Err(access.error);
      }
      var receipt := metadata.FindReceipt(context, device, faults);
      if receipt.Err? {
        return Err(receipt.error);
      }
      var publication := access.value.publication;
      var stored := blobs.Load(publication.identity, faults);
      if stored.Err? {
        return Err(stored.error);
      }
      var content := MarkForPurchase(publication, stored.value, context, faults);
      if content.Err? {
        return Err(content.error);
      }
      return Ok(Package(
        PACKAGE_VERSION, content.value, receipt.value.wrappedBlobKey, publication.identity,
        publication.authorKey, publication.authorName, publication.algorithm, publication.signature));
    }

    /** The only access among those of `marks` that is authentic for this content. Each mark is looked up on its own. */
    method Match(identity: Identity, marks: seq<Mark>, faults: Faults) returns (r: Result<Requests.Access, CoreError>)
      requires Valid()
      ensures r == Attribution.Matched(primitives, View(), identity, marks, faults)
    {
      hide Attribution.Examined, Requests.ResolveContext, StoreContents.VerifyMark, Occurrence;
      var matched: Option<Requests.Access> := None;
      var resolutionError := PurchaseNotFound;
      var resolvedAny, mismatched := false, false;
      var now := faults;
      var k: nat := 0;
      Attribution.NothingExamined(primitives, View(), identity, marks, faults);
      while k < |marks|
        invariant k <= |marks| && now == Occurrence(faults, k)
        invariant Attribution.Examined(primitives, View(), identity, marks[..k], faults)
                  == Attribution.Going(matched, resolutionError, resolvedAny, mismatched)
      {
        Attribution.ExaminedStep(primitives, View(), identity, marks, k, faults);
        Attribution.StopsForGood(primitives, View(), identity, marks, k + 1, faults);
        var mark, current := marks[k], now;
        k := k + 1;
        now := Later(now);
        var access := ResolveContext(mark.purchaseId, current);
        if access.Err? {
          resolutionError := access.error;
          continue;
        }
        resolvedAny := true;
        var authentic := keys.VerifyMark(access.value.publication.identity, mark, current);
        if authentic.Err? {
          return Err(authentic.error);
        }
        if !authentic.value {
          continue;
        }
        if identity != access.value.publication.identity {
          mismatched := true;
          continue;
        }
        if matched.Some? {
          return Err(MarkNotConfident);
        }
        matched := Some(access.value);
      }
      assert marks[..k] == marks;
      if matched.None? {
        if mismatched {
          return Err(ContentMismatch);
        }
        return Err(if resolvedAny then MarkAuthenticationFailed else resolutionError);
      }
      return Ok(matched.value);
    }

    method Attribute(text: seq<byte>, faults: Faults) returns (r: Result<Attribution.Finding, CoreError>)
      requires Valid()
      ensures r == Attribution.Attribute(primitives, View(), text, faults)
    {
      var marks := ReadMarks(text);
      if marks.Err? {
        return Err(marks.error);
      }
      var canonical := ComputeCanonicalForm(text);
      var matched := Match(ContentIdentity(primitives, canonical), marks.value, faults);
      if matched.Err? {
        return Err(matched.error);
      }
      var access := matched.value;
      var name := metadata.FindUser(access.userId, faults);
      if name.Err? {
        return Err(name.error);
      }
      return Ok(Attribution.Finding(
        access.kind, access.contextId, access.userId, name.value, access.publication.publicationId,
        access.publication.title, access.grantedAt));
    }
  }
}
