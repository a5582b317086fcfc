/**
 What each request answers and what it leaves behind, read off the stores alone: which condition
 comes first decides the error, and when none holds the reply and every change are given in full.
 */
module Answers {
  import opened Bytes
  import opened Errors
  import opened Utf8
  import opened CanonicalForm
  import opened MarkCodec
  import opened MarkChannel
  import opened Crypto
  import opened StoreContents
  import opened Requests
  import opened EndToEnd

  // ----- opening -----

  /** The first thing wrong with a package for the holder of a key. */
  function PackageError(pr: Primitives, p: Package, key: Key): Option<CoreError> {
    if p.version != 1 then Some(PackageVersionUnsupported)
    else if p.algorithm != 1 then Some(AlgorithmUnsupported)
    else if p.wrappedBlobKey.key != key || p.wrappedBlobKey.bound != p.identity then Some(AuthenticationFailed)
    else if !p.wrappedBlobKey.plain.KeyBytes? then Some(KeySizeMismatch)
    else if p.content.key != p.wrappedBlobKey.plain.key || p.content.bound != p.identity then Some(AuthenticationFailed)
    else if !p.content.plain.Text? then Some(ContentMismatch)
    else if pr.digest(Canonical(p.content.plain.bytes)) != p.identity then Some(ContentMismatch)
    else if !pr.signed(p.identity, p.authorName, p.signature, p.authorKey) then Some(SignatureInvalid)
    else None
  }

  /**
   Of any package, made by the server or not: a text comes out if and only if version and algorithm
   are the supported ones, the key opens the file key and the file key the text, both bound to the identity
   of the package, the text has that identity, and the author's signature on it holds.
   */
  lemma OpensIff(pr: Primitives, p: Package, key: Key, text: seq<byte>)
    ensures OpenPackage(pr, p, key) == Ok(text) <==>
              && p.version == 1 && p.algorithm == 1
              && (exists fileKey ::
                    && p.wrappedBlobKey == Sealed(key, p.identity, KeyBytes(fileKey))
                    && p.content == Sealed(fileKey, p.identity, Text(text)))
              && pr.digest(Canonical(text)) == p.identity
              && pr.signed(p.identity, p.authorName, p.signature, p.authorKey)
  {
    hide Canonical;
    if OpenPackage(pr, p, key) == Ok(text) {
      var fileKey := p.wrappedBlobKey.plain.key;
      assert p.wrappedBlobKey == Sealed(key, p.identity, KeyBytes(fileKey));
    }
  }

  /** And otherwise the first thing wrong is answered. */
  lemma OpeningFails(pr: Primitives, p: Package, key: Key)
    ensures match PackageError(pr, p, key)
            case Some(e) => OpenPackage(pr, p, key) == Err(e)
            case None => OpenPackage(pr, p, key).Ok?
  {
    hide Canonical;
  }

  /** A receipt gives its key to its device alone, and only with the header it was sealed with. */
  lemma ReceiptOpensIff(pr: Primitives, receipt: Receipt, device: DevicePrivateKey, key: Key)
    ensures OpenReceiptKey(pr, receipt, device) == Ok(key) <==>
              receipt.header.version == 1 && receipt.wrappedKey == Envelope(pr.publicOf(device), receipt.header, key)
    ensures OpenReceiptKey(pr, receipt, device).Err? ==>
              OpenReceiptKey(pr, receipt, device).error ==
              if receipt.header.version != 1 then ReceiptVersionUnsupported else AuthenticationFailed
  {
  }

  // ----- access -----

  /** Why a user does not get the access of a context. */
  function AccessError(m: Metadata, user: UserId, context: Id, f: Faults): Option<CoreError> {
    if ReadPurchase in f || ReadPublication in f then Some(StorageFailed)
    else if context !in m.purchases && context !in m.publications then Some(PurchaseNotFound)
    else if OwnerOf(m, context) != user then Some(NotPermitted)
    else None
  }

  /** The buyer of a purchase, or the author of a publication. */
  function OwnerOf(m: Metadata, context: Id): UserId
    requires context in m.purchases || context in m.publications
  {
    if context in m.purchases then m.purchases[context].userId else m.publications[context].authorId
  }

  function GrantedAt(m: Metadata, context: Id): Timestamp
    requires context in m.purchases || context in m.publications
  {
    if context in m.purchases then m.purchases[context].purchasedAt else m.publications[context].publishedAt
  }

  /** The access of a context, field by field. */
  predicate IsAccess(m: Metadata, context: Id, a: Access) {
    && IsContext(m, context)
    && a.contextId == context && a.userId == OwnerOf(m, context) && a.grantedAt == GrantedAt(m, context)
    && a.publication == m.publications[PublicationOf(m, context)]
    && (a.kind == PurchaseAccess <==> context in m.purchases)
  }

  /** A context is found exactly when it is recorded and neither lookup fails. */
  lemma ContextAnswers(m: Metadata, context: Id, f: Faults)
    requires PurchasesSound(m)
    ensures var r := ResolveContext(m, context, f);
            if ReadPurchase in f || ReadPublication in f then r == Err(StorageFailed)
            else if context !in m.purchases && context !in m.publications then r == Err(PurchaseNotFound)
            else r.Ok? && IsAccess(m, context, r.value)
  {
    hide PairsMark;
  }

  lemma AccessAnswers(m: Metadata, user: UserId, context: Id, f: Faults)
    requires PurchasesSound(m)
    ensures var r := ResolveAccess(m, user, context, f);
            match AccessError(m, user, context, f)
            case Some(e) => r == Err(e)
            case None => r.Ok? && IsAccess(m, context, r.value)
  {
    hide PurchasesSound, ResolveContext;
    ContextAnswers(m, context, f);
  }

  // ----- publishing -----

  /** Why a draft is refused before its content is claimed. */
  ghost function DraftError(pr: Primitives, s: State, e: Event): Option<CoreError>
    requires e.Publication?
  {
    var users, identity := s.metadata.users, pr.digest(Canonical(e.draft.content));
    if ReadUser in e.faults then Some(StorageFailed)
    else if e.author !in users then Some(UserNotFound)
    else if !ValidText(e.draft.content) then Some(ContentOutsideChannelDomain)
    else if !pr.signed(identity, users[e.author], e.signature, e.authorKey) then Some(SignatureInvalid)
    else if Claim in e.faults then Some(StorageFailed)
    else if identity in s.claims then Some(ContentDuplicate)
    else None
  }

  /** Why no file key is there for an identity and none can be made. */
  function FileKeyError(k: Keys, identity: Identity, f: Faults): Option<CoreError> {
    if ReadMaster in f || (k.master.Some? && ReadFileKey in f) then Some(StorageFailed)
    else if k.master.Some? && identity in k.fileKeys then None
    else if FindMaster in f then Some(StorageFailed)
    else if k.master.None? && ListFileKeys in f then Some(StorageFailed)
    else if k.master.None? && k.fileKeys != map[] then Some(KeyNotFound)
    else if OpenMaster in f then Some(StorageFailed)
    else if k.master.None? && DrawKey in f then Some(CryptoFailed)
    else if k.master.None? && WriteMaster in f then Some(StorageFailed)
    else if Again(DrawKey) in f || SealKey in f then Some(CryptoFailed)
    else if WriteFileKey in f then Some(StorageFailed)
    else None
  }

  /** Why claimed content is not recorded. */
  function WritingError(k: Keys, identity: Identity, f: Faults): Option<CoreError> {
    if FileKeyError(k, identity, f).Some? then FileKeyError(k, identity, f)
    else if SealContent in f then Some(CryptoFailed)
    else if WriteBlob in f then Some(StorageFailed)
    else if DrawIdentifier in f then Some(CryptoFailed)
    else if WritePublication in f then Some(StorageFailed)
    else None
  }

  /** A file key is found, or made for this identity alone; a master key is made only in an empty key store. */
  lemma FileKeyAnswers(k: Keys, identity: Identity, f: Faults)
    requires KeysSound(k)
    ensures var (after, r) := ObtainFileKey(k, identity, f);
            && (k.master.Some? ==> after.master == k.master)
            && match FileKeyError(k, identity, f)
               case Some(e) => r == Err(e) && after.fileKeys == k.fileKeys
               case None =>
                 && r.Ok? && after.master.Some? && HasFileKey(after, identity) && FileKey(after, identity) == r.value
                 && after.fileKeys ==
                    if identity in k.fileKeys then k.fileKeys
                    else k.fileKeys[identity := Sealed(after.master.value, identity, KeyBytes(r.value))]
  {
  }

  /** The record of a publication, field by field. */
  function RecordOf(pr: Primitives, s: State, e: Event): PublicationRecord
    requires e.Publication? && e.author in s.metadata.users
  {
    var canonical := Canonical(e.draft.content);
    PublicationRecord(e.identifier, e.author, s.metadata.users[e.author], e.draft.title, e.draft.fileName, |canonical|,
                      e.at, pr.digest(canonical), e.authorKey, 1, e.signature)
  }

  lemma PublishRefused(pr: Primitives, s: State, e: Event)
    requires e.Publication? && DraftError(pr, s, e).Some?
    ensures Publish(pr, s, e.author, e.draft, e.authorKey, e.signature, e.at, e.identifier, e.faults)
            == (s, Err(DraftError(pr, s, e).value))
  {
    if ValidText(e.draft.content) {
      CanonicalIsStable(e.draft.content);
    }
    hide ValidText, Canonical, SealText;
  }

  /** Sealing under the file key, made when it is not there. */
  lemma SealAnswers(k: Keys, identity: Identity, text: seq<byte>, f: Faults)
    requires KeysSound(k)
    ensures SealText(k, identity, text, f).0 == ObtainFileKey(k, identity, f).0
    ensures var (after, r) := SealText(k, identity, text, f);
            if FileKeyError(k, identity, f).Some? then r == Err(FileKeyError(k, identity, f).value)
            else if SealContent in f then r == Err(CryptoFailed)
            else HasFileKey(after, identity) && r == Ok(Sealed(FileKey(after, identity), identity, Text(text)))
  {
    hide ObtainFileKey, FileKeyError, KeysSound;
    FileKeyAnswers(k, identity, f);
  }

  /** What claimed content comes to: an error after which the claim is given back, or a record. */
  ghost predicate Written(pr: Primitives, s: State, e: Event, after: State, r: Result<PublicationRecord, CoreError>)
    requires e.Publication? && e.author in s.metadata.users
  {
    var canonical := Canonical(e.draft.content);
    var identity := pr.digest(canonical);
    && after.keys == ObtainFileKey(s.keys, identity, e.faults).0
    && match WritingError(s.keys, identity, e.faults)
       case Some(error) =>
         && r == Err(if ReleaseClaim in e.faults then StorageFailed else error)
         && after.metadata == s.metadata
         && after.claims == (if ReleaseClaim in e.faults then s.claims + {identity} else s.claims)
         && forall i | i in s.blobs && i != identity :: i in after.blobs && after.blobs[i] == s.blobs[i]
       case None =>
         && r == Ok(RecordOf(pr, s, e))
         && after.metadata == s.metadata.(publications := s.metadata.publications[e.identifier := RecordOf(pr, s, e)])
         && after.claims == s.claims + {identity}
         && HasFileKey(after.keys, identity)
         && after.blobs == s.blobs[identity := Sealed(FileKey(after.keys, identity), identity, Text(canonical))]
  }

  lemma SealedFor(pr: Primitives, s: State, e: Event)
    requires KeysSound(s.keys) && e.Publication? && ValidText(e.draft.content)
    ensures var canonical := Canonical(e.draft.content);
            var identity := pr.digest(canonical);
            var (keys, r) := SealText(s.keys, identity, canonical, e.faults);
            && ContentIdentity(pr, canonical) == identity && keys == ObtainFileKey(s.keys, identity, e.faults).0
            && if FileKeyError(s.keys, identity, e.faults).Some? then
                 r == Err(FileKeyError(s.keys, identity, e.faults).value)
               else if SealContent in e.faults then r == Err(CryptoFailed)
               else HasFileKey(keys, identity) && r == Ok(Sealed(FileKey(keys, identity), identity, Text(canonical)))
  {
    CanonicalIsStable(e.draft.content);
    var canonical := Canonical(e.draft.content);
    SealAnswers(s.keys, pr.digest(canonical), canonical, e.faults);
    hide SealText, ObtainFileKey, FileKeyError, KeysSound;
  }

  lemma PublishFails(pr: Primitives, s: State, e: Event)
    requires KeysSound(s.keys) && e.Publication? && e.identifier !in s.metadata.publications
    requires DraftError(pr, s, e).None?
    requires WritingError(s.keys, pr.digest(Canonical(e.draft.content)), e.faults).Some?
    ensures var (after, r) := Publish(pr, s, e.author, e.draft, e.authorKey, e.signature, e.at, e.identifier, e.faults);
            Written(pr, s, e, after, r)
  {
    SealedFor(pr, s, e);
    hide ValidText, Canonical, ContentIdentity, SealText, ObtainFileKey, FileKeyError, KeysSound, RecordOf;
  }

  lemma PublishRecords(pr: Primitives, s: State, e: Event)
    requires KeysSound(s.keys) && e.Publication? && e.identifier !in s.metadata.publications
    requires DraftError(pr, s, e).None?
    requires WritingError(s.keys, pr.digest(Canonical(e.draft.content)), e.faults).None?
    ensures var (after, r) := Publish(pr, s, e.author, e.draft, e.authorKey, e.signature, e.at, e.identifier, e.faults);
            Written(pr, s, e, after, r)
  {
    SealedFor(pr, s, e);
    hide ValidText, Canonical, ContentIdentity, SealText, ObtainFileKey, FileKeyError, KeysSound, Withdrawn;
  }

  /**
   What publishing comes to. A draft refused before its claim changes nothing. After the claim the first
   failure is answered and the claim given back, unless giving it back fails, which is answered instead;
   no record is written. Otherwise the record, the claim and the sealed text are as said.
   */
  lemma PublishAnswers(pr: Primitives, s: State, e: Event)
    requires KeysSound(s.keys) && e.Publication? && e.identifier !in s.metadata.publications
    ensures var (after, r) := Publish(pr, s, e.author, e.draft, e.authorKey, e.signature, e.at, e.identifier, e.faults);
            match DraftError(pr, s, e)
            case Some(error) => r == Err(error) && after == s
            case None => Written(pr, s, e, after, r)
  {
    hide Publish, Written, DraftError, WritingError;
    if DraftError(pr, s, e).Some? {
      PublishRefused(pr, s, e);
    } else if WritingError(s.keys, pr.digest(Canonical(e.draft.content)), e.faults).Some? {
      PublishFails(pr, s, e);
    } else {
      PublishRecords(pr, s, e);
    }
  }

  /**
   In every sound state: a draft is published if and only if its author is registered, the text valid,
   the signature good, that very content not claimed, the file key there or to be made, and no step
   fails; and it is refused as a duplicate if and only if it passes the checks and that very content is
   claimed.
   */
  lemma PublishIff(pr: Primitives, w: World, e: Event)
    requires Sound(pr, w) && Enabled(w, e) && e.Publication?
    ensures var r := Publish(pr, w.state, e.author, e.draft, e.authorKey, e.signature, e.at, e.identifier, e.faults).1;
            var identity := pr.digest(Canonical(e.draft.content));
            var passes := && e.author in w.state.metadata.users && ValidText(e.draft.content)
                          && pr.signed(identity, w.state.metadata.users[e.author], e.signature, e.authorKey)
                          && ReadUser !in e.faults && Claim !in e.faults;
            && (r.Ok? <==>
                  && passes && identity !in w.state.claims
                  && FileKeyError(w.state.keys, identity, e.faults).None?
                  && SealContent !in e.faults && WriteBlob !in e.faults
                  && DrawIdentifier !in e.faults && WritePublication !in e.faults)
            && (r == Err(ContentDuplicate) <==> passes && identity in w.state.claims)
  {
    hide PublicationsSound, PurchasesSound, ReceiptsSound, KeysSound, Canonical, ValidText, Publish, RecordOf,
      FileKeyError, ObtainFileKey;
    PublishAnswers(pr, w.state, e);
    NoDuplicateKey(w.state.keys, pr.digest(Canonical(e.draft.content)), e.faults);
  }

  lemma NoDuplicateKey(k: Keys, identity: Identity, f: Faults)
    ensures FileKeyError(k, identity, f) != Some(ContentDuplicate)
  {
  }

  /** When nothing fails, a file key is there or can be made if the master key is present or the key store is empty. */
  lemma FileKeyIff(k: Keys, identity: Identity)
    ensures FileKeyError(k, identity, {}).None? <==> k.master.Some? || k.fileKeys == map[]
  {
  }

  // ----- receipts -----

  /** Why no receipt is issued for a published content. */
  function IssueError(k: Keys, f: Faults): Option<CoreError> {
    if DrawKey in f then Some(CryptoFailed)
    else if ReadMaster in f then Some(StorageFailed)
    else if k.master.None? then Some(KeyNotFound)
    else if ReadFileKey in f then Some(StorageFailed)
    else if SealContent in f || SealEnvelope in f then Some(CryptoFailed)
    else if WriteReceipt in f then Some(StorageFailed)
    else None
  }

  /** A receipt for a device, with the next key drawn. */
  function NextReceipt(k: Keys, context: Id, user: UserId, grantedAt: Timestamp, device: DeviceKey, at: Timestamp)
    : Receipt
  {
    var header := Header(1, context, user, grantedAt, at);
    Receipt(header, Envelope(device, header, k.drawn))
  }

  /**
   A receipt is issued: the next key is drawn, the file key of the content wrapped under it, and the
   receipt stored for this context and device in place of any other. Nothing else is touched, and
   nothing but a key is drawn when a step fails.
   */
  ghost predicate Issued(s: State, after: State, r: Result<Receipt, CoreError>, context: Id, identity: Identity,
                         user: UserId, grantedAt: Timestamp, device: DeviceKey, at: Timestamp, f: Faults)
    requires HasFileKey(s.keys, identity)
  {
    && after.claims == s.claims && after.blobs == s.blobs
    && after.keys == (if DrawKey in f then s.keys else s.keys.(drawn := s.keys.drawn + 1))
    && match IssueError(s.keys, f)
       case Some(e) => r == Err(e) && after.metadata == s.metadata
       case None =>
         var receipt := NextReceipt(s.keys, context, user, grantedAt, device, at);
         var wrapped := Sealed(s.keys.drawn, identity, KeyBytes(FileKey(s.keys, identity)));
         && r == Ok(receipt)
         && after.metadata ==
            s.metadata.(receipts := s.metadata.receipts[(context, device) := ReceiptRecord(device, wrapped, receipt)])
  }

  lemma IssueAnswers(s: State, context: Id, user: UserId, publication: PublicationRecord, grantedAt: Timestamp,
                     device: DeviceKey, at: Timestamp, f: Faults)
    requires KeysSound(s.keys) && HasFileKey(s.keys, publication.identity)
    ensures var (after, r) := Issue(s, context, user, publication, grantedAt, device, at, f);
            Issued(s, after, r, context, publication.identity, user, grantedAt, device, at, f)
  {
  }

  /** Restoring issues a receipt to the owner of a context, as of the day the access was granted. */
  lemma RestoreAnswers(pr: Primitives, w: World, user: UserId, context: Id, device: DeviceKey, at: Timestamp, f: Faults)
    requires Sound(pr, w)
    ensures var m, (after, r) := w.state.metadata, Restore(w.state, user, context, device, at, f);
            match AccessError(m, user, context, f)
            case Some(e) => r == Err(e) && after == w.state
            case None =>
              && IsContext(m, context) && HasFileKey(w.state.keys, IdentityOf(m, context))
              && Issued(w.state, after, r, context, IdentityOf(m, context), user, GrantedAt(m, context), device, at, f)
  {
    var m := w.state.metadata;
    AccessAnswers(m, user, context, f);
    if AccessError(m, user, context, f).None? {
      assert PublicationSound(pr, w, PublicationOf(m, context));
      hide Sound, ResolveAccess, Issue, Issued, AccessError;
      var publication := m.publications[PublicationOf(m, context)];
      IssueAnswers(w.state, context, user, publication, GrantedAt(m, context), device, at, f);
    }
  }

  // ----- buying -----

  /** Why the purchase of a publication without a record of the pair gets no record. */
  function NewPurchaseError(m: Metadata, pair: (UserId, Id), f: Faults): Option<CoreError> {
    if ScanPurchases in f || ReadPublication in f then Some(StorageFailed)
    else if DrawIdentifier in f then Some(CryptoFailed)
    else if WriteMarker in f then Some(StorageFailed)
    else if pair in m.pairs then Some(if Again(ScanPurchases) in f then StorageFailed else PurchaseNotFound)
    else if WritePurchase in f then Some(StorageFailed)
    else None
  }

  /** The stores with the record of a purchase and its marker. */
  function WithPurchase(s: State, record: PurchaseRecord): State {
    s.(metadata := s.metadata.(pairs := s.metadata.pairs[(record.userId, record.publicationId) := record.purchaseId],
                               purchases := s.metadata.purchases[record.purchaseId := record]))
  }

  ghost predicate NoRecordOf(m: Metadata, user: UserId, publication: Id) {
    forall id :: !IsPurchaseOf(m, id, user, publication)
  }

  lemma AddAnswers(m: Metadata, record: PurchaseRecord, f: Faults)
    requires record.purchaseId !in m.purchases
    ensures var (after, r) := AddPurchase(m, record, f);
            var pair := (record.userId, record.publicationId);
            if WriteMarker in f then after == m && r == Err(StorageFailed)
            else if pair in m.pairs then after == m && r == Err(RecordExists)
            else if WritePurchase in f then
              && r == Err(StorageFailed)
              && after == if ReleaseMarker in f then m.(pairs := m.pairs[pair := record.purchaseId]) else m
            else
              && r == Ok(())
              && after == m.(pairs := m.pairs[pair := record.purchaseId],
                             purchases := m.purchases[record.purchaseId := record])
  {
    var pair := (record.userId, record.publicationId);
    if pair !in m.pairs {
      assert m.pairs[pair := record.purchaseId] - {pair} == m.pairs;
    }
  }

  /** A purchase of somebody else's publication. */
  ghost predicate BuysFirst(m: Metadata, e: Event) {
    && e.Purchase? && e.publication in m.publications && m.publications[e.publication].authorId != e.user
    && e.identifier !in m.purchases && NoRecordOf(m, e.user, e.publication)
  }

  lemma NothingFound(m: Metadata, user: UserId, publication: Id, f: Faults)
    requires NoRecordOf(m, user, publication)
    ensures FindPurchaseOf(m, user, publication, f)
            == Err(if ScanPurchases in f then StorageFailed else PurchaseNotFound)
  {
  }

  lemma BuyFails(s: State, e: Event)
    requires BuysFirst(s.metadata, e) && NewPurchaseError(s.metadata, (e.user, e.publication), e.faults).Some?
    ensures var m, pair := s.metadata, (e.user, e.publication);
            var (after, r) := Buy(s, e.user, e.publication, e.device, e.at, e.identifier, e.faults);
            && r == Err(NewPurchaseError(m, pair, e.faults).value)
            && after == s.(metadata := m.(pairs := after.metadata.pairs))
            && after.metadata.pairs ==
               if && ScanPurchases !in e.faults && ReadPublication !in e.faults && DrawIdentifier !in e.faults
                  && WriteMarker !in e.faults && pair !in m.pairs && ReleaseMarker in e.faults
               then m.pairs[pair := e.identifier] else m.pairs
  {
    var m, record := s.metadata, PurchaseRecord(e.identifier, e.user, e.publication, e.at);
    AddAnswers(m, record, e.faults);
    NothingFound(m, e.user, e.publication, e.faults);
    NothingFound(m, e.user, e.publication, Later(e.faults));
    hide Issue, AddPurchase, ReceiptFor, FindPurchaseOf, NoRecordOf, IsPurchaseOf;
  }

  lemma BuyMakesRecord(s: State, e: Event)
    requires BuysFirst(s.metadata, e) && NewPurchaseError(s.metadata, (e.user, e.publication), e.faults).None?
    ensures var bought := WithPurchase(s, PurchaseRecord(e.identifier, e.user, e.publication, e.at));
            Buy(s, e.user, e.publication, e.device, e.at, e.identifier, e.faults)
            == Issue(bought, e.identifier, e.user, s.metadata.publications[e.publication], e.at, e.device, e.at,
                     e.faults)
  {
    var m, record := s.metadata, PurchaseRecord(e.identifier, e.user, e.publication, e.at);
    AddAnswers(m, record, e.faults);
    NothingFound(m, e.user, e.publication, e.faults);
    hide Issue, AddPurchase, ReceiptFor, FindPurchaseOf, NoRecordOf, IsPurchaseOf;
  }

  /**
   A first purchase of somebody else's publication: the first failure is answered and leaves no record,
   and no marker either unless its release fails too; otherwise the record and its marker are there, and
   the receipt is issued as of now.
   */
  lemma FirstPurchase(pr: Primitives, w: World, e: Event)
    requires Sound(pr, w) && BuysFirst(w.state.metadata, e)
    ensures var s, m, pair := w.state, w.state.metadata, (e.user, e.publication);
            var (after, r) := Buy(s, e.user, e.publication, e.device, e.at, e.identifier, e.faults);
            var identity := m.publications[e.publication].identity;
            match NewPurchaseError(m, pair, e.faults)
            case Some(error) =>
              && r == Err(error)
              && after == s.(metadata := m.(pairs := after.metadata.pairs))
              && after.metadata.pairs ==
                 if && ScanPurchases !in e.faults && ReadPublication !in e.faults && DrawIdentifier !in e.faults
                    && WriteMarker !in e.faults && pair !in m.pairs && ReleaseMarker in e.faults
                 then m.pairs[pair := e.identifier] else m.pairs
            case None =>
              var bought := WithPurchase(s, PurchaseRecord(e.identifier, e.user, e.publication, e.at));
              && HasFileKey(s.keys, identity)
              && Issued(bought, after, r, e.identifier, identity, e.user, e.at, e.device, e.at, e.faults)
  {
    var s, m := w.state, w.state.metadata;
    assert PublicationSound(pr, w, e.publication);
    hide PublicationsSound, PurchasesSound, ReceiptsSound, Issue, Issued, Buy, BuysFirst, NewPurchaseError, KeysSound;
    if NewPurchaseError(m, (e.user, e.publication), e.faults).Some? {
      BuyFails(s, e);
    } else {
      var bought := WithPurchase(s, PurchaseRecord(e.identifier, e.user, e.publication, e.at));
      BuyMakesRecord(s, e);
      IssueAnswers(bought, e.identifier, e.user, m.publications[e.publication], e.at, e.device, e.at, e.faults);
    }
  }

  /**
   So the buyer gets a receipt if and only if the pair has no marker, the master key is present and none
   of the steps on the way fails; and then the purchase is recorded, and the receipt is for this
   purchase, user and day, and stored for the device.
   */
  lemma FirstPurchaseIff(pr: Primitives, w: World, e: Event)
    requires Sound(pr, w) && BuysFirst(w.state.metadata, e)
    ensures var s, m := w.state, w.state.metadata;
            var (after, r) := Buy(s, e.user, e.publication, e.device, e.at, e.identifier, e.faults);
            && (r.Ok? <==>
                  && (e.user, e.publication) !in m.pairs && s.keys.master.Some?
                  && ScanPurchases !in e.faults && ReadPublication !in e.faults && DrawIdentifier !in e.faults
                  && WriteMarker !in e.faults && WritePurchase !in e.faults
                  && DrawKey !in e.faults && ReadMaster !in e.faults && ReadFileKey !in e.faults
                  && SealContent !in e.faults && SealEnvelope !in e.faults && WriteReceipt !in e.faults)
            && (r.Ok? ==>
                  && after.metadata.purchases
                     == m.purchases[e.identifier := PurchaseRecord(e.identifier, e.user, e.publication, e.at)]
                  && r.value.header == Header(1, e.identifier, e.user, e.at, e.at)
                  && (e.identifier, e.device) in after.metadata.receipts
                  && after.metadata.receipts[(e.identifier, e.device)].receipt == r.value)
  {
    hide Sound, Buy, BuysFirst;
    FirstPurchase(pr, w, e);
  }

  /** The receipt of a recorded purchase: the stored one, a first one as of the day of purchase, or none. */
  ghost predicate Rebought(s: State, after: State, r: Result<Receipt, CoreError>, identity: Identity, p: PurchaseRecord,
                           device: DeviceKey, at: Timestamp, f: Faults)
    requires HasFileKey(s.keys, identity)
  {
    var m, k := s.metadata, (p.purchaseId, device);
    if ReadReceipt in f then after == s && r == Err(StorageFailed)
    else if k in m.receipts then after == s && r == Ok(m.receipts[k].receipt)
    else if ListReceipts in f then after == s && r == Err(StorageFailed)
    else if exists other :: (p.purchaseId, other) in m.receipts then after == s && r == Err(ReceiptNotFound)
    else if ReadPublication in f then after == s && r == Err(StorageFailed)
    else Issued(s, after, r, p.purchaseId, identity, p.userId, p.purchasedAt, device, at, f)
  }

  lemma ReceiptForAnswers(s: State, p: PurchaseRecord, device: DeviceKey, at: Timestamp, f: Faults)
    requires KeysSound(s.keys) && p.publicationId in s.metadata.publications
    requires HasFileKey(s.keys, s.metadata.publications[p.publicationId].identity)
    ensures var (after, r) := ReceiptFor(s, p, device, at, f);
            Rebought(s, after, r, s.metadata.publications[p.publicationId].identity, p, device, at, f)
  {
    IssueAnswers(s, p.purchaseId, p.userId, s.metadata.publications[p.publicationId], p.purchasedAt, device, at, f);
    hide Issue, Issued, KeysSound;
  }

  /**
   A purchase that is recorded already: the receipt stored for the device comes back; the first one is
   issued, as of the day of the purchase, when there is none at all; and a device without one is
   refused when another has one.
   */
  lemma RepeatedPurchase(pr: Primitives, w: World, e: Event, id: Id)
    requires Sound(pr, w) && e.Purchase? && IsPurchaseOf(w.state.metadata, id, e.user, e.publication)
    ensures var s, p := w.state, w.state.metadata.purchases[id];
            var (after, r) := Buy(s, e.user, e.publication, e.device, e.at, e.identifier, e.faults);
            && p.purchaseId == id && e.publication in s.metadata.publications
            && HasFileKey(s.keys, s.metadata.publications[e.publication].identity)
            && if ScanPurchases in e.faults then after == s && r == Err(StorageFailed)
               else Rebought(s, after, r, s.metadata.publications[e.publication].identity, p, e.device, e.at, e.faults)
  {
    var s, p := w.state, w.state.metadata.purchases[id];
    RecordFound(s.metadata, id, e.user, e.publication, e.faults);
    BuyAgain(s, e, p);
    assert PublicationSound(pr, w, e.publication);
    hide Buy;
    ReceiptForAnswers(s, p, e.device, e.at, e.faults);
    hide Sound, Rebought, ReceiptFor, FindPurchaseOf, AddPurchase, PublicationSound, PurchasesSound, Issue;
  }

  lemma BuyAgain(s: State, e: Event, p: PurchaseRecord)
    requires e.Purchase?
    requires FindPurchaseOf(s.metadata, e.user, e.publication, e.faults)
             == if ScanPurchases in e.faults then Err(StorageFailed) else Ok(p)
    ensures Buy(s, e.user, e.publication, e.device, e.at, e.identifier, e.faults)
            == if ScanPurchases in e.faults then (s, Err(StorageFailed)) else ReceiptFor(s, p, e.device, e.at, e.faults)
  {
    hide ReceiptFor, FindPurchaseOf, AddPurchase, Issue;
  }

  lemma RecordFound(m: Metadata, id: Id, user: UserId, publication: Id, f: Faults)
    requires PurchasesSound(m) && IsPurchaseOf(m, id, user, publication)
    ensures FindPurchaseOf(m, user, publication, f)
            == if ScanPurchases in f then Err(StorageFailed) else Ok(m.purchases[id])
    ensures m.purchases[id].purchaseId == id && publication in m.publications
  {
    forall other | IsPurchaseOf(m, other, user, publication) ensures other == id {
      PurchaseOfUnique(m, id, other, user, publication);
    }
  }

  /** The author's own publication: the receipt stored for the device, or a new one as of the day of publication. */
  lemma OwnAnswers(pr: Primitives, w: World, e: Event)
    requires Sound(pr, w) && e.Purchase? && e.publication in w.state.metadata.publications
    requires w.state.metadata.publications[e.publication].authorId == e.user
    ensures var s, m, k := w.state, w.state.metadata, (e.publication, e.device);
            var (after, r) := Buy(s, e.user, e.publication, e.device, e.at, e.identifier, e.faults);
            var publication := m.publications[e.publication];
            && HasFileKey(s.keys, publication.identity)
            && if ScanPurchases in e.faults || ReadPublication in e.faults then after == s && r == Err(StorageFailed)
               else if ReadReceipt !in e.faults && k in m.receipts then after == s && r == Ok(m.receipts[k].receipt)
               else Issued(s, after, r, e.publication, publication.identity, e.user, publication.publishedAt, e.device,
                           e.at, e.faults)
  {
    var s, publication := w.state, w.state.metadata.publications[e.publication];
    assert PublicationSound(pr, w, e.publication);
    NoRecordOfOwn(s.metadata, e);
    NothingFound(s.metadata, e.user, e.publication, e.faults);
    IssueAnswers(s, e.publication, e.user, publication, publication.publishedAt, e.device, e.at, e.faults);
    hide Sound, Issue, Issued, FindPurchaseOf, AddPurchase, PublicationSound, PurchasesSound, ReceiptFor;
  }

  lemma NoRecordOfOwn(m: Metadata, e: Event)
    requires PurchasesSound(m) && e.Purchase? && e.publication in m.publications
    requires m.publications[e.publication].authorId == e.user
    ensures NoRecordOf(m, e.user, e.publication)
  {
    hide PairsMark;
  }

  /** There is nothing to buy where nothing is published. */
  lemma NothingToBuy(pr: Primitives, w: World, e: Event)
    requires Sound(pr, w) && e.Purchase? && e.publication !in w.state.metadata.publications
    ensures Buy(w.state, e.user, e.publication, e.device, e.at, e.identifier, e.faults)
            == (w.state, Err(if ScanPurchases in e.faults || ReadPublication in e.faults then StorageFailed
                             else PublicationNotFound))
  {
    assert NoRecordOf(w.state.metadata, e.user, e.publication) by {
      hide PairsMark;
    }
    NothingFound(w.state.metadata, e.user, e.publication, e.faults);
    hide Sound, FindPurchaseOf;
  }

  // ----- delivery -----

  /** Why a fetch does not get to marking the content. */
  function ReachError(s: State, user: UserId, context: Id, device: DeviceKey, f: Faults): Option<CoreError> {
    if AccessError(s.metadata, user, context, f).Some? then AccessError(s.metadata, user, context, f)
    else if ReadReceipt in f then Some(StorageFailed)
    else if (context, device) !in s.metadata.receipts then Some(ReceiptNotFound)
    else if ReadBlob in f then Some(StorageFailed)
    else None
  }

  /** Why a stored content is not marked; one without a channel is only opened. */
  function MarkingError(k: Keys, channel: bool, f: Faults): Option<CoreError> {
    if ReadMaster in f then Some(StorageFailed)
    else if k.master.None? then Some(KeyNotFound)
    else if Again(ReadMaster) in f || Again(ReadFileKey) in f then Some(StorageFailed)
    else if !channel then None
    else if Again(Again(ReadMaster)) in f || Again(Again(ReadFileKey)) in f then Some(StorageFailed)
    else if Again(Again(SealContent)) in f then Some(CryptoFailed)
    else None
  }

  /** Why a package is not delivered. */
  function FetchError(s: State, user: UserId, context: Id, device: DeviceKey, channel: bool, f: Faults)
    : Option<CoreError>
  {
    var unreached := ReachError(s, user, context, device, f);
    if unreached.Some? then unreached else MarkingError(s.keys, channel, f)
  }

  lemma MarkingAnswers(pr: Primitives, k: Keys, identity: Identity, text: seq<byte>, context: Id, f: Faults)
    requires KeysSound(k) && HasFileKey(k, identity)
    ensures var stored := Sealed(FileKey(k, identity), identity, Text(text));
            var (after, r) := MarkForPurchase(pr, k, identity, stored, context, f);
            var mark := SealMark(pr, k, identity, context, {});
            && after == k
            && match MarkingError(k, HasChannel(text), f)
               case Some(e) => r == Err(e)
               case None =>
                 && mark.Ok?
                 && r == Ok(Sealed(FileKey(k, identity), identity,
                                   Text(if HasChannel(text) then Embedded(text, mark.value).value else text)))
  {
    hide HasChannel;
  }

  /** The text delivered for a context: the canonical form of its draft, marked when it has a channel. */
  ghost function DeliveredText(pr: Primitives, w: World, context: Id): seq<byte>
    requires Sound(pr, w) && IsContext(w.state.metadata, context) && w.state.keys.master.Some?
  {
    var id := PublicationOf(w.state.metadata, context);
    assert PublicationSound(pr, w, id);
    var text := Canonical(w.drafts[id]);
    var markKey := pr.markKeyOf(w.state.keys.master.value);
    var mark := Mark(context, pr.mac(markKey, pr.digest(text), context, 2), 2);
    if HasChannel(text) then Embedded(text, mark).value else text
  }

  /** The package of a context for a device, field by field. */
  ghost function PackageFor(pr: Primitives, w: World, context: Id, device: DeviceKey): Package
    requires Sound(pr, w) && IsContext(w.state.metadata, context) && w.state.keys.master.Some?
    requires (context, device) in w.state.metadata.receipts
  {
    var record := w.state.metadata.publications[PublicationOf(w.state.metadata, context)];
    assert PublicationSound(pr, w, PublicationOf(w.state.metadata, context));
    var fileKey := FileKey(w.state.keys, record.identity);
    var receipt := w.state.metadata.receipts[(context, device)].receipt;
    Package(1, Sealed(fileKey, record.identity, Text(DeliveredText(pr, w, context))),
            Sealed(receipt.wrappedKey.key, record.identity, KeyBytes(fileKey)), record.identity,
            record.authorKey, record.authorName, record.algorithm, record.signature)
  }

  /** The content of a context has a channel. */
  ghost predicate Markable(w: World, context: Id) {
    && IsContext(w.state.metadata, context) && PublicationOf(w.state.metadata, context) in w.drafts
    && HasChannel(Canonical(w.drafts[PublicationOf(w.state.metadata, context)]))
  }

  /** What a sound server has stored for a context. */
  lemma StoredFor(pr: Primitives, w: World, context: Id)
    requires Sound(pr, w) && IsContext(w.state.metadata, context)
    ensures var id := PublicationOf(w.state.metadata, context);
            var identity := w.state.metadata.publications[id].identity;
            && id in w.drafts && HasFileKey(w.state.keys, identity) && identity in w.state.blobs
            && identity == pr.digest(Canonical(w.drafts[id]))
            && w.state.blobs[identity]
               == Sealed(FileKey(w.state.keys, identity), identity, Text(Canonical(w.drafts[id])))
  {
    var id := PublicationOf(w.state.metadata, context);
    assert PublicationSound(pr, w, id);
    CanonicalIsStable(w.drafts[id]);
    hide Canonical, ValidText, PurchasesSound, ReceiptsSound, PublicationsSound;
  }

  lemma FetchReaches(pr: Primitives, w: World, user: UserId, context: Id, device: DeviceKey, f: Faults)
    requires Sound(pr, w)
    ensures var s, (after, r) := w.state, Fetch(pr, w.state, user, context, device, f);
            match ReachError(s, user, context, device, f)
            case Some(e) => after == s && r == Err(e)
            case None =>
              && IsContext(s.metadata, context) && IdentityOf(s.metadata, context) in s.blobs
              && var record := s.metadata.publications[PublicationOf(s.metadata, context)];
              && var stored := s.blobs[record.identity];
              && var (keys, content) := MarkForPurchase(pr, s.keys, record.identity, stored, context, f);
              && after == s.(keys := keys)
              && (content.Err? ==> r == Err(content.error))
              && (content.Ok? ==>
                    r == Ok(Package(1, content.value, s.metadata.receipts[(context, device)].wrappedBlobKey,
                                    record.identity, record.authorKey, record.authorName, record.algorithm,
                                    record.signature)))
  {
    assert PurchasesSound(w.state.metadata);
    hide Sound, PurchasesSound, ResolveAccess, MarkForPurchase, Canonical, HasFileKey;
    AccessAnswers(w.state.metadata, user, context, f);
    if AccessError(w.state.metadata, user, context, f).None? {
      StoredFor(pr, w, context);
    }
    hide AccessError;
  }

  lemma PackageIs(pr: Primitives, w: World, context: Id, device: DeviceKey)
    requires Sound(pr, w) && IsContext(w.state.metadata, context) && w.state.keys.master.Some?
    requires (context, device) in w.state.metadata.receipts
    ensures PublicationOf(w.state.metadata, context) in w.drafts
    ensures var s, id := w.state, PublicationOf(w.state.metadata, context);
            var record, text := s.metadata.publications[id], Canonical(w.drafts[id]);
            var mark := SealMark(pr, s.keys, record.identity, context, {});
            && HasFileKey(s.keys, record.identity) && mark.Ok?
            && PackageFor(pr, w, context, device) ==
               Package(1, Sealed(FileKey(s.keys, record.identity), record.identity,
                                 Text(if HasChannel(text) then Embedded(text, mark.value).value else text)),
                       s.metadata.receipts[(context, device)].wrappedBlobKey, record.identity, record.authorKey,
                       record.authorName, record.algorithm, record.signature)
  {
    StoredFor(pr, w, context);
    assert ReceiptSound(w, context, device);
    hide Sound, HasChannel, Embedded, Canonical, ValidText;
  }

  /** A fetch changes nothing; the first failure is answered, and otherwise the package is the one said here. */
  lemma FetchAnswers(pr: Primitives, w: World, user: UserId, context: Id, device: DeviceKey, f: Faults)
    requires Sound(pr, w)
    ensures var (after, r) := Fetch(pr, w.state, user, context, device, f);
            && after == w.state
            && match FetchError(w.state, user, context, device, Markable(w, context), f)
               case Some(e) => r == Err(e)
               case None =>
                 && IsContext(w.state.metadata, context) && w.state.keys.master.Some?
                 && (context, device) in w.state.metadata.receipts
                 && r == Ok(PackageFor(pr, w, context, device))
  {
    FetchReaches(pr, w, user, context, device, f);
    if ReachError(w.state, user, context, device, f).None? {
      StoredFor(pr, w, context);
      var id := PublicationOf(w.state.metadata, context);
      MarkingAnswers(pr, w.state.keys, w.state.metadata.publications[id].identity, Canonical(w.drafts[id]), context, f);
      if w.state.keys.master.Some? {
        PackageIs(pr, w, context, device);
      }
    }
    hide Sound, Fetch, HasChannel, Embedded, Canonical, ValidText, MarkForPurchase, PackageFor, SealMark,
      ReachError, MarkingError;
  }
}
