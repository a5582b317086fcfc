/**
 The contents of the stores behind the server, and what each store operation makes of them.
 Every storage step of a request may fail; `faults` names the steps that do. A step that a request
 takes again may fail on its own: `Again(step)` names its second time, `Again(Again(step))` its third.
 */
module StoreContents {
  import opened Bytes
  import opened Errors
  import opened MarkCodec
  import opened Crypto

  datatype Step =
    | ReadUser | ReadPublication | ReadPurchase | ScanPurchases | ReadReceipt | ListReceipts
    | WritePublication | WriteMarker | WritePurchase | ReleaseMarker | WriteReceipt
    | ReadMaster | ReadFileKey | FindMaster | ListFileKeys | OpenMaster | WriteMaster | WriteFileKey
    | Claim | ReleaseClaim | ReadBlob | WriteBlob
    | DrawKey | DrawIdentifier | SealKey | SealContent | SealEnvelope
    | Again(step: Step)

  type Faults = set<Step>

  /** What fails the next time round. */
  function Later(faults: Faults): Faults {
    set f | f in faults && f.Again? :: f.step
  }

  /** What fails at the n-th repetition; the first time is number zero. */
  function Occurrence(faults: Faults, n: nat): Faults {
    if n == 0 then faults else Later(Occurrence(faults, n - 1))
  }

  lemma {:induction false} NothingFails(n: nat)
    ensures Later({}) == {} && Occurrence({}, n) == {}
  {
    if n > 0 {
      NothingFails(n - 1);
    }
  }

  datatype PublicationRecord = PublicationRecord(
    publicationId: Id, authorId: UserId, authorName: Name, title: Name, fileName: Name, size: nat,
    publishedAt: Timestamp, identity: Identity, authorKey: AuthorKey, algorithm: byte, signature: Signature)

  datatype PurchaseRecord = PurchaseRecord(
    purchaseId: Id, userId: UserId, publicationId: Id, purchasedAt: Timestamp)

  datatype ReceiptRecord = ReceiptRecord(deviceKey: DeviceKey, wrappedBlobKey: Sealed, receipt: Receipt)

  // ----- metadata -----

  datatype Metadata = Metadata(
    users: map<UserId, Name>,
    publications: map<Id, PublicationRecord>,
    purchases: map<Id, PurchaseRecord>,
    pairs: map<(UserId, Id), Id>,
    receipts: map<(Id, DeviceKey), ReceiptRecord>)

  predicate IsPurchaseOf(m: Metadata, id: Id, user: UserId, publication: Id) {
    id in m.purchases && m.purchases[id].userId == user && m.purchases[id].publicationId == publication
  }

  /** Every purchase record has its pair marker, and the marker names it. */
  ghost predicate PairsMark(m: Metadata) {
    forall id | id in m.purchases ::
      var pair := (m.purchases[id].userId, m.purchases[id].publicationId);
      m.purchases[id].purchaseId == id && pair in m.pairs && m.pairs[pair] == id
  }

  function FindUser(m: Metadata, user: UserId, faults: Faults): Result<Name, CoreError> {
    if ReadUser in faults then Err(StorageFailed)
    else if user in m.users then Ok(m.users[user])
    else Err(UserNotFound)
  }

  function FindPublication(m: Metadata, id: Id, faults: Faults): Result<PublicationRecord, CoreError> {
    if ReadPublication in faults then Err(StorageFailed)
    else if id in m.publications then Ok(m.publications[id])
    else Err(PublicationNotFound)
  }

  function FindPurchase(m: Metadata, id: Id, faults: Faults): Result<PurchaseRecord, CoreError> {
    if ReadPurchase in faults then Err(StorageFailed)
    else if id in m.purchases then Ok(m.purchases[id])
    else Err(PurchaseNotFound)
  }

  ghost function FindPurchaseOf(m: Metadata, user: UserId, publication: Id, faults: Faults)
    : Result<PurchaseRecord, CoreError>
  {
    if ScanPurchases in faults then Err(StorageFailed)
    else if exists id :: IsPurchaseOf(m, id, user, publication) then
      var id :| IsPurchaseOf(m, id, user, publication);
      Ok(m.purchases[id])
    else Err(PurchaseNotFound)
  }

  function AddPublication(m: Metadata, record: PublicationRecord, faults: Faults): (Metadata, Result<(), CoreError>) {
    if WritePublication in faults then (m, Err(StorageFailed))
    else if record.publicationId in m.publications then (m, Err(RecordExists))
    else (m.(publications := m.publications[record.publicationId := record]), Ok(()))
  }

  /** Giving the pair marker back after the record could not be stored. */
  function Released(m: Metadata, pair: (UserId, Id), original: CoreError, faults: Faults)
    : (Metadata, Result<(), CoreError>)
  {
    if ReleaseMarker in faults then (m, Err(StorageFailed))
    else (m.(pairs := m.pairs - {pair}), Err(original))
  }

  function AddPurchase(m: Metadata, record: PurchaseRecord, faults: Faults): (Metadata, Result<(), CoreError>) {
    var pair := (record.userId, record.publicationId);
    var marked := m.(pairs := m.pairs[pair := record.purchaseId]);
    if WriteMarker in faults then (m, Err(StorageFailed))
    else if pair in m.pairs then (m, Err(RecordExists))
    else if WritePurchase in faults then Released(marked, pair, StorageFailed, faults)
    else if record.purchaseId in m.purchases then Released(marked, pair, RecordExists, faults)
    else (marked.(purchases := m.purchases[record.purchaseId := record]), Ok(()))
  }

  function FindReceipt(m: Metadata, id: Id, device: DeviceKey, faults: Faults): Result<ReceiptRecord, CoreError> {
    if ReadReceipt in faults then Err(StorageFailed)
    else if (id, device) in m.receipts then Ok(m.receipts[(id, device)])
    else Err(ReceiptNotFound)
  }

  ghost predicate AnyReceipt(m: Metadata, id: Id) {
    exists device :: (id, device) in m.receipts
  }

  ghost function HasReceipt(m: Metadata, id: Id, faults: Faults): Result<bool, CoreError> {
    if ListReceipts in faults then Err(StorageFailed) else Ok(AnyReceipt(m, id))
  }

  function SaveReceipt(m: Metadata, record: ReceiptRecord, faults: Faults): (Metadata, Result<(), CoreError>) {
    if WriteReceipt in faults then (m, Err(StorageFailed))
    else
      (m.(receipts := m.receipts[(record.receipt.header.purchaseId, record.deviceKey) := record]), Ok(()))
  }

  /** At most one record per user and publication. */
  lemma PurchaseOfUnique(m: Metadata, a: Id, b: Id, user: UserId, publication: Id)
    requires PairsMark(m) && IsPurchaseOf(m, a, user, publication) && IsPurchaseOf(m, b, user, publication)
    ensures a == b
  {
  }

  lemma MarkedRecord(m: Metadata, record: PurchaseRecord)
    requires PairsMark(m) && (record.userId, record.publicationId) !in m.pairs && record.purchaseId !in m.purchases
    ensures PairsMark(m.(pairs := m.pairs[(record.userId, record.publicationId) := record.purchaseId],
                         purchases := m.purchases[record.purchaseId := record]))
  {
  }

  lemma AddPurchaseMarks(m: Metadata, record: PurchaseRecord, faults: Faults)
    requires PairsMark(m)
    ensures var (after, r) := AddPurchase(m, record, faults);
            && PairsMark(after) && after.publications == m.publications && after.receipts == m.receipts
            && (r.Ok? ==>
                  && after.purchases == m.purchases[record.purchaseId := record]
                  && record.purchaseId !in m.purchases)
            && (r.Err? ==> after.purchases == m.purchases)
            && (r.Err? && ReleaseMarker !in faults ==> after == m)
  {
    var pair := (record.userId, record.publicationId);
    if pair !in m.pairs {
      assert m.pairs[pair := record.purchaseId] - {pair} == m.pairs;
      assert forall id | id in m.purchases :: (m.purchases[id].userId, m.purchases[id].publicationId) != pair;
      if record.purchaseId !in m.purchases {
        MarkedRecord(m, record);
      }
    }
    hide PairsMark;
  }

  // ----- keys -----

  /** The master key, the wrapped file keys, and how many keys were drawn so far: key number n is the n-th drawn. */
  datatype Keys = Keys(master: Option<Key>, fileKeys: map<Identity, Sealed>, drawn: nat)

  function GenerateKey(k: Keys, faults: Faults): (Keys, Result<Key, CoreError>) {
    if DrawKey in faults then (k, Err(CryptoFailed)) else (k.(drawn := k.drawn + 1), Ok(k.drawn))
  }

  function LoadMaster(k: Keys, faults: Faults): Result<Key, CoreError> {
    if ReadMaster in faults then Err(StorageFailed)
    else if k.master.None? then Err(KeyNotFound)
    else Ok(k.master.value)
  }

  function LoadFileKey(k: Keys, identity: Identity, faults: Faults): Result<Key, CoreError> {
    match LoadMaster(k, faults)
    case Err(e) => Err(e)
    case Ok(master) =>
      if ReadFileKey in faults then Err(StorageFailed)
      else if identity !in k.fileKeys then Err(KeyNotFound)
      else UnwrapKey(k.fileKeys[identity], master, identity)
  }

  /** A master key is only made while the key store is empty; one that is there is loaded. */
  function CreateMaster(k: Keys, faults: Faults): (Keys, Result<Key, CoreError>) {
    if FindMaster in faults then (k, Err(StorageFailed))
    else if k.master.None? && ListFileKeys in faults then (k, Err(StorageFailed))
    else if k.master.None? && k.fileKeys != map[] then (k, Err(KeyNotFound))
    else if OpenMaster in faults then (k, Err(StorageFailed))
    else if k.master.Some? then (k, Ok(k.master.value))
    else
      var (drawn, generated) := GenerateKey(k, faults);
      if generated.Err? then (drawn, generated)
      else if WriteMaster in faults then (drawn, Err(StorageFailed))
      else (drawn.(master := Some(generated.value)), generated)
  }

  function ObtainFileKey(k: Keys, identity: Identity, faults: Faults): (Keys, Result<Key, CoreError>) {
    var existing := LoadFileKey(k, identity, faults);
    if existing != Err(KeyNotFound) then (k, existing)
    else
      var (withMaster, master) := CreateMaster(k, faults);
      if master.Err? then (withMaster, master)
      else
        var (drawn, generated) := GenerateKey(withMaster, Later(faults));
        if generated.Err? then (drawn, generated)
        else if SealKey in faults then (drawn, Err(CryptoFailed))
        else if WriteFileKey in faults then (drawn, Err(StorageFailed))
        else
          (drawn.(fileKeys := k.fileKeys[identity := Sealed(master.value, identity, KeyBytes(generated.value))]),
           generated)
  }

  function SealText(k: Keys, identity: Identity, plaintext: seq<byte>, faults: Faults)
    : (Keys, Result<Sealed, CoreError>)
  {
    var (after, key) := ObtainFileKey(k, identity, faults);
    if key.Err? then (after, Err(key.error))
    else if SealContent in faults then (after, Err(CryptoFailed))
    else (after, Ok(Sealed(key.value, identity, Text(plaintext))))
  }

  function OpenText(k: Keys, identity: Identity, sealed: Sealed, faults: Faults): Result<seq<byte>, CoreError> {
    match LoadFileKey(k, identity, faults)
    case Err(e) => Err(e)
    case Ok(key) =>
      match Decrypt(sealed, key, identity)
      case Err(e) => Err(e)
      case Ok(KeyBytes(_)) => Err(KeyMalformed)
      case Ok(Text(plaintext)) => Ok(plaintext)
  }

  function WrapFileKey(k: Keys, identity: Identity, purchaseKey: Key, faults: Faults): Result<Sealed, CoreError> {
    match LoadFileKey(k, identity, faults)
    case Err(e) => Err(e)
    case Ok(key) =>
      if SealContent in faults then Err(CryptoFailed) else Ok(Sealed(purchaseKey, identity, KeyBytes(key)))
  }

  function SealMark(pr: Primitives, k: Keys, identity: Identity, context: Id, faults: Faults): Result<Mark, CoreError> {
    match LoadMaster(k, faults)
    case Err(e) => Err(e)
    case Ok(master) => Ok(Mark(context, pr.mac(pr.markKeyOf(master), identity, context, MARK_VERSION), MARK_VERSION))
  }

  function VerifyMark(pr: Primitives, k: Keys, identity: Identity, mark: Mark, faults: Faults)
    : Result<bool, CoreError>
  {
    match LoadMaster(k, faults)
    case Err(e) => Err(e)
    case Ok(master) => Ok(pr.mac(pr.markKeyOf(master), identity, mark.purchaseId, mark.version) == mark.code)
  }

  /** Every stored file key unwraps under the master key that is present. */
  predicate KeysUnwrap(k: Keys) {
    k.master.Some? ==>
      forall identity | identity in k.fileKeys ::
        var wrapped := k.fileKeys[identity];
        wrapped.key == k.master.value && wrapped.bound == identity && wrapped.plain.KeyBytes?
  }

  ghost predicate KeysSound(k: Keys) {
    && KeysUnwrap(k)
    && forall identity | identity in k.fileKeys ::
         k.fileKeys[identity].bound == identity && k.fileKeys[identity].plain.KeyBytes?
  }

  function FileKey(k: Keys, identity: Identity): Key
    requires identity in k.fileKeys && k.fileKeys[identity].plain.KeyBytes?
  {
    k.fileKeys[identity].plain.key
  }

  predicate HasFileKey(k: Keys, identity: Identity) {
    identity in k.fileKeys && k.fileKeys[identity].plain.KeyBytes?
  }

  predicate KeysGrow(k: Keys, after: Keys) {
    forall i | i in k.fileKeys :: i in after.fileKeys && after.fileKeys[i] == k.fileKeys[i]
  }

  // ----- blobs -----

  function LoadBlob(blobs: map<Identity, Sealed>, identity: Identity, faults: Faults): Result<Sealed, CoreError> {
    if ReadBlob in faults then Err(StorageFailed)
    else if identity in blobs then Ok(blobs[identity])
    else Err(BlobNotFound)
  }
}
