/** The stores as the objects the server calls, each proved against what StoreContents says of its contents. */
module Stores {
  import opened Bytes
  import opened Errors
  import opened MarkCodec
  import opened Crypto
  import opened StoreContents

  class MetadataRegistry {
    var users: map<UserId, Name>
    var publications: map<Id, PublicationRecord>
    var purchases: map<Id, PurchaseRecord>
    var pairs: map<(UserId, Id), Id>
    var receipts: map<(Id, DeviceKey), ReceiptRecord>

    ghost function View(): Metadata
      reads this
    {
      Metadata(users, publications, purchases, pairs, receipts)
    }

    constructor ()
      ensures View() == Metadata(map[], map[], map[], map[], map[])
    {
      users, publications, purchases, pairs, receipts := map[], map[], map[], map[], map[];
    }

    method FindUser(user: UserId, faults: Faults) returns (r: Result<Name, CoreError>)
      ensures r == StoreContents.FindUser(View(), user, faults)
    {
      if ReadUser in faults {
        return Err(StorageFailed);
      }
      return if user in users then Ok(users[user]) else Err(UserNotFound);
    }

    method FindPublication(id: Id, faults: Faults) returns (r: Result<PublicationRecord, CoreError>)
      ensures r == StoreContents.FindPublication(View(), id, faults)
    {
      if ReadPublication in faults {
        return Err(StorageFailed);
      }
      return if id in publications then Ok(publications[id]) else Err(PublicationNotFound);
    }

    method FindPurchase(id: Id, faults: Faults) returns (r: Result<PurchaseRecord, CoreError>)
      ensures r == StoreContents.FindPurchase(View(), id, faults)
    {
      if ReadPurchase in faults {
        return Err(StorageFailed);
      }
      return if id in purchases then Ok(purchases[id]) else Err(PurchaseNotFound);
    }

    /** Loads every purchase record and picks the first one of this user and publication. */
    method FindPurchaseOf(user: UserId, publication: Id, faults: Faults) returns (r: Result<PurchaseRecord, CoreError>)
      requires PairsMark(View())
      ensures r == StoreContents.FindPurchaseOf(View(), user, publication, faults)
    {
      if ScanPurchases in faults {
        return Err(StorageFailed);
      }
      var left := purchases.Keys;
      while left != {}
        invariant left <= purchases.Keys
        invariant forall id | id in purchases && id !in left :: !IsPurchaseOf(View(), id, user, publication)
        decreases left
      {
        var id :| id in left;
        left := left - {id};
        if purchases[id].userId == user && purchases[id].publicationId == publication {
          assert IsPurchaseOf(View(), id, user, publication);
          forall other | IsPurchaseOf(View(), other, user, publication) ensures other == id {
            PurchaseOfUnique(View(), other, id, user, publication);
          }
          return Ok(purchases[id]);
        }
      }
      return Err(PurchaseNotFound);
    }

    method AddPublication(record: PublicationRecord, faults: Faults) returns (r: Result<(), CoreError>)
      modifies this
      ensures (View(), r) == StoreContents.AddPublication(old(View()), record, faults)
    {
      if WritePublication in faults {
        return Err(StorageFailed);
      }
      if record.publicationId in publications {
        return Err(RecordExists);
      }
      publications := publications[record.publicationId := record];
      return Ok(());
    }

    method Release(pair: (UserId, Id), original: CoreError, faults: Faults) returns (r: Result<(), CoreError>)
      modifies this
      ensures (View(), r) == Released(old(View()), pair, original, faults)
    {
      if ReleaseMarker in faults {
        return Err(StorageFailed);
      }
      pairs := pairs - {pair};
      return Err(original);
    }

    method AddPurchase(record: PurchaseRecord, faults: Faults) returns (r: Result<(), CoreError>)
      requires PairsMark(View())
      modifies this
      ensures (View(), r) == StoreContents.AddPurchase(old(View()), record, faults)
      ensures PairsMark(View())
    {
      AddPurchaseMarks(View(), record, faults);
      var pair := (record.userId, record.publicationId);
      if WriteMarker in faults {
        return Err(StorageFailed);
      }
      if pair in pairs {
        return Err(RecordExists);
      }
      pairs := pairs[pair := record.purchaseId];
      if WritePurchase in faults {
        r := Release(pair, StorageFailed, faults);
        return;
      }
      if record.purchaseId in purchases {
        r := Release(pair, RecordExists, faults);
        return;
      }
      purchases := purchases[record.purchaseId := record];
      return Ok(());
    }

    method FindReceipt(id: Id, device: DeviceKey, faults: Faults) returns (r: Result<ReceiptRecord, CoreError>)
      ensures r == StoreContents.FindReceipt(View(), id, device, faults)
    {
      if ReadReceipt in faults {
        return Err(StorageFailed);
      }
      return if (id, device) in receipts then Ok(receipts[(id, device)]) else Err(ReceiptNotFound);
    }

    method HasReceipt(id: Id, faults: Faults) returns (r: Result<bool, CoreError>)
      ensures r == StoreContents.HasReceipt(View(), id, faults)
    {
      if ListReceipts in faults {
        return Err(StorageFailed);
      }
      var left := receipts.Keys;
      while left != {}
        invariant left <= receipts.Keys
        invariant forall k | k in receipts && k !in left :: k.0 != id
        decreases left
      {
        var k :| k in left;
        left := left - {k};
        if k.0 == id {
          assert (id, k.1) in receipts;
          return Ok(true);
        }
      }
      assert forall device :: (id, device) !in receipts;
      return Ok(false);
    }

    method SaveReceipt(record: ReceiptRecord, faults: Faults) returns (r: Result<(), CoreError>)
      modifies this
      ensures (View(), r) == StoreContents.SaveReceipt(old(View()), record, faults)
    {
      if WriteReceipt in faults {
        return Err(StorageFailed);
      }
      receipts := receipts[(record.receipt.header.purchaseId, record.deviceKey) := record];
      return Ok(());
    }
  }

  class KeyStore {
    const primitives: Primitives
    var master: Option<Key>
    var fileKeys: map<Identity, Sealed>
    var drawn: nat

    ghost function View(): Keys
      reads this
    {
      Keys(master, fileKeys, drawn)
    }

    constructor (primitives: Primitives)
      ensures this.primitives == primitives && View() == Keys(None, map[], 0)
    {
      this.primitives := primitives;
      master, fileKeys, drawn := None, map[], 0;
    }

    method Generate(faults: Faults) returns (r: Result<Key, CoreError>)
      modifies this
      ensures (View(), r) == GenerateKey(old(View()), faults)
    {
      if DrawKey in faults {
        return Err(CryptoFailed);
      }
      r := Ok(drawn);
      drawn := drawn + 1;
    }

    method LoadMasterKey(faults: Faults) returns (r: Result<Key, CoreError>)
      ensures r == LoadMaster(View(), faults)
    {
      if ReadMaster in faults {
        return Err(StorageFailed);
      }
      return if master.Some? then Ok(master.value) else Err(KeyNotFound);
    }

    method LoadKey(identity: Identity, faults: Faults) returns (r: Result<Key, CoreError>)
      ensures r == LoadFileKey(View(), identity, faults)
    {
      var masterKey := LoadMasterKey(faults);
      if masterKey.Err? {
        return masterKey;
      }
      if ReadFileKey in faults {
        return Err(StorageFailed);
      }
      if identity !in fileKeys {
        return Err(KeyNotFound);
      }
      return UnwrapKey(fileKeys[identity], masterKey.value, identity);
    }

    method CreateMasterKey(faults: Faults) returns (r: Result<Key, CoreError>)
      modifies this
      ensures (View(), r) == CreateMaster(old(View()), faults)
    {
      if FindMaster in faults {
        return Err(StorageFailed);
      }
      if master.None? {
        if ListFileKeys in faults {
          return Err(StorageFailed);
        }
        if fileKeys != map[] {
          return Err(KeyNotFound);
        }
      }
      if OpenMaster in faults {
        return Err(StorageFailed);
      }
      if master.Some? {
        return Ok(master.value);
      }
      r := Generate(faults);
      if r.Err? {
        return;
      }
      if WriteMaster in faults {
        return Err(StorageFailed);
      }
      master := Some(r.value);
    }

    method ObtainKey(identity: Identity, faults: Faults) returns (r: Result<Key, CoreError>)
      modifies this
      ensures (View(), r) == ObtainFileKey(old(View()), identity, faults)
    {
      r := LoadKey(identity, faults);
      if r != Err(KeyNotFound) {
        return;
      }
      var masterKey := CreateMasterKey(faults);
      if masterKey.Err? {
        return masterKey;
      }
      r := Generate(Later(faults));
      if r.Err? {
        return;
      }
      if SealKey in faults {
        return Err(CryptoFailed);
      }
      if WriteFileKey in faults {
        return Err(StorageFailed);
      }
      fileKeys := fileKeys[identity := Sealed(masterKey.value, identity, KeyBytes(r.value))];
    }

    method Seal(identity: Identity, plaintext: seq<byte>, faults: Faults) returns (r: Result<Sealed, CoreError>)
      modifies this
      ensures (View(), r) == SealText(old(View()), identity, plaintext, faults)
    {
      var key := ObtainKey(identity, faults);
      if key.Err? {
        return Err(key.error);
      }
      if SealContent in faults {
        return Err(CryptoFailed);
      }
      return Ok(Sealed(key.value, identity, Text(plaintext)));
    }

    method Open(identity: Identity, sealed: Sealed, faults: Faults) returns (r: Result<seq<byte>, CoreError>)
      ensures r == OpenText(View(), identity, sealed, faults)
    {
      var key := LoadKey(identity, faults);
      if key.Err? {
        return Err(key.error);
      }
      var plain := Decrypt(sealed, key.value, identity);
      if plain.Err? {
        return Err(plain.error);
      }
      return if plain.value.Text? then Ok(plain.value.bytes) else Err(KeyMalformed);
    }

    method Wrap(identity: Identity, purchaseKey: Key, faults: Faults) returns (r: Result<Sealed, CoreError>)
      ensures r == WrapFileKey(View(), identity, purchaseKey, faults)
    {
      var key := LoadKey(identity, faults);
      if key.Err? {
        return Err(key.error);
      }
      if SealContent in faults {
        return Err(CryptoFailed);
      }
      return Ok(Sealed(purchaseKey, identity, KeyBytes(key.value)));
    }

    method SealMark(identity: Identity, context: Id, faults: Faults) returns (r: Result<Mark, CoreError>)
      ensures r == StoreContents.SealMark(primitives, View(), identity, context, faults)
    {
      var masterKey := LoadMasterKey(faults);
      if masterKey.Err? {
        return Err(masterKey.error);
      }
      var code := primitives.mac(primitives.markKeyOf(masterKey.value), identity, context, MARK_VERSION);
      return Ok(Mark(context, code, MARK_VERSION));
    }

    method VerifyMark(identity: Identity, mark: Mark, faults: Faults) returns (r: Result<bool, CoreError>)
      ensures r == StoreContents.VerifyMark(primitives, View(), identity, mark, faults)
    {
      var masterKey := LoadMasterKey(faults);
      if masterKey.Err? {
        return Err(masterKey.error);
      }
      var expected := primitives.mac(primitives.markKeyOf(masterKey.value), identity, mark.purchaseId, mark.version);
      return Ok(expected == mark.code);
    }
  }

  class IdentityRegistry {
    var claims: set<Identity>

    constructor ()
      ensures claims == {}
    {
      claims := {};
    }

    /** Creates the claim marker; true when this call created it. */
    method ClaimIdentity(identity: Identity, faults: Faults) returns (r: Result<bool, CoreError>)
      modifies this
      ensures Claim in faults ==> r == Err(StorageFailed) && claims == old(claims)
      ensures Claim !in faults ==> r == Ok(identity !in old(claims)) && claims == old(claims) + {identity}
    {
      if Claim in faults {
        return Err(StorageFailed);
      }
      r := Ok(identity !in claims);
      claims := claims + {identity};
    }

    method Release(identity: Identity, original: CoreError, faults: Faults) returns (e: CoreError)
      modifies this
      ensures ReleaseClaim in faults ==> e == StorageFailed && claims == old(claims)
      ensures ReleaseClaim !in faults ==> e == original && claims == old(claims) - {identity}
    {
      if ReleaseClaim in faults {
        return StorageFailed;
      }
      claims := claims - {identity};
      return original;
    }
  }

  class BlobStore {
    var blobs: map<Identity, Sealed>

    constructor ()
      ensures blobs == map[]
    {
      blobs := map[];
    }

    method Store(identity: Identity, blob: Sealed, faults: Faults) returns (r: Result<(), CoreError>)
      modifies this
      ensures WriteBlob in faults ==> r == Err(StorageFailed) && blobs == old(blobs)
      ensures WriteBlob !in faults ==> r == Ok(()) && blobs == old(blobs)[identity := blob]
    {
      if WriteBlob in faults {
        return Err(StorageFailed);
      }
      blobs := blobs[identity := blob];
      return Ok(());
    }

    method Load(identity: Identity, faults: Faults) returns (r: Result<Sealed, CoreError>)
      ensures r == LoadBlob(blobs, identity, faults)
    {
      if ReadBlob in faults {
        return Err(StorageFailed);
      }
      return if identity in blobs then Ok(blobs[identity]) else Err(BlobNotFound);
    }
  }
}
