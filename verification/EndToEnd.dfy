/**
 Whole runs of the server, every request taken as one step and any storage step of it allowed to
 fail: what a buyer fetches opens with the last receipt returned to the buyer's device, and is the
 published text up to its mark.
 */
module EndToEnd {
  import opened Bytes
  import opened Errors
  import opened Utf8
  import opened CanonicalForm
  import opened MarkCodec
  import opened MarkChannel
  import opened Crypto
  import opened StoreContents
  import opened Requests

  /** The stores, and beside them what the callers have seen: the drafts published and the last receipts returned. */
  datatype World = World(state: State, drafts: map<Id, seq<byte>>, returned: map<(Id, DeviceKey), Receipt>)

  datatype Event =
    | Registration(user: UserId, name: Name)
    | Publication(author: UserId, draft: Draft, authorKey: AuthorKey, signature: Signature, at: Timestamp,
                  identifier: Id, faults: Faults)
    | Purchase(user: UserId, publication: Id, device: DeviceKey, at: Timestamp, identifier: Id, faults: Faults)
    | Restoration(user: UserId, context: Id, device: DeviceKey, at: Timestamp, faults: Faults)
    | Delivery(user: UserId, context: Id, device: DeviceKey, faults: Faults)
    | MasterKeyDeleted

  const EMPTY := World(
    State(Metadata(map[], map[], map[], map[], map[]), Keys(None, map[], 0), {}, map[]), map[], map[])

  /** A drawn identifier is in use neither as a purchase nor as a publication. */
  predicate Enabled(w: World, e: Event) {
    (e.Publication? || e.Purchase?) ==>
      e.identifier !in w.state.metadata.publications && e.identifier !in w.state.metadata.purchases
  }

  function Seen(returned: map<(Id, DeviceKey), Receipt>, device: DeviceKey, r: Result<Receipt, CoreError>)
    : map<(Id, DeviceKey), Receipt>
  {
    if r.Ok? then returned[(r.value.header.purchaseId, device) := r.value] else returned
  }

  ghost function Apply(pr: Primitives, w: World, e: Event): World {
    match e
    case Registration(user, name) =>
      if user in w.state.metadata.users then w
      else w.(state := w.state.(metadata := w.state.metadata.(users := w.state.metadata.users[user := name])))
    case Publication(author, draft, authorKey, signature, at, identifier, faults) =>
      var (s, r) := Publish(pr, w.state, author, draft, authorKey, signature, at, identifier, faults);
      World(s, if r.Ok? then w.drafts[identifier := draft.content] else w.drafts, w.returned)
    case Purchase(user, publication, device, at, identifier, faults) =>
      var (s, r) := Buy(w.state, user, publication, device, at, identifier, faults);
      World(s, w.drafts, Seen(w.returned, device, r))
    case Restoration(user, context, device, at, faults) =>
      var (s, r) := Restore(w.state, user, context, device, at, faults);
      World(s, w.drafts, Seen(w.returned, device, r))
    case Delivery(user, context, device, faults) =>
      var (s, r) := Fetch(pr, w.state, user, context, device, faults);
      w.(state := s)
    case MasterKeyDeleted =>
      w.(state := w.state.(keys := w.state.keys.(master := None)))
  }

  /** A run from empty stores: `worlds[i]` is what the first `i` events lead to. */
  ghost predicate Run(pr: Primitives, worlds: seq<World>, events: seq<Event>) {
    && |worlds| == |events| + 1 && worlds[0] == EMPTY
    && forall i | 0 <= i < |events| :: Enabled(worlds[i], events[i]) && worlds[i + 1] == Apply(pr, worlds[i], events[i])
  }

  // ----- the invariant -----

  /** A recorded publication is claimed, and its blob holds the canonical form of its draft under its file key. */
  ghost predicate PublicationSound(pr: Primitives, w: World, id: Id)
    requires id in w.state.metadata.publications
  {
    var record := w.state.metadata.publications[id];
    && record.publicationId == id
    && id in w.drafts
    && ValidText(w.drafts[id])
    && var canonical := Canonical(w.drafts[id]);
    && record.identity == ContentIdentity(pr, canonical)
    && record.identity in w.state.claims
    && HasFileKey(w.state.keys, record.identity)
    && record.identity in w.state.blobs
    && w.state.blobs[record.identity]
       == Sealed(FileKey(w.state.keys, record.identity), record.identity, Text(canonical))
    && pr.signed(record.identity, record.authorName, record.signature, record.authorKey)
    && record.algorithm == SIGNATURE_ALGORITHM
  }

  ghost predicate PublicationsSound(pr: Primitives, w: World) {
    && (forall id | id in w.state.metadata.publications :: PublicationSound(pr, w, id))
    && (forall a, b | a in w.state.metadata.publications && b in w.state.metadata.publications ::
          w.state.metadata.publications[a].identity == w.state.metadata.publications[b].identity ==> a == b)
  }

  predicate IsContext(m: Metadata, context: Id) {
    || (context in m.purchases && m.purchases[context].publicationId in m.publications)
    || (context !in m.purchases && context in m.publications)
  }

  /** The publication a context gives access to: the one bought, or the author's own. */
  function PublicationOf(m: Metadata, context: Id): Id
    requires IsContext(m, context)
  {
    if context in m.purchases then m.purchases[context].publicationId else context
  }

  function IdentityOf(m: Metadata, context: Id): Identity
    requires IsContext(m, context)
  {
    m.publications[PublicationOf(m, context)].identity
  }

  /** Purchases are of publications by others, and no identifier names both a purchase and a publication. */
  ghost predicate PurchasesSound(m: Metadata) {
    && PairsMark(m)
    && forall id | id in m.purchases ::
         && id !in m.publications && m.purchases[id].publicationId in m.publications
         && m.publications[m.purchases[id].publicationId].authorId != m.purchases[id].userId
  }

  /** A stored receipt is the last one returned, and wraps the file key of its context for its device. */
  ghost predicate ReceiptSound(w: World, context: Id, device: DeviceKey)
    requires (context, device) in w.state.metadata.receipts
  {
    var m := w.state.metadata;
    var record := m.receipts[(context, device)];
    var receipt := record.receipt;
    && record.deviceKey == device
    && receipt.header.purchaseId == context
    && receipt.header.version == RECEIPT_VERSION
    && receipt.wrappedKey.device == device
    && receipt.wrappedKey.bound == receipt.header
    && (context, device) in w.returned
    && w.returned[(context, device)] == receipt
    && IsContext(m, context)
    && HasFileKey(w.state.keys, IdentityOf(m, context))
    && record.wrappedBlobKey ==
         Sealed(receipt.wrappedKey.key, IdentityOf(m, context), KeyBytes(FileKey(w.state.keys, IdentityOf(m, context))))
  }

  ghost predicate ReceiptsSound(w: World) {
    && (forall context, device | (context, device) in w.state.metadata.receipts :: ReceiptSound(w, context, device))
    && (forall k | k in w.returned :: k in w.state.metadata.receipts)
  }

  ghost predicate Sound(pr: Primitives, w: World) {
    KeysSound(w.state.keys) && PublicationsSound(pr, w) && PurchasesSound(w.state.metadata) && ReceiptsSound(w)
  }

  // ----- keys -----

  /** File keys are only ever added, and a key obtained for an identity is the one stored for it. */
  lemma ObtainKeeps(k: Keys, identity: Identity, faults: Faults)
    requires KeysSound(k)
    ensures var (after, r) := ObtainFileKey(k, identity, faults);
            && KeysSound(after)
            && (forall i | i in k.fileKeys :: i in after.fileKeys && after.fileKeys[i] == k.fileKeys[i])
            && (r.Ok? ==> HasFileKey(after, identity) && FileKey(after, identity) == r.value)
            && (k.fileKeys != map[] ==> after.master == k.master)
  {
  }

  /** Loading a file key for an identity leaves nothing for obtaining it to do. */
  lemma LoadedIsObtained(k: Keys, identity: Identity, faults: Faults, later: Faults)
    requires LoadFileKey(k, identity, faults).Ok?
    ensures ObtainFileKey(k, identity, later) == (k, LoadFileKey(k, identity, later))
    ensures LoadFileKey(k, identity, later).Ok? ==> LoadFileKey(k, identity, later) == LoadFileKey(k, identity, faults)
  {
  }

  lemma LoadedFileKey(k: Keys, identity: Identity, faults: Faults)
    requires KeysSound(k) && LoadFileKey(k, identity, faults).Ok?
    ensures HasFileKey(k, identity) && LoadFileKey(k, identity, faults).value == FileKey(k, identity)
  {
  }

  // ----- what each request keeps -----

  /** `next` has everything `w` has: keys, claimed blobs, publications with their drafts, and contexts. */
  ghost predicate Extends(w: World, next: World) {
    && KeysGrow(w.state.keys, next.state.keys)
    && (forall i | i in w.state.claims ::
          && i in next.state.claims
          && (i in w.state.blobs ==> i in next.state.blobs && next.state.blobs[i] == w.state.blobs[i]))
    && (forall id | id in w.state.metadata.publications ::
          && id in next.state.metadata.publications
          && next.state.metadata.publications[id] == w.state.metadata.publications[id]
          && (id in w.drafts ==> id in next.drafts && next.drafts[id] == w.drafts[id]))
    && (forall id | id in w.state.metadata.purchases ::
          id in next.state.metadata.purchases && next.state.metadata.purchases[id] == w.state.metadata.purchases[id])
    && (forall id | id in next.state.metadata.purchases && id !in w.state.metadata.purchases ::
          id !in w.state.metadata.publications)
  }

  lemma ExtendsPublication(pr: Primitives, w: World, next: World, id: Id)
    requires Extends(w, next) && id in w.state.metadata.publications && PublicationSound(pr, w, id)
    ensures PublicationSound(pr, next, id)
  {
    hide ValidText, Canonical, ContentIdentity;
  }

  lemma ExtendsReceipt(w: World, next: World, context: Id, device: DeviceKey)
    requires Extends(w, next) && (context, device) in w.state.metadata.receipts && ReceiptSound(w, context, device)
    requires (context, device) in next.state.metadata.receipts && (context, device) in next.returned
    requires next.state.metadata.receipts[(context, device)] == w.state.metadata.receipts[(context, device)]
    requires next.returned[(context, device)] == w.returned[(context, device)]
    ensures ReceiptSound(next, context, device)
  {
    assert IsContext(next.state.metadata, context);
    assert IdentityOf(next.state.metadata, context) == IdentityOf(w.state.metadata, context);
  }

  /** Growing the stores without touching publications and receipts keeps everything sound. */
  lemma ExtendsKeeps(pr: Primitives, w: World, next: World)
    requires Sound(pr, w) && Extends(w, next) && KeysSound(next.state.keys) && PurchasesSound(next.state.metadata)
    requires next.state.metadata.publications == w.state.metadata.publications
    requires next.state.metadata.receipts == w.state.metadata.receipts && next.returned == w.returned
    ensures Sound(pr, next)
  {
    hide PublicationSound, ReceiptSound, Extends, PurchasesSound, KeysSound;
    forall id | id in next.state.metadata.publications ensures PublicationSound(pr, next, id) {
      ExtendsPublication(pr, w, next, id);
    }
    forall context, device | (context, device) in next.state.metadata.receipts
      ensures ReceiptSound(next, context, device)
    {
      ReceiptReturned(w, context, device);
      ExtendsReceipt(w, next, context, device);
    }
  }

  /** Of the keys, publishing writes those of sealing the canonical text and no more. */
  lemma PublishKeys(pr: Primitives, s: State, e: Event)
    requires e.Publication?
    ensures var after := Publish(pr, s, e.author, e.draft, e.authorKey, e.signature, e.at, e.identifier, e.faults).0;
            var canonical := Canonical(e.draft.content);
            || after.keys == s.keys
            || after.keys == SealText(s.keys, ContentIdentity(pr, canonical), canonical, e.faults).0
  {
    hide ValidText, Canonical, ContentIdentity, SealText;
  }

  lemma PublishKeysGrow(pr: Primitives, s: State, e: Event)
    requires KeysSound(s.keys) && e.Publication?
    ensures var after := Publish(pr, s, e.author, e.draft, e.authorKey, e.signature, e.at, e.identifier, e.faults).0;
            KeysSound(after.keys) && KeysGrow(s.keys, after.keys)
  {
    hide Publish, Canonical, ContentIdentity, ObtainFileKey;
    PublishKeys(pr, s, e);
    ObtainKeeps(s.keys, ContentIdentity(pr, Canonical(e.draft.content)), e.faults);
  }

  lemma PublishLeaves(pr: Primitives, s: State, e: Event)
    requires KeysSound(s.keys) && e.Publication?
    ensures var (after, r) := Publish(pr, s, e.author, e.draft, e.authorKey, e.signature, e.at, e.identifier, e.faults);
            var identity := ContentIdentity(pr, Canonical(e.draft.content));
            && s.claims <= after.claims
            && (forall i | i in s.blobs && (i != identity || identity in s.claims) ::
                  i in after.blobs && after.blobs[i] == s.blobs[i])
            && (r.Err? ==> after.metadata == s.metadata)
  {
    hide ValidText, Canonical, ContentIdentity, SealText, KeysSound;
  }

  lemma PublishWrites(pr: Primitives, s: State, e: Event)
    requires KeysSound(s.keys) && e.Publication?
    ensures var (after, r) := Publish(pr, s, e.author, e.draft, e.authorKey, e.signature, e.at, e.identifier, e.faults);
            var canonical := Canonical(e.draft.content);
            var identity := ContentIdentity(pr, canonical);
            && (r.Ok? ==>
                  && ValidText(e.draft.content) && identity !in s.claims && identity in after.claims
                  && r.value.publicationId == e.identifier && r.value.identity == identity
                  && HasFileKey(after.keys, identity)
                  && identity in after.blobs
                  && after.blobs[identity] == Sealed(FileKey(after.keys, identity), identity, Text(canonical))
                  && pr.signed(identity, r.value.authorName, r.value.signature, r.value.authorKey)
                  && r.value.algorithm == SIGNATURE_ALGORITHM
                  && after.metadata == s.metadata.(publications := s.metadata.publications[e.identifier := r.value]))
  {
    hide ValidText, Canonical;
    ObtainKeeps(s.keys, ContentIdentity(pr, Canonical(e.draft.content)), e.faults);
  }

  /** What publishing leaves behind: keys, a blob and a claim for its identity alone, and a record when it succeeds. */
  lemma PublishOutcome(pr: Primitives, s: State, e: Event)
    requires KeysSound(s.keys) && e.Publication?
    ensures var (after, r) := Publish(pr, s, e.author, e.draft, e.authorKey, e.signature, e.at, e.identifier, e.faults);
            var canonical := Canonical(e.draft.content);
            var identity := ContentIdentity(pr, canonical);
            && KeysSound(after.keys) && KeysGrow(s.keys, after.keys)
            && s.claims <= after.claims
            && (forall i | i in s.blobs && (i != identity || identity in s.claims) ::
                  i in after.blobs && after.blobs[i] == s.blobs[i])
            && (r.Err? ==> after.metadata == s.metadata)
            && (r.Ok? ==>
                  && ValidText(e.draft.content) && identity !in s.claims && identity in after.claims
                  && r.value.publicationId == e.identifier && r.value.identity == identity
                  && HasFileKey(after.keys, identity)
                  && identity in after.blobs
                  && after.blobs[identity] == Sealed(FileKey(after.keys, identity), identity, Text(canonical))
                  && pr.signed(identity, r.value.authorName, r.value.signature, r.value.authorKey)
                  && r.value.algorithm == SIGNATURE_ALGORITHM
                  && after.metadata == s.metadata.(publications := s.metadata.publications[e.identifier := r.value]))
  {
    hide Publish, ContentIdentity, Canonical, ValidText, KeysSound, KeysGrow;
    PublishKeysGrow(pr, s, e);
    PublishLeaves(pr, s, e);
    PublishWrites(pr, s, e);
  }

  /** What is recorded of a publication is what was submitted, under the author's registered name. */
  lemma PublishedRecord(pr: Primitives, s: State, e: Event)
    requires e.Publication?
    ensures var (after, r) := Publish(pr, s, e.author, e.draft, e.authorKey, e.signature, e.at, e.identifier, e.faults);
            r.Ok? ==>
              && e.author in s.metadata.users && r.value.authorId == e.author
              && r.value.authorName == s.metadata.users[e.author]
              && r.value.title == e.draft.title && r.value.fileName == e.draft.fileName && r.value.publishedAt == e.at
              && r.value.size == |Canonical(e.draft.content)| <= |e.draft.content|
              && r.value.authorKey == e.authorKey && r.value.signature == e.signature
              && e.identifier in after.metadata.publications && after.metadata.publications[e.identifier] == r.value
  {
    hide ValidText, Canonical, ContentIdentity, ObtainFileKey;
    CanonicalNeverLonger(e.draft.content);
  }

  lemma PublishKeeps(pr: Primitives, w: World, e: Event)
    requires Sound(pr, w) && e.Publication? && Enabled(w, e)
    ensures Sound(pr, Apply(pr, w, e))
  {
    hide ValidText, Canonical, ContentIdentity, Publish, PublicationSound, ReceiptSound, KeysSound, PurchasesSound;
    var s := w.state;
    var (after, r) := Publish(pr, s, e.author, e.draft, e.authorKey, e.signature, e.at, e.identifier, e.faults);
    PublishOutcome(pr, s, e);
    var grown := w.(state := after.(metadata := s.metadata));
    PublishedIsClaimed(pr, w, ContentIdentity(pr, Canonical(e.draft.content)));
    ExtendsKeeps(pr, w, grown);
    if r.Ok? {
      Recorded(pr, grown, r.value, e.draft.content);
    }
  }

  predicate Unpublished(w: World, identity: Identity) {
    identity !in w.state.claims ==>
      forall id | id in w.state.metadata.publications :: w.state.metadata.publications[id].identity != identity
  }

  lemma PublishedIsClaimed(pr: Primitives, w: World, identity: Identity)
    requires PublicationsSound(pr, w)
    ensures Unpublished(w, identity)
  {
    hide ValidText, Canonical, ContentIdentity;
    forall id | id in w.state.metadata.publications
      ensures w.state.metadata.publications[id].identity in w.state.claims
    {
      assert PublicationSound(pr, w, id);
    }
  }

  /** The record names an identity that is claimed, keyed and stored for the draft, and not yet published. */
  ghost predicate Publishable(pr: Primitives, w: World, record: PublicationRecord, draft: seq<byte>) {
    && record.publicationId !in w.state.metadata.publications && record.publicationId !in w.state.metadata.purchases
    && (forall id | id in w.state.metadata.publications ::
        w.state.metadata.publications[id].identity != record.identity)
    && ValidText(draft) && record.identity == ContentIdentity(pr, Canonical(draft)) && record.identity in w.state.claims
    && HasFileKey(w.state.keys, record.identity) && record.identity in w.state.blobs
    && w.state.blobs[record.identity]
       == Sealed(FileKey(w.state.keys, record.identity), record.identity, Text(Canonical(draft)))
    && pr.signed(record.identity, record.authorName, record.signature, record.authorKey)
    && record.algorithm == SIGNATURE_ALGORITHM
  }

  function WithRecord(w: World, record: PublicationRecord, draft: seq<byte>): World {
    var m := w.state.metadata.(publications := w.state.metadata.publications[record.publicationId := record]);
    World(w.state.(metadata := m), w.drafts[record.publicationId := draft], w.returned)
  }

  lemma RecordExtends(pr: Primitives, w: World, record: PublicationRecord, draft: seq<byte>)
    requires PurchasesSound(w.state.metadata) && Publishable(pr, w, record, draft)
    ensures Extends(w, WithRecord(w, record, draft)) && PurchasesSound(WithRecord(w, record, draft).state.metadata)
    ensures PublicationSound(pr, WithRecord(w, record, draft), record.publicationId)
  {
    hide ValidText, Canonical, ContentIdentity;
  }

  lemma Recorded(pr: Primitives, w: World, record: PublicationRecord, draft: seq<byte>)
    requires Sound(pr, w) && Publishable(pr, w, record, draft)
    ensures Sound(pr, WithRecord(w, record, draft))
  {
    hide ValidText, Canonical, ContentIdentity, ReceiptSound, PublicationSound, KeysSound, Extends, PurchasesSound;
    var next := WithRecord(w, record, draft);
    RecordExtends(pr, w, record, draft);
    forall id | id in next.state.metadata.publications ensures PublicationSound(pr, next, id) {
      if id != record.publicationId {
        ExtendsPublication(pr, w, next, id);
      }
    }
    forall context, device | (context, device) in next.state.metadata.receipts
      ensures ReceiptSound(next, context, device)
    {
      ReceiptReturned(w, context, device);
      ExtendsReceipt(w, next, context, device);
    }
  }

  /** What a successful issue stores, and that a failed one only draws keys. */
  lemma IssueOutcome(s: State, context: Id, user: UserId, publication: PublicationRecord, grantedAt: Timestamp,
                     device: DeviceKey, issuedAt: Timestamp, faults: Faults)
    requires KeysSound(s.keys)
    ensures var (after, r) := Issue(s, context, user, publication, grantedAt, device, issuedAt, faults);
            var header := Header(RECEIPT_VERSION, context, user, grantedAt, issuedAt);
            var receipt := Receipt(header, Envelope(device, header, s.keys.drawn));
            && after.claims == s.claims && after.blobs == s.blobs
            && after.keys.fileKeys == s.keys.fileKeys && KeysSound(after.keys)
            && (r.Err? ==> after.metadata == s.metadata)
            && (r.Ok? ==>
                  && r.value == receipt
                  && HasFileKey(s.keys, publication.identity)
                  && after.metadata == s.metadata.(receipts := s.metadata.receipts[(context, device) := ReceiptRecord(
                       device,
                       Sealed(s.keys.drawn, publication.identity, KeyBytes(FileKey(s.keys, publication.identity))),
                       receipt)]))
  {
  }

  lemma IssuedReceiptSound(w: World, next: World, context: Id, user: UserId, grantedAt: Timestamp, device: DeviceKey,
                           issuedAt: Timestamp, faults: Faults)
    requires KeysSound(w.state.keys) && IsContext(w.state.metadata, context)
    requires var publication := w.state.metadata.publications[PublicationOf(w.state.metadata, context)];
             var (s, r) := Issue(w.state, context, user, publication, grantedAt, device, issuedAt, faults);
             r.Ok? && next == World(s, w.drafts, Seen(w.returned, device, r))
    ensures (context, device) in next.state.metadata.receipts && ReceiptSound(next, context, device)
    ensures Extends(w, next) && KeysSound(next.state.keys)
  {
    hide Issue;
    var publication := w.state.metadata.publications[PublicationOf(w.state.metadata, context)];
    IssueOutcome(w.state, context, user, publication, grantedAt, device, issuedAt, faults);
  }

  lemma IssuedKeeps(pr: Primitives, w: World, next: World, context: Id, user: UserId, grantedAt: Timestamp,
                    device: DeviceKey, issuedAt: Timestamp, faults: Faults)
    requires Sound(pr, w) && IsContext(w.state.metadata, context)
    requires var publication := w.state.metadata.publications[PublicationOf(w.state.metadata, context)];
             var (s, r) := Issue(w.state, context, user, publication, grantedAt, device, issuedAt, faults);
             r.Ok? && next == World(s, w.drafts, Seen(w.returned, device, r))
    ensures Sound(pr, next)
  {
    hide PublicationSound, Issue, KeysSound, ReceiptSound, Extends;
    var publication := w.state.metadata.publications[PublicationOf(w.state.metadata, context)];
    IssueOutcome(w.state, context, user, publication, grantedAt, device, issuedAt, faults);
    IssuedReceiptSound(w, next, context, user, grantedAt, device, issuedAt, faults);
    forall id | id in next.state.metadata.publications ensures PublicationSound(pr, next, id) {
      ExtendsPublication(pr, w, next, id);
    }
    forall c, d | (c, d) in next.state.metadata.receipts ensures ReceiptSound(next, c, d) {
      if (c, d) != (context, device) {
        ReceiptReturned(w, c, d);
        ExtendsReceipt(w, next, c, d);
      }
    }
  }

  /** Issuing for a known context stores exactly the receipt that is returned. */
  lemma IssueKeeps(pr: Primitives, w: World, context: Id, user: UserId, grantedAt: Timestamp, device: DeviceKey,
                   issuedAt: Timestamp, faults: Faults)
    requires Sound(pr, w) && IsContext(w.state.metadata, context)
    ensures var publication := w.state.metadata.publications[PublicationOf(w.state.metadata, context)];
            var (s, r) := Issue(w.state, context, user, publication, grantedAt, device, issuedAt, faults);
            Sound(pr, World(s, w.drafts, Seen(w.returned, device, r)))
  {
    hide PublicationSound, Issue, KeysSound, ReceiptSound, Extends;
    var publication := w.state.metadata.publications[PublicationOf(w.state.metadata, context)];
    var (s, r) := Issue(w.state, context, user, publication, grantedAt, device, issuedAt, faults);
    if r.Ok? {
      IssuedKeeps(pr, w, World(s, w.drafts, Seen(w.returned, device, r)), context, user, grantedAt, device, issuedAt,
                  faults);
    } else {
      IssueOutcome(w.state, context, user, publication, grantedAt, device, issuedAt, faults);
      KeysGrown(w, w.(state := s));
      ExtendsKeeps(pr, w, w.(state := s));
    }
  }

  lemma KeysGrown(w: World, next: World)
    requires next == w.(state := w.state.(keys := next.state.keys)) && KeysGrow(w.state.keys, next.state.keys)
    ensures Extends(w, next)
  {
  }

  lemma ReceiptReturned(w: World, context: Id, device: DeviceKey)
    requires ReceiptsSound(w) && (context, device) in w.state.metadata.receipts
    ensures (context, device) in w.returned
  {
    assert ReceiptSound(w, context, device);
  }

  lemma StoredReturned(pr: Primitives, w: World, context: Id, device: DeviceKey)
    requires Sound(pr, w) && (context, device) in w.state.metadata.receipts
    ensures var receipt := w.state.metadata.receipts[(context, device)].receipt;
            Seen(w.returned, device, Ok(receipt)) == w.returned && receipt.header.purchaseId == context
  {
    assert ReceiptSound(w, context, device);
  }

  lemma ReceiptForKeeps(pr: Primitives, w: World, id: Id, device: DeviceKey, issuedAt: Timestamp, faults: Faults)
    requires Sound(pr, w) && id in w.state.metadata.purchases
    ensures var (s, r) := ReceiptFor(w.state, w.state.metadata.purchases[id], device, issuedAt, faults);
            Sound(pr, World(s, w.drafts, Seen(w.returned, device, r)))
  {
    hide PublicationsSound, ReceiptsSound, PublicationSound, ReceiptSound, KeysSound, Issue;
    var purchase := w.state.metadata.purchases[id];
    if (id, device) in w.state.metadata.receipts {
      StoredReturned(pr, w, id, device);
    }
    IssueKeeps(pr, w, id, purchase.userId, purchase.purchasedAt, device, issuedAt, faults);
  }

  /** A new purchase record under an unused identifier changes no context that existed. */
  lemma PurchaseAdded(pr: Primitives, w: World, record: PurchaseRecord, faults: Faults)
    requires Sound(pr, w)
    requires record.publicationId in w.state.metadata.publications
    requires w.state.metadata.publications[record.publicationId].authorId != record.userId
    requires record.purchaseId !in w.state.metadata.publications && record.purchaseId !in w.state.metadata.purchases
    ensures var (m, r) := AddPurchase(w.state.metadata, record, faults);
            Sound(pr, w.(state := w.state.(metadata := m)))
  {
    hide PublicationsSound, ReceiptsSound, PublicationSound, ReceiptSound, KeysSound, AddPurchase, PurchasesSound,
      Extends;
    PurchaseExtends(w, record, faults);
    ExtendsKeeps(pr, w, w.(state := w.state.(metadata := AddPurchase(w.state.metadata, record, faults).0)));
  }

  lemma PurchaseExtends(w: World, record: PurchaseRecord, faults: Faults)
    requires PurchasesSound(w.state.metadata)
    requires record.publicationId in w.state.metadata.publications
    requires w.state.metadata.publications[record.publicationId].authorId != record.userId
    requires record.purchaseId !in w.state.metadata.publications && record.purchaseId !in w.state.metadata.purchases
    ensures var (m, r) := AddPurchase(w.state.metadata, record, faults);
            && Extends(w, w.(state := w.state.(metadata := m))) && PurchasesSound(m)
            && m.publications == w.state.metadata.publications && m.receipts == w.state.metadata.receipts
  {
    hide PairsMark, AddPurchase;
    AddPurchaseMarks(w.state.metadata, record, faults);
    var (_, r) := AddPurchase(w.state.metadata, record, faults);
    assert r.Ok? || r.Err?;
  }

  lemma BuyKeeps(pr: Primitives, w: World, e: Event)
    requires Sound(pr, w) && e.Purchase? && Enabled(w, e)
    ensures Sound(pr, Apply(pr, w, e))
  {
    hide PublicationsSound, ReceiptsSound, PublicationSound, ReceiptSound, KeysSound, Issue, ReceiptFor;
    var m := w.state.metadata;
    var existing := FindPurchaseOf(m, e.user, e.publication, e.faults);
    if existing.Ok? {
      ReceiptForKeeps(pr, w, existing.value.purchaseId, e.device, e.at, e.faults);
    } else if existing.error == PurchaseNotFound && FindPublication(m, e.publication, e.faults).Ok? {
      var publication := m.publications[e.publication];
      if publication.authorId == e.user {
        if (e.publication, e.device) in m.receipts {
          StoredReturned(pr, w, e.publication, e.device);
        }
        assert e.publication !in m.purchases;
        IssueKeeps(pr, w, e.publication, e.user, publication.publishedAt, e.device, e.at, e.faults);
      } else if DrawIdentifier !in e.faults {
        BuyNewKeeps(pr, w, e);
      }
    }
  }

  lemma BuyNewKeeps(pr: Primitives, w: World, e: Event)
    requires Sound(pr, w) && e.Purchase? && Enabled(w, e)
    requires e.publication in w.state.metadata.publications
             && w.state.metadata.publications[e.publication].authorId != e.user
    ensures var m := w.state.metadata;
            var record := PurchaseRecord(e.identifier, e.user, e.publication, e.at);
            var (added, r) := AddPurchase(m, record, e.faults);
            var marked := w.(state := w.state.(metadata := added));
            var publication := m.publications[e.publication];
            && Sound(pr, marked)
            && (r.Ok? ==>
                  var (s, receipt) := Issue(marked.state, e.identifier, e.user, publication, e.at, e.device, e.at,
                                            e.faults);
                  Sound(pr, World(s, w.drafts, Seen(w.returned, e.device, receipt))))
            && var concurrent := FindPurchaseOf(added, e.user, e.publication, Later(e.faults));
            && (concurrent.Ok? ==>
                  var (s, receipt) := ReceiptFor(marked.state, concurrent.value, e.device, e.at, Later(e.faults));
                  Sound(pr, World(s, w.drafts, Seen(w.returned, e.device, receipt))))
  {
    hide PublicationsSound, ReceiptsSound, PublicationSound, ReceiptSound, KeysSound, Issue, ReceiptFor;
    var m := w.state.metadata;
    var record := PurchaseRecord(e.identifier, e.user, e.publication, e.at);
    var (added, r) := AddPurchase(m, record, e.faults);
    var marked := w.(state := w.state.(metadata := added));
    PurchaseAdded(pr, w, record, e.faults);
    if r.Ok? {
      IssueKeeps(pr, marked, e.identifier, e.user, e.at, e.device, e.at, e.faults);
    }
    var concurrent := FindPurchaseOf(added, e.user, e.publication, Later(e.faults));
    if concurrent.Ok? {
      ReceiptForKeeps(pr, marked, concurrent.value.purchaseId, e.device, e.at, Later(e.faults));
    }
  }

  /** Fetching opens what it then seals again, so it never creates a key. */
  lemma FetchChangesNothing(pr: Primitives, s: State, user: UserId, context: Id, device: DeviceKey, faults: Faults)
    ensures Fetch(pr, s, user, context, device, faults).0 == s
  {
    var access := ResolveAccess(s.metadata, user, context, faults);
    if access.Ok? {
      var identity := access.value.publication.identity;
      if LoadFileKey(s.keys, identity, Later(faults)).Ok? {
        LoadedIsObtained(s.keys, identity, Later(faults), Later(Later(faults)));
      }
    }
  }

  lemma ResolvedContext(pr: Primitives, w: World, context: Id, faults: Faults)
    requires Sound(pr, w) && ResolveContext(w.state.metadata, context, faults).Ok?
    ensures IsContext(w.state.metadata, context)
    ensures var access := ResolveContext(w.state.metadata, context, faults).value;
            access.contextId == context &&
            access.publication == w.state.metadata.publications[PublicationOf(w.state.metadata, context)]
  {
    hide PublicationsSound, ReceiptsSound, KeysSound, PairsMark;
  }

  lemma StepKeeps(pr: Primitives, w: World, e: Event)
    requires Sound(pr, w) && Enabled(w, e)
    ensures Sound(pr, Apply(pr, w, e))
  {
    hide PublicationsSound, ReceiptsSound, PublicationSound, ReceiptSound, Issue, Publish, Buy, Fetch;
    match e
    case Registration(user, name) => ExtendsKeeps(pr, w, Apply(pr, w, e));
    case Publication(_, _, _, _, _, _, _) => PublishKeeps(pr, w, e);
    case Purchase(_, _, _, _, _, _) => BuyKeeps(pr, w, e);
    case Restoration(user, context, device, at, faults) =>
      var access := ResolveAccess(w.state.metadata, user, context, faults);
      if access.Ok? {
        ResolvedContext(pr, w, context, faults);
        IssueKeeps(pr, w, context, user, access.value.grantedAt, device, at, faults);
      }
    case Delivery(user, context, device, faults) =>
      FetchChangesNothing(pr, w.state, user, context, device, faults);
    case MasterKeyDeleted =>
      ExtendsKeeps(pr, w, Apply(pr, w, e));
  }

  lemma {:induction false} RunsAreSound(pr: Primitives, worlds: seq<World>, events: seq<Event>, i: nat)
    requires Run(pr, worlds, events) && i < |worlds|
    ensures Sound(pr, worlds[i])
  {
    if i > 0 {
      hide Sound, Apply, Enabled;
      RunsAreSound(pr, worlds, events, i - 1);
      StepKeeps(pr, worlds[i - 1], events[i - 1]);
    }
  }

  // ----- the promises -----

  /** A fetch that succeeds seals, under the file key it opened the blob with, the text it found or its marked form. */
  lemma FetchOutcome(pr: Primitives, s: State, user: UserId, context: Id, device: DeviceKey, faults: Faults)
    requires Fetch(pr, s, user, context, device, faults).1.Ok?
    ensures var package := Fetch(pr, s, user, context, device, faults).1.value;
            var access := ResolveContext(s.metadata, context, faults);
            && access.Ok? && access.value.userId == user
            && var record := access.value.publication;
            var key := LoadFileKey(s.keys, record.identity, Later(faults));
            var mark := SealMark(pr, s.keys, record.identity, context, faults);
            && (context, device) in s.metadata.receipts
            && mark.Ok? && key.Ok?
            && record.identity in s.blobs
            && var plain := Decrypt(s.blobs[record.identity], key.value, record.identity);
            && plain.Ok? && plain.value.Text?
            && var text := plain.value.bytes;
            && package.content ==
               (if HasChannel(text) then Sealed(key.value, record.identity, Text(Embedded(text, mark.value).value))
                else s.blobs[record.identity])
            && package == Package(
                 PACKAGE_VERSION, package.content, s.metadata.receipts[(context, device)].wrappedBlobKey,
                 record.identity, record.authorKey, record.authorName, record.algorithm, record.signature)
  {
    hide HasChannel, ObtainFileKey, LoadFileKey, ResolveContext;
    var identity := ResolveContext(s.metadata, context, faults).value.publication.identity;
    if LoadFileKey(s.keys, identity, Later(faults)).Ok? {
      LoadedIsObtained(s.keys, identity, Later(faults), Later(Later(faults)));
    }
  }

  /** What a delivered package holds: the canonical text, marked for the context when it has a channel. */
  lemma Delivered(pr: Primitives, w: World, user: UserId, context: Id, device: DeviceKey, faults: Faults)
    requires Sound(pr, w)
    requires Fetch(pr, w.state, user, context, device, faults).1.Ok?
    ensures IsContext(w.state.metadata, context)
    ensures var package := Fetch(pr, w.state, user, context, device, faults).1.value;
            var m := w.state.metadata;
            var record := m.publications[PublicationOf(m, context)];
            var mark := SealMark(pr, w.state.keys, record.identity, context, faults);
            && (context, device) in m.receipts
            && PublicationOf(m, context) in w.drafts
            && mark.Ok?
            && HasFileKey(w.state.keys, record.identity)
            && var canonical := Canonical(w.drafts[PublicationOf(m, context)]);
            && package == Package(
                 PACKAGE_VERSION,
                 Sealed(FileKey(w.state.keys, record.identity), record.identity,
                        Text(if HasChannel(canonical) then Embedded(canonical, mark.value).value else canonical)),
                 m.receipts[(context, device)].wrappedBlobKey, record.identity, record.authorKey, record.authorName,
                 record.algorithm, record.signature)
  {
    hide Fetch, HasChannel, Embedded, Canonical, ContentIdentity, ValidText, ReceiptsSound, LoadFileKey, SealMark,
      ResolveContext;
    FetchOutcome(pr, w.state, user, context, device, faults);
    ResolvedContext(pr, w, context, faults);
    var id := PublicationOf(w.state.metadata, context);
    assert PublicationSound(pr, w, id);
    LoadedFileKey(w.state.keys, w.state.metadata.publications[id].identity, Later(faults));
  }

  /** The package opens under the key inside the receipt, on its device, to the canonical text or its marked form. */
  ghost predicate OpensTo(pr: Primitives, package: Package, receipt: Receipt, private: DevicePrivateKey,
                          draft: seq<byte>) {
    && OpenReceiptKey(pr, receipt, private).Ok?
    && var content := OpenPackage(pr, package, OpenReceiptKey(pr, receipt, private).value);
    && content.Ok?
    && Canonical(content.value) == Canonical(draft)
    && (content.value == Canonical(draft) || exists mark :: Embedded(Canonical(draft), mark) == Some(content.value))
  }

  lemma SoundFetchOpens(pr: Primitives, w: World, user: UserId, context: Id, device: DeviceKey,
                        private: DevicePrivateKey, faults: Faults)
    requires Sound(pr, w) && pr.publicOf(private) == device
    requires Fetch(pr, w.state, user, context, device, faults).1.Ok?
    ensures (context, device) in w.returned && (context, device) in w.state.metadata.receipts
    ensures w.state.metadata.receipts[(context, device)].receipt == w.returned[(context, device)]
    ensures IsContext(w.state.metadata, context) && PublicationOf(w.state.metadata, context) in w.drafts
    ensures OpensTo(pr, Fetch(pr, w.state, user, context, device, faults).1.value, w.returned[(context, device)],
                    private, w.drafts[PublicationOf(w.state.metadata, context)])
  {
    hide Fetch, SealMark, ValidText, PurchasesSound, OpensTo, ContentIdentity, Canonical, Embedded, HasChannel;
    Delivered(pr, w, user, context, device, faults);
    var m := w.state.metadata;
    var id := PublicationOf(m, context);
    assert PublicationSound(pr, w, id) && ReceiptSound(w, context, device);
    var package := Fetch(pr, w.state, user, context, device, faults).1.value;
    var mark := SealMark(pr, w.state.keys, m.publications[id].identity, context, faults).value;
    PackageOpens(pr, package, m.receipts[(context, device)], private, FileKey(w.state.keys, package.identity),
                 w.drafts[id], mark);
  }

  /** A package and a stored receipt that share a file key, for a published draft. */
  lemma PackageOpens(pr: Primitives, package: Package, record: ReceiptRecord, private: DevicePrivateKey, fileKey: Key,
                     draft: seq<byte>, mark: Mark)
    requires package.version == PACKAGE_VERSION && package.algorithm == SIGNATURE_ALGORITHM
    requires package.identity == ContentIdentity(pr, Canonical(draft)) && ValidText(draft)
    requires pr.signed(package.identity, package.authorName, package.signature, package.authorKey)
    requires package.content == Sealed(fileKey, package.identity,
               Text(if HasChannel(Canonical(draft)) then Embedded(Canonical(draft), mark).value else Canonical(draft)))
    requires package.wrappedBlobKey == Sealed(record.receipt.wrappedKey.key, package.identity, KeyBytes(fileKey))
    requires record.receipt.header.version == RECEIPT_VERSION
             && record.receipt.wrappedKey.bound == record.receipt.header
    requires record.receipt.wrappedKey.device == pr.publicOf(private)
    ensures OpensTo(pr, package, record.receipt, private, draft)
  {
    hide Canonical, ValidText;
    var canonical := Canonical(draft);
    CanonicalIsStable(draft);
    if HasChannel(canonical) {
      MarkedText(canonical, mark);
    }
  }

  /**
   In every state any run reaches, a package fetched for a context and device opens under the key
   inside the last receipt returned for them, on that device; what comes out has the
   canonical form of the published draft, and is the canonical text itself or its marked form.
   */
  lemma FetchedOpens(pr: Primitives, worlds: seq<World>, events: seq<Event>, i: nat, user: UserId, context: Id,
                     device: DeviceKey, private: DevicePrivateKey, faults: Faults)
    requires Run(pr, worlds, events) && i < |worlds| && pr.publicOf(private) == device
    requires Fetch(pr, worlds[i].state, user, context, device, faults).1.Ok?
    ensures var w := worlds[i];
            && (context, device) in w.returned
            && IsContext(w.state.metadata, context)
            && PublicationOf(w.state.metadata, context) in w.drafts
            && OpensTo(pr, Fetch(pr, w.state, user, context, device, faults).1.value, w.returned[(context, device)],
                       private, w.drafts[PublicationOf(w.state.metadata, context)])
  {
    hide Fetch, Run, OpensTo, Sound;
    RunsAreSound(pr, worlds, events, i);
    SoundFetchOpens(pr, worlds[i], user, context, device, private, faults);
  }

  lemma SoundFetchSucceeds(pr: Primitives, w: World, user: UserId, context: Id, device: DeviceKey)
    requires Sound(pr, w) && (context, device) in w.returned && w.state.keys.master.Some?
    requires ResolveAccess(w.state.metadata, user, context, {}).Ok?
    ensures Fetch(pr, w.state, user, context, device, {}).1.Ok?
  {
    ResolvedContext(pr, w, context, {});
    var id := PublicationOf(w.state.metadata, context);
    assert PublicationSound(pr, w, id);
    var identity := w.state.metadata.publications[id].identity;
    MarkingSucceeds(pr, w.state.keys, identity, Canonical(w.drafts[id]), context);
    hide MarkForPurchase, Canonical, ValidText, ContentIdentity;
  }

  /** Under a present master key what is sealed under a file key can be marked. */
  lemma MarkingSucceeds(pr: Primitives, k: Keys, identity: Identity, text: seq<byte>, context: Id)
    requires KeysSound(k) && k.master.Some? && HasFileKey(k, identity)
    ensures MarkForPurchase(pr, k, identity, Sealed(FileKey(k, identity), identity, Text(text)), context, {}).1.Ok?
  {
    hide Embedded;
    NothingFails(0);
    LoadedIsObtained(k, identity, {}, {});
  }

  /**
   Nothing keeps an entitled reader from the content: with the master key present and no storage
   failure, a fetch by the owner of a context, for a device a receipt was returned to, succeeds.
   */
  lemma EntitledFetchSucceeds(pr: Primitives, worlds: seq<World>, events: seq<Event>, i: nat, user: UserId, context: Id,
                              device: DeviceKey)
    requires Run(pr, worlds, events) && i < |worlds|
    requires (context, device) in worlds[i].returned && worlds[i].state.keys.master.Some?
    requires ResolveAccess(worlds[i].state.metadata, user, context, {}).Ok?
    ensures Fetch(pr, worlds[i].state, user, context, device, {}).1.Ok?
  {
    hide Fetch, Run, Sound, ResolveAccess;
    RunsAreSound(pr, worlds, events, i);
    SoundFetchSucceeds(pr, worlds[i], user, context, device);
  }

  /** A receipt replaced by a later one for the same context and device no longer opens what is fetched. */
  lemma OlderReceiptFails(pr: Primitives, worlds: seq<World>, events: seq<Event>, i: nat, user: UserId, context: Id,
                          device: DeviceKey, faults: Faults, key: Key)
    requires Run(pr, worlds, events) && i < |worlds|
    requires Fetch(pr, worlds[i].state, user, context, device, faults).1.Ok?
    requires (context, device) in worlds[i].returned ==> worlds[i].returned[(context, device)].wrappedKey.key != key
    ensures OpenPackage(pr, Fetch(pr, worlds[i].state, user, context, device, faults).1.value, key)
            == Err(AuthenticationFailed)
  {
    hide Fetch, Run;
    var w := worlds[i];
    RunsAreSound(pr, worlds, events, i);
    Delivered(pr, w, user, context, device, faults);
    assert ReceiptSound(w, context, device);
    assert PublicationSound(pr, w, PublicationOf(w.state.metadata, context));
  }

  /** Issuing, and so buying and restoring, writes no key but the ones it draws. */
  lemma IssueWritesNoKey(s: State, context: Id, user: UserId, publication: PublicationRecord, grantedAt: Timestamp,
                         device: DeviceKey, issuedAt: Timestamp, faults: Faults)
    ensures var after := Issue(s, context, user, publication, grantedAt, device, issuedAt, faults).0;
            after.keys.master == s.keys.master && after.keys.fileKeys == s.keys.fileKeys
  {
  }

  lemma ReceiptForWritesNoKey(s: State, purchase: PurchaseRecord, device: DeviceKey, issuedAt: Timestamp,
                              faults: Faults)
    ensures var after := ReceiptFor(s, purchase, device, issuedAt, faults).0;
            after.keys.master == s.keys.master && after.keys.fileKeys == s.keys.fileKeys
  {
    hide Issue;
    var publication := FindPublication(s.metadata, purchase.publicationId, faults);
    if publication.Ok? {
      IssueWritesNoKey(s, purchase.purchaseId, purchase.userId, publication.value, purchase.purchasedAt, device,
                       issuedAt, faults);
    }
  }

  lemma BuyWritesNoKey(s: State, user: UserId, id: Id, device: DeviceKey, at: Timestamp, identifier: Id, faults: Faults)
    ensures var after := Buy(s, user, id, device, at, identifier, faults).0;
            after.keys.master == s.keys.master && after.keys.fileKeys == s.keys.fileKeys
  {
    hide Issue, ReceiptFor;
    var (m, added) := AddPurchase(s.metadata, PurchaseRecord(identifier, user, id, at), faults);
    var after := s.(metadata := m);
    var existing := FindPurchaseOf(s.metadata, user, id, faults);
    var concurrent := FindPurchaseOf(m, user, id, Later(faults));
    var publication := FindPublication(s.metadata, id, faults);
    if existing.Ok? {
      ReceiptForWritesNoKey(s, existing.value, device, at, faults);
    } else if publication.Ok? {
      if concurrent.Ok? {
        ReceiptForWritesNoKey(after, concurrent.value, device, at, Later(faults));
      }
      IssueWritesNoKey(s, id, user, publication.value, publication.value.publishedAt, device, at, faults);
      IssueWritesNoKey(after, identifier, user, publication.value, at, device, at, faults);
    }
  }

  lemma PublishKeepsMaster(pr: Primitives, s: State, e: Event)
    requires KeysSound(s.keys) && e.Publication? && s.keys.fileKeys != map[]
    ensures var after := Publish(pr, s, e.author, e.draft, e.authorKey, e.signature, e.at, e.identifier, e.faults).0;
            after.keys.master == s.keys.master && KeysGrow(s.keys, after.keys)
  {
    hide ValidText, Canonical, ContentIdentity, ObtainFileKey;
    ObtainKeeps(s.keys, ContentIdentity(pr, Canonical(e.draft.content)), e.faults);
  }

  /** While a file key remains, no request makes or changes the master key, and none changes a file key. */
  lemma KeysStep(pr: Primitives, w: World, e: Event)
    requires Sound(pr, w) && w.state.keys.fileKeys != map[]
    ensures var k, after := w.state.keys, Apply(pr, w, e).state.keys;
            (after.master == k.master || after.master.None?) && KeysGrow(k, after)
  {
    hide PublicationsSound, ReceiptsSound, PurchasesSound, Issue, Publish, Buy, Fetch;
    match e
    case Publication(_, _, _, _, _, _, _) => PublishKeepsMaster(pr, w.state, e);
    case Purchase(user, id, device, at, identifier, faults) =>
      BuyWritesNoKey(w.state, user, id, device, at, identifier, faults);
    case Restoration(user, context, device, at, faults) =>
      var access := ResolveAccess(w.state.metadata, user, context, faults);
      if access.Ok? {
        IssueWritesNoKey(w.state, context, user, access.value.publication, access.value.grantedAt, device, at, faults);
      }
    case Delivery(user, context, device, faults) => FetchChangesNothing(pr, w.state, user, context, device, faults);
    case Registration(_, _) =>
    case MasterKeyDeleted =>
  }

  /**
   Once file keys exist, the master key they are wrapped under is never replaced: it stays, or it is gone
   for good.
   */
  lemma {:induction false} MasterNeverReplaced(pr: Primitives, worlds: seq<World>, events: seq<Event>, i: nat, j: nat)
    requires Run(pr, worlds, events) && i <= j < |worlds| && worlds[i].state.keys.fileKeys != map[]
    ensures var before, after := worlds[i].state.keys, worlds[j].state.keys;
            && (after.master == before.master || after.master.None?) && KeysGrow(before, after)
  {
    if i < j {
      hide Sound, Apply, Enabled, KeysGrow;
      MasterNeverReplaced(pr, worlds, events, i, j - 1);
      RunsAreSound(pr, worlds, events, j - 1);
      KeysRemain(worlds[i].state.keys, worlds[j - 1].state.keys);
      KeysStep(pr, worlds[j - 1], events[j - 1]);
      KeysGrowOn(worlds[i].state.keys, worlds[j - 1].state.keys, worlds[j].state.keys);
    }
  }

  lemma KeysGrowOn(a: Keys, b: Keys, c: Keys)
    requires KeysGrow(a, b) && KeysGrow(b, c)
    ensures KeysGrow(a, c)
  {
  }

  lemma KeysRemain(k: Keys, after: Keys)
    requires KeysGrow(k, after) && k.fileKeys != map[]
    ensures after.fileKeys != map[]
  {
    var identity :| identity in k.fileKeys;
    assert identity in after.fileKeys;
  }

  /** At every point of every run, each stored file key opens under whatever master key is present. */
  lemma FileKeysOpen(pr: Primitives, worlds: seq<World>, events: seq<Event>, i: nat, identity: Identity)
    requires Run(pr, worlds, events) && i < |worlds|
    requires identity in worlds[i].state.keys.fileKeys && worlds[i].state.keys.master.Some?
    ensures LoadFileKey(worlds[i].state.keys, identity, {}).Ok?
  {
    hide Run, PublicationsSound, ReceiptsSound, PurchasesSound;
    RunsAreSound(pr, worlds, events, i);
  }
}
