/**
 Any number of concurrent purchases, interleaved storage step by storage step. Every step may fail,
 every thread may stop for good between two steps, and publications may appear at any time.
 */
module BuyInterleaving {
  import opened Bytes
  import opened Errors
  import opened Crypto
  import opened StoreContents

  datatype Request = Request(user: UserId, publication: Id, device: DeviceKey, at: Timestamp)

  /** Where a purchase stands: the storage step it takes next. */
  datatype Stage =
    | Listing                                        // list the purchase records
    | Loading(listed: set<Id>)                       // load them and pick the one of this pair
    | ReadingPublication
    | ReadingOwnReceipt(publication: PublicationRecord)
    | DrawingIdentifier(publication: PublicationRecord)
    | LinkingMarker(publication: PublicationRecord, id: Id)
    | LinkingRecord(publication: PublicationRecord, id: Id)
    | Unlinking(original: CoreError, id: Id)
    | ListingAgain
    | LoadingAgain(listed: set<Id>)
    | ReadingReceipt(purchase: PurchaseRecord)
    | ListingReceipts(purchase: PurchaseRecord)
    | ReadingItsPublication(purchase: PurchaseRecord)
    | Sealing(context: Id, publication: PublicationRecord, grantedAt: Timestamp)
    | Saving(record: ReceiptRecord)
    | Finished(result: Result<Receipt, CoreError>)
    | Stopped

  datatype Thread = Thread(request: Request, stage: Stage)

  type Pair = (UserId, Id)

  /** `owner` is bookkeeping of the model: the thread that linked each marker. */
  datatype World = World(m: Metadata, keys: Keys, owner: map<Pair, nat>, threads: map<nat, Thread>)

  datatype Event =
    | Begin(thread: nat, request: Request)
    | Advance(thread: nat, fault: Option<CoreError>, identifier: Id)
    | Stop(thread: nat)
    | Published(record: PublicationRecord)

  function PairOf(r: Request): Pair {
    (r.user, r.publication)
  }

  predicate StorageFault(e: CoreError) {
    e == StorageFailed || e == CryptoFailed
  }

  predicate Enabled(w: World, e: Event) {
    match e
    case Begin(t, _) => t !in w.threads
    case Advance(t, fault, _) =>
      && t in w.threads && !w.threads[t].stage.Finished? && !w.threads[t].stage.Stopped?
      && (fault.Some? ==> StorageFault(fault.value))
    case Stop(t) => t in w.threads
    case Published(record) => record.publicationId !in w.m.publications
  }

  /** What loading the listed records finds. */
  ghost function Picked(m: Metadata, listed: set<Id>, r: Request): Result<PurchaseRecord, CoreError> {
    if exists id :: id in listed && IsPurchaseOf(m, id, r.user, r.publication) then
      var id :| id in listed && IsPurchaseOf(m, id, r.user, r.publication);
      Ok(m.purchases[id])
    else Err(PurchaseNotFound)
  }

  function Now(w: World, t: nat, stage: Stage): World
    requires t in w.threads
  {
    w.(threads := w.threads[t := w.threads[t].(stage := stage)])
  }

  function Fails(w: World, t: nat, e: CoreError): World
    requires t in w.threads
  {
    Now(w, t, Finished(Err(e)))
  }

  /** The steps up to the marker: look for a record, read the publication, draw an identifier. */
  ghost function Approach(w: World, t: nat, fault: Option<CoreError>, identifier: Id): World
    requires t in w.threads
  {
    var r := w.threads[t].request;
    match w.threads[t].stage
    case Listing => if fault.Some? then Fails(w, t, fault.value) else Now(w, t, Loading(w.m.purchases.Keys))
    case Loading(listed) =>
      var found := Picked(w.m, listed, r);
      if fault.Some? then Fails(w, t, fault.value)
      else if found.Ok? then Now(w, t, ReadingReceipt(found.value))
      else Now(w, t, ReadingPublication)
    case ReadingPublication =>
      var publication := FindPublication(w.m, r.publication, {});
      if fault.Some? then Fails(w, t, fault.value)
      else if publication.Err? then Fails(w, t, publication.error)
      else if publication.value.authorId == r.user then Now(w, t, ReadingOwnReceipt(publication.value))
      else Now(w, t, DrawingIdentifier(publication.value))
    case ReadingOwnReceipt(publication) =>
      var own := FindReceipt(w.m, r.publication, r.device, {});
      if fault.None? && own.Ok? then Now(w, t, Finished(Ok(own.value.receipt)))
      else Now(w, t, Sealing(r.publication, publication, publication.publishedAt))
    case DrawingIdentifier(publication) =>
      if fault.Some? then Fails(w, t, fault.value) else Now(w, t, LinkingMarker(publication, identifier))
    case _ => w
  }

  /** Linking the pair marker, then the record; the marker is unlinked when the record cannot be linked. */
  function AddRecord(w: World, t: nat, fault: Option<CoreError>): World
    requires t in w.threads
  {
    var r := w.threads[t].request;
    var pair := PairOf(r);
    match w.threads[t].stage
    case LinkingMarker(publication, id) =>
      if fault.Some? then Fails(w, t, fault.value)
      else if pair in w.m.pairs then Now(w, t, ListingAgain)
      else
        var linked := w.(m := w.m.(pairs := w.m.pairs[pair := id]), owner := w.owner[pair := t]);
        Now(linked, t, LinkingRecord(publication, id))
    case LinkingRecord(publication, id) =>
      if fault.Some? then Now(w, t, Unlinking(fault.value, id))
      else if id in w.m.purchases then Now(w, t, Unlinking(RecordExists, id))
      else
        var record := PurchaseRecord(id, r.user, r.publication, r.at);
        Now(w.(m := w.m.(purchases := w.m.purchases[id := record])), t, Sealing(id, publication, r.at))
    case Unlinking(original, _) =>
      if fault.Some? then Fails(w, t, fault.value)
      else
        var unlinked := w.(m := w.m.(pairs := w.m.pairs - {pair}), owner := w.owner - {pair});
        if original == RecordExists then Now(unlinked, t, ListingAgain) else Fails(unlinked, t, original)
    case _ => w
  }

  /** The second look for a record, and the receipt of a record that was found. */
  ghost function UseRecord(w: World, t: nat, fault: Option<CoreError>): World
    requires t in w.threads
  {
    var r := w.threads[t].request;
    if fault.Some? then Fails(w, t, fault.value)
    else
      match w.threads[t].stage
      case ListingAgain => Now(w, t, LoadingAgain(w.m.purchases.Keys))
      case LoadingAgain(listed) =>
        var found := Picked(w.m, listed, r);
        if found.Ok? then Now(w, t, ReadingReceipt(found.value)) else Fails(w, t, found.error)
      case ReadingReceipt(purchase) =>
        var stored := FindReceipt(w.m, purchase.purchaseId, r.device, {});
        if stored.Ok? then Now(w, t, Finished(Ok(stored.value.receipt))) else Now(w, t, ListingReceipts(purchase))
      case ListingReceipts(purchase) =>
        if AnyReceipt(w.m, purchase.purchaseId) then Fails(w, t, ReceiptNotFound)
        else Now(w, t, ReadingItsPublication(purchase))
      case ReadingItsPublication(purchase) =>
        var publication := FindPublication(w.m, purchase.publicationId, {});
        if publication.Err? then Fails(w, t, publication.error)
        else Now(w, t, Sealing(purchase.purchaseId, publication.value, purchase.purchasedAt))
      case _ => w
  }

  /** Drawing the purchase key, wrapping the file key, and replacing the stored receipt. */
  function IssueReceipt(w: World, t: nat, fault: Option<CoreError>): World
    requires t in w.threads
  {
    var r := w.threads[t].request;
    if fault.Some? then Fails(w, t, fault.value)
    else
      match w.threads[t].stage
      case Sealing(context, publication, grantedAt) =>
        var (keys, purchaseKey) := GenerateKey(w.keys, {});
        var wrapped := WrapFileKey(keys, publication.identity, w.keys.drawn, {});
        if wrapped.Err? then Fails(w.(keys := keys), t, wrapped.error)
        else
          var header := Header(RECEIPT_VERSION, context, r.user, grantedAt, r.at);
          var receipt := Receipt(header, Envelope(r.device, header, w.keys.drawn));
          Now(w.(keys := keys), t, Saving(ReceiptRecord(r.device, wrapped.value, receipt)))
      case Saving(record) =>
        Now(w.(m := SaveReceipt(w.m, record, {}).0), t, Finished(Ok(record.receipt)))
      case _ => w
  }

  ghost function Apply(w: World, e: Event): World
    requires Enabled(w, e)
  {
    match e
    case Begin(t, request) => w.(threads := w.threads[t := Thread(request, Listing)])
    case Stop(t) => Now(w, t, Stopped)
    case Published(record) => w.(m := AddPublication(w.m, record, {}).0)
    case Advance(t, fault, identifier) =>
      match w.threads[t].stage
      case Listing => Approach(w, t, fault, identifier)
      case Loading(_) => Approach(w, t, fault, identifier)
      case ReadingPublication => Approach(w, t, fault, identifier)
      case ReadingOwnReceipt(_) => Approach(w, t, fault, identifier)
      case DrawingIdentifier(_) => Approach(w, t, fault, identifier)
      case LinkingMarker(_, _) => AddRecord(w, t, fault)
      case LinkingRecord(_, _) => AddRecord(w, t, fault)
      case Unlinking(_, _) => AddRecord(w, t, fault)
      case Sealing(_, _, _) => IssueReceipt(w, t, fault)
      case Saving(_) => IssueReceipt(w, t, fault)
      case _ => UseRecord(w, t, fault)
  }

  ghost predicate Run(worlds: seq<World>, events: seq<Event>) {
    && |worlds| == |events| + 1
    && forall i | 0 <= i < |events| :: Enabled(worlds[i], events[i]) && worlds[i + 1] == Apply(worlds[i], events[i])
  }

  // ----- the invariant -----

  /** The thread holds the marker of its pair: it linked it, the marker names its record, and there is no record yet. */
  predicate Holds(w: World, t: nat)
    requires t in w.threads
  {
    w.threads[t].stage.LinkingRecord? || w.threads[t].stage.Unlinking?
  }

  ghost predicate Unrecorded(m: Metadata, pair: Pair) {
    forall id | id in m.purchases :: (m.purchases[id].userId, m.purchases[id].publicationId) != pair
  }

  ghost predicate HolderSound(w: World, t: nat)
    requires t in w.threads
  {
    Holds(w, t) ==>
      var pair := PairOf(w.threads[t].request);
      && pair in w.m.pairs && pair in w.owner
      && w.m.pairs[pair] == w.threads[t].stage.id && w.owner[pair] == t
      && Unrecorded(w.m, pair)
  }

  /** The request is backed by a purchase record of its pair, or by the user's own publication. */
  predicate Backed(m: Metadata, r: Request, context: Id) {
    || IsPurchaseOf(m, context, r.user, r.publication)
    || (context == r.publication && r.publication in m.publications && m.publications[r.publication].authorId == r.user)
  }

  predicate StageSound(m: Metadata, th: Thread) {
    var r := th.request;
    match th.stage
    case ReadingOwnReceipt(publication) => Backed(m, r, r.publication)
    case ReadingReceipt(purchase) => IsPurchaseOf(m, purchase.purchaseId, r.user, r.publication)
    case ListingReceipts(purchase) => IsPurchaseOf(m, purchase.purchaseId, r.user, r.publication)
    case ReadingItsPublication(purchase) => IsPurchaseOf(m, purchase.purchaseId, r.user, r.publication)
    case Sealing(context, _, _) => Backed(m, r, context)
    case Saving(record) =>
      && Backed(m, r, record.receipt.header.purchaseId)
      && record.deviceKey == r.device && record.receipt.header.userId == r.user
    case Finished(result) => result.Ok? ==> Backed(m, r, result.value.header.purchaseId)
    case _ => true
  }

  /** A stored receipt is filed under its own context, and that context is recorded for its user. */
  predicate ReceiptBacked(m: Metadata, context: Id, device: DeviceKey)
    requires (context, device) in m.receipts
  {
    var record := m.receipts[(context, device)];
    var user := record.receipt.header.userId;
    && record.deviceKey == device && record.receipt.header.purchaseId == context
    && ((context in m.purchases && m.purchases[context].userId == user)
        || (context in m.publications && m.publications[context].authorId == user))
  }

  ghost predicate Sound(w: World) {
    && PairsMark(w.m)
    && (forall t | t in w.threads :: HolderSound(w, t) && StageSound(w.m, w.threads[t]))
    && (forall c, d | (c, d) in w.m.receipts :: ReceiptBacked(w.m, c, d))
  }

  /** Records are only ever added. */
  ghost predicate Grows(m: Metadata, n: Metadata) {
    && (forall id | id in m.purchases :: id in n.purchases && n.purchases[id] == m.purchases[id])
    && (forall id | id in m.publications :: id in n.publications && n.publications[id] == m.publications[id])
  }

  lemma StageStaysSound(m: Metadata, n: Metadata, th: Thread)
    requires Grows(m, n) && StageSound(m, th)
    ensures StageSound(n, th)
  {
  }

  /** A step that leaves the stores alone and does not take a marker keeps everything, given where it leads is sound. */
  lemma MovesOn(w: World, t: nat, stage: Stage, keys: Keys)
    requires Sound(w) && t in w.threads && StageSound(w.m, w.threads[t].(stage := stage))
    requires !stage.LinkingRecord? && !stage.Unlinking?
    ensures Sound(Now(w.(keys := keys), t, stage))
  {
    hide PairsMark, StageSound, ReceiptBacked, Unrecorded;
    var next := Now(w.(keys := keys), t, stage);
    forall u | u in next.threads ensures HolderSound(next, u) && StageSound(next.m, next.threads[u]) {
      if u != t {
        assert HolderSound(w, u) && StageSound(w.m, w.threads[u]);
      }
    }
  }

  lemma PickedIsRecord(m: Metadata, listed: set<Id>, r: Request)
    requires PairsMark(m)
    ensures var found := Picked(m, listed, r);
            if found.Ok? then IsPurchaseOf(m, found.value.purchaseId, r.user, r.publication)
            else found.error == PurchaseNotFound
  {
  }

  lemma ThreadSound(w: World, t: nat)
    requires Sound(w) && t in w.threads
    ensures PairsMark(w.m) && HolderSound(w, t) && StageSound(w.m, w.threads[t])
  {
  }

  lemma StoredReceiptBacked(w: World, context: Id, device: DeviceKey)
    requires Sound(w) && (context, device) in w.m.receipts
    ensures w.m.receipts[(context, device)].receipt.header.purchaseId == context
  {
    assert ReceiptBacked(w.m, context, device);
  }

  lemma ApproachKeeps(w: World, t: nat, fault: Option<CoreError>, identifier: Id)
    requires Sound(w) && t in w.threads && !Holds(w, t)
    ensures Sound(Approach(w, t, fault, identifier))
  {
    hide Sound, Picked, PairsMark, HolderSound;
    ThreadSound(w, t);
    var r, stage := w.threads[t].request, w.threads[t].stage;
    if stage.Loading? {
      PickedIsRecord(w.m, stage.listed, r);
    } else if stage.ReadingOwnReceipt? && (r.publication, r.device) in w.m.receipts {
      StoredReceiptBacked(w, r.publication, r.device);
    }
    var next := Approach(w, t, fault, identifier);
    assert next == Now(w.(keys := w.keys), t, next.threads[t].stage);
    MovesOn(w, t, next.threads[t].stage, w.keys);
  }

  lemma UseRecordKeeps(w: World, t: nat, fault: Option<CoreError>)
    requires Sound(w) && t in w.threads && !Holds(w, t)
    ensures Sound(UseRecord(w, t, fault))
  {
    hide Sound, Picked, PairsMark, HolderSound;
    ThreadSound(w, t);
    var r, stage := w.threads[t].request, w.threads[t].stage;
    if stage.LoadingAgain? {
      PickedIsRecord(w.m, stage.listed, r);
    } else if stage.ReadingReceipt? && (stage.purchase.purchaseId, r.device) in w.m.receipts {
      StoredReceiptBacked(w, stage.purchase.purchaseId, r.device);
    }
    var next := UseRecord(w, t, fault);
    assert next == Now(w.(keys := w.keys), t, next.threads[t].stage);
    MovesOn(w, t, next.threads[t].stage, w.keys);
  }

  lemma ReceiptStaysBacked(m: Metadata, n: Metadata, context: Id, device: DeviceKey)
    requires Grows(m, n) && (context, device) in m.receipts && ReceiptBacked(m, context, device)
    requires (context, device) in n.receipts && n.receipts[(context, device)] == m.receipts[(context, device)]
    ensures ReceiptBacked(n, context, device)
  {
  }

  /** A step of thread `t` on the stores, at which no other thread can lose the marker it holds, keeps everything. */
  lemma StoresChange(w: World, next: World, t: nat)
    requires Sound(w) && t in w.threads && next.threads.Keys == w.threads.Keys
    requires forall u | u in w.threads && u != t :: next.threads[u] == w.threads[u] && HolderSound(next, u)
    requires Grows(w.m, next.m) && next.m.receipts == w.m.receipts && PairsMark(next.m)
    requires HolderSound(next, t) && StageSound(next.m, next.threads[t])
    ensures Sound(next)
  {
    hide StageSound, ReceiptBacked, PairsMark, Grows;
    forall u | u in next.threads ensures HolderSound(next, u) && StageSound(next.m, next.threads[u]) {
      if u != t {
        StageStaysSound(w.m, next.m, w.threads[u]);
      }
    }
    forall c, d | (c, d) in next.m.receipts ensures ReceiptBacked(next.m, c, d) {
      ReceiptStaysBacked(w.m, next.m, c, d);
    }
  }

  lemma MarkerLinked(w: World, t: nat, fault: Option<CoreError>)
    requires Sound(w) && t in w.threads && w.threads[t].stage.LinkingMarker?
    ensures Sound(AddRecord(w, t, fault))
  {
    hide ReceiptBacked;
    var next := AddRecord(w, t, fault);
    var pair := PairOf(w.threads[t].request);
    forall u | u in w.threads && u != t ensures HolderSound(next, u) {
      assert HolderSound(w, u);
    }
    assert pair !in w.m.pairs ==> Unrecorded(w.m, pair);
    StoresChange(w, next, t);
  }

  lemma LinkingKeepsHolders(w: World, t: nat, fault: Option<CoreError>)
    requires t in w.threads && w.threads[t].stage.LinkingRecord? && forall u | u in w.threads :: HolderSound(w, u)
    ensures forall u | u in w.threads && u != t :: HolderSound(AddRecord(w, t, fault), u)
  {
    assert HolderSound(w, t);
    forall u | u in w.threads && u != t ensures HolderSound(AddRecord(w, t, fault), u) {
      assert HolderSound(w, u);
    }
  }

  lemma RecordLinkGrows(w: World, t: nat, fault: Option<CoreError>)
    requires t in w.threads && w.threads[t].stage.LinkingRecord?
    ensures Grows(w.m, AddRecord(w, t, fault).m)
  {
  }

  lemma RecordLinked(w: World, t: nat, fault: Option<CoreError>)
    requires Sound(w) && t in w.threads && w.threads[t].stage.LinkingRecord?
    ensures Sound(AddRecord(w, t, fault))
  {
    hide ReceiptBacked;
    var next := AddRecord(w, t, fault);
    assert HolderSound(w, t);
    LinkingKeepsHolders(w, t, fault);
    RecordLinkGrows(w, t, fault);
    hide HolderSound, Grows;
    StoresChange(w, next, t);
  }

  lemma UnlinkedGrows(w: World, t: nat, fault: Option<CoreError>)
    requires t in w.threads && w.threads[t].stage.Unlinking?
    ensures Grows(w.m, AddRecord(w, t, fault).m)
  {
  }

  lemma UnlinkingKeepsMarks(w: World, t: nat, fault: Option<CoreError>)
    requires t in w.threads && w.threads[t].stage.Unlinking? && PairsMark(w.m) && HolderSound(w, t)
    ensures PairsMark(AddRecord(w, t, fault).m)
  {
  }

  lemma UnlinkingKeepsHolders(w: World, t: nat, fault: Option<CoreError>)
    requires t in w.threads && w.threads[t].stage.Unlinking? && forall u | u in w.threads :: HolderSound(w, u)
    ensures forall u | u in w.threads && u != t :: HolderSound(AddRecord(w, t, fault), u)
  {
    hide Unrecorded;
    var next := AddRecord(w, t, fault);
    assert HolderSound(w, t);
    forall u | u in w.threads && u != t ensures HolderSound(next, u) {
      assert HolderSound(w, u);
      UnrecordedAlike(w.m, next.m, PairOf(w.threads[u].request));
    }
  }

  lemma MarkerUnlinked(w: World, t: nat, fault: Option<CoreError>)
    requires Sound(w) && t in w.threads && w.threads[t].stage.Unlinking?
    ensures Sound(AddRecord(w, t, fault))
  {
    hide ReceiptBacked, Grows, PairsMark, Unrecorded;
    var next := AddRecord(w, t, fault);
    assert HolderSound(w, t) && StageSound(next.m, next.threads[t]);
    UnlinkedGrows(w, t, fault);
    UnlinkingKeepsMarks(w, t, fault);
    UnlinkingKeepsHolders(w, t, fault);
    hide StageSound, HolderSound;
    StoresChange(w, next, t);
  }

  lemma UnrecordedAlike(m: Metadata, n: Metadata, pair: Pair)
    requires m.purchases == n.purchases
    ensures Unrecorded(m, pair) == Unrecorded(n, pair)
  {
  }

  lemma IssueKeeps(w: World, t: nat, fault: Option<CoreError>)
    requires Sound(w) && t in w.threads && !Holds(w, t)
    ensures Sound(IssueReceipt(w, t, fault))
  {
    hide Sound, PairsMark, HolderSound;
    ThreadSound(w, t);
    var next := IssueReceipt(w, t, fault);
    if w.threads[t].stage.Saving? && fault.None? {
      ReceiptSaved(w, t);
    } else {
      assert next == Now(w.(keys := next.keys), t, next.threads[t].stage);
      MovesOn(w, t, next.threads[t].stage, next.keys);
    }
  }

  lemma ReceiptSaved(w: World, t: nat)
    requires Sound(w) && t in w.threads && w.threads[t].stage.Saving?
    ensures Sound(IssueReceipt(w, t, None))
  {
    var next := IssueReceipt(w, t, None);
    forall u | u in next.threads ensures HolderSound(next, u) && StageSound(next.m, next.threads[u]) {
      assert HolderSound(w, u) && StageSound(w.m, w.threads[u]);
    }
    forall c, d | (c, d) in next.m.receipts ensures ReceiptBacked(next.m, c, d) {
      if (c, d) in w.m.receipts {
        assert ReceiptBacked(w.m, c, d);
      }
    }
  }

  lemma PublishedKeeps(w: World, record: PublicationRecord)
    requires Sound(w) && record.publicationId !in w.m.publications
    ensures Sound(w.(m := AddPublication(w.m, record, {}).0))
  {
    hide StageSound, ReceiptBacked;
    var next := w.(m := AddPublication(w.m, record, {}).0);
    forall u | u in next.threads ensures HolderSound(next, u) && StageSound(next.m, next.threads[u]) {
      assert HolderSound(w, u);
      StageStaysSound(w.m, next.m, w.threads[u]);
    }
    forall c, d | (c, d) in next.m.receipts ensures ReceiptBacked(next.m, c, d) {
      ReceiptStaysBacked(w.m, next.m, c, d);
    }
  }

  /** Every step of every thread, and every publication in between, keeps the invariant. */
  lemma StepKeeps(w: World, e: Event)
    requires Sound(w) && Enabled(w, e)
    ensures Sound(Apply(w, e))
  {
    hide Sound, Approach, UseRecord, AddRecord, IssueReceipt, AddPublication;
    match e
    case Begin(t, request) => Begun(w, t, request);
    case Stop(t) => MovesOn(w, t, Stopped, w.keys);
    case Published(record) => PublishedKeeps(w, record);
    case Advance(t, fault, identifier) =>
      if w.threads[t].stage.LinkingMarker? {
        MarkerLinked(w, t, fault);
      } else if w.threads[t].stage.LinkingRecord? {
        RecordLinked(w, t, fault);
      } else if w.threads[t].stage.Unlinking? {
        MarkerUnlinked(w, t, fault);
      } else {
        ApproachKeeps(w, t, fault, identifier);
        UseRecordKeeps(w, t, fault);
        IssueKeeps(w, t, fault);
      }
  }

  lemma Begun(w: World, t: nat, request: Request)
    requires Sound(w) && t !in w.threads
    ensures Sound(w.(threads := w.threads[t := Thread(request, Listing)]))
  {
    hide PairsMark, ReceiptBacked;
    var next := w.(threads := w.threads[t := Thread(request, Listing)]);
    forall u | u in next.threads ensures HolderSound(next, u) && StageSound(next.m, next.threads[u]) {
      if u != t {
        assert HolderSound(w, u) && StageSound(w.m, w.threads[u]);
      }
    }
  }

  // ----- over whole runs -----

  ghost predicate Initial(w: World) {
    w.m.purchases == map[] && w.m.pairs == map[] && w.m.receipts == map[] && w.owner == map[] && w.threads == map[]
  }

  lemma {:induction false} RunsAreSound(worlds: seq<World>, events: seq<Event>, i: nat)
    requires Run(worlds, events) && Initial(worlds[0]) && i < |worlds|
    ensures Sound(worlds[i])
  {
    if i > 0 {
      hide Sound, Apply, Enabled;
      RunsAreSound(worlds, events, i - 1);
      StepKeeps(worlds[i - 1], events[i - 1]);
    }
  }

  /** Whatever is interleaved and wherever threads fail or stop, a user never has two records of one publication. */
  lemma OneRecordPerPair(worlds: seq<World>, events: seq<Event>, i: nat, a: Id, b: Id, user: UserId, publication: Id)
    requires Run(worlds, events) && Initial(worlds[0]) && i < |worlds|
    requires IsPurchaseOf(worlds[i].m, a, user, publication) && IsPurchaseOf(worlds[i].m, b, user, publication)
    ensures a == b && (user, publication) in worlds[i].m.pairs && worlds[i].m.pairs[(user, publication)] == a
  {
    RunsAreSound(worlds, events, i);
  }

  predicate AddsRecord(w: World, e: Event)
    requires Enabled(w, e)
  {
    e.Advance? && (w.threads[e.thread].stage.LinkingMarker? || Holds(w, e.thread))
  }

  /** Thread `t` moved from one stage to another without taking or giving up a marker, and nothing was added. */
  ghost predicate MovedOnly(w: World, next: World, t: nat) {
    && next.m.pairs == w.m.pairs && next.m.purchases == w.m.purchases
    && t in next.threads && next.threads == w.threads[t := next.threads[t]] && !Holds(next, t)
  }

  lemma ApproachingAddsNothing(w: World, t: nat, fault: Option<CoreError>, identifier: Id)
    requires t in w.threads && !Holds(w, t)
    ensures MovedOnly(w, Approach(w, t, fault, identifier), t)
  {
    hide Picked, FindPublication, FindReceipt;
  }

  lemma UsingAddsNothing(w: World, t: nat, fault: Option<CoreError>)
    requires t in w.threads && !Holds(w, t)
    ensures MovedOnly(w, UseRecord(w, t, fault), t)
  {
    hide Picked, FindPublication, FindReceipt, AnyReceipt;
  }

  /** Only the three steps of adding a record touch markers, records, and who holds a marker. */
  lemma OtherStepsAddNothing(w: World, e: Event)
    requires Enabled(w, e) && !AddsRecord(w, e)
    ensures var next := Apply(w, e);
            && next.m.pairs == w.m.pairs && next.m.purchases == w.m.purchases
            && (forall t | t in next.threads && Holds(next, t) ::
                  t in w.threads && Holds(w, t) && next.threads[t] == w.threads[t])
            && (forall t | t in w.threads && Holds(w, t) && !(e.Stop? && e.thread == t) ::
                  t in next.threads && next.threads[t] == w.threads[t])
  {
    hide Approach, UseRecord, AddRecord, IssueReceipt;
    if e.Advance? {
      ApproachingAddsNothing(w, e.thread, e.fault, e.identifier);
      UsingAddsNothing(w, e.thread, e.fault);
      IssuingAddsNothing(w, e.thread, e.fault);
    }
  }

  lemma IssuingAddsNothing(w: World, t: nat, fault: Option<CoreError>)
    requires t in w.threads && !Holds(w, t)
    ensures MovedOnly(w, IssueReceipt(w, t, fault), t)
  {
  }

  lemma AddingLeavesMarkers(w: World, t: nat, fault: Option<CoreError>, pair: Pair)
    requires t in w.threads && HolderSound(w, t) && pair in w.m.pairs
    ensures var next := AddRecord(w, t, fault);
            if pair in next.m.pairs then next.m.pairs[pair] == w.m.pairs[pair]
            else
              && fault.None? && w.threads[t].stage.Unlinking? && PairOf(w.threads[t].request) == pair
              && pair in w.owner && w.owner[pair] == t && Unrecorded(w.m, pair)
  {
    hide Unrecorded;
  }

  lemma MarkerLeaves(w: World, e: Event, pair: Pair)
    requires Sound(w) && Enabled(w, e) && pair in w.m.pairs
    ensures var next := Apply(w, e);
            if pair in next.m.pairs then next.m.pairs[pair] == w.m.pairs[pair]
            else
              && e.Advance? && e.fault.None? && w.threads[e.thread].stage.Unlinking?
              && PairOf(w.threads[e.thread].request) == pair
              && pair in w.owner && w.owner[pair] == e.thread && Unrecorded(w.m, pair)
  {
    hide Sound, Unrecorded, AddRecord, HolderSound;
    if AddsRecord(w, e) {
      ThreadSound(w, e.thread);
      AddingLeavesMarkers(w, e.thread, e.fault, pair);
    } else {
      OtherStepsAddNothing(w, e);
    }
  }

  /**
   A marker is never overwritten, and the only thread that ever removes one is the thread that
   linked it, while the pair has no record.
   */
  lemma UnlinksOwnMarker(worlds: seq<World>, events: seq<Event>, i: nat, pair: Pair)
    requires Run(worlds, events) && Initial(worlds[0]) && i < |events| && pair in worlds[i].m.pairs
    ensures var w, next := worlds[i], worlds[i + 1];
            if pair in next.m.pairs then next.m.pairs[pair] == w.m.pairs[pair]
            else
              && pair in w.owner && events[i] == Advance(w.owner[pair], None, events[i].identifier)
              && Unrecorded(w.m, pair)
  {
    hide Sound, Unrecorded;
    RunsAreSound(worlds, events, i);
    MarkerLeaves(worlds[i], events[i], pair);
  }

  lemma AddRecordGrows(w: World, t: nat, fault: Option<CoreError>)
    requires t in w.threads
    ensures Grows(w.m, AddRecord(w, t, fault).m)
  {
  }

  lemma StepGrows(w: World, e: Event)
    requires Enabled(w, e)
    ensures Grows(w.m, Apply(w, e).m)
  {
    hide Picked, AddRecord;
    if e.Advance? {
      AddRecordGrows(w, e.thread, e.fault);
    }
  }

  /** A record once there stays as it is, whatever happens afterwards. */
  lemma {:induction false} RecordsPersist(worlds: seq<World>, events: seq<Event>, i: nat, j: nat)
    requires Run(worlds, events) && i <= j < |worlds|
    ensures Grows(worlds[i].m, worlds[j].m)
  {
    hide Apply, Grows, Enabled;
    if i < j {
      RecordsPersist(worlds, events, i, j - 1);
      StepGrows(worlds[j - 1], events[j - 1]);
      GrowsOn(worlds[i].m, worlds[j - 1].m, worlds[j].m);
    } else {
      GrowsOn(worlds[i].m, worlds[i].m, worlds[i].m);
    }
  }

  lemma GrowsOn(a: Metadata, b: Metadata, c: Metadata)
    ensures Grows(a, a)
    ensures Grows(a, b) && Grows(b, c) ==> Grows(a, c)
  {
  }

  /**
   A purchase that returned a receipt is backed from then on: the receipt names a record of this
   user and publication, or the publication is the user's own. Every stored receipt is filed under
   a context recorded for its user.
   */
  lemma ReturnedIsBacked(worlds: seq<World>, events: seq<Event>, i: nat, j: nat, t: nat)
    requires Run(worlds, events) && Initial(worlds[0]) && i <= j < |worlds|
    requires t in worlds[i].threads && worlds[i].threads[t].stage.Finished? && worlds[i].threads[t].stage.result.Ok?
    ensures Backed(worlds[j].m, worlds[i].threads[t].request, worlds[i].threads[t].stage.result.value.header.purchaseId)
    ensures forall c, d | (c, d) in worlds[j].m.receipts :: ReceiptBacked(worlds[j].m, c, d)
  {
    hide PairsMark, HolderSound, ReceiptBacked;
    RunsAreSound(worlds, events, i);
    RunsAreSound(worlds, events, j);
    RecordsPersist(worlds, events, i, j);
    ThreadSound(worlds[i], t);
    StageStaysSound(worlds[i].m, worlds[j].m, worlds[i].threads[t]);
  }

  // ----- a marker left behind -----

  /** The pair has a marker but no record, and no thread that could still link or unlink one. */
  ghost predicate Abandoned(w: World, pair: Pair) {
    && pair in w.m.pairs && Unrecorded(w.m, pair)
    && forall t | t in w.threads && Holds(w, t) :: PairOf(w.threads[t].request) != pair
  }

  lemma AddingElsewhere(w: World, t: nat, fault: Option<CoreError>, pair: Pair)
    requires t in w.threads && (w.threads[t].stage.LinkingMarker? || Holds(w, t)) && Abandoned(w, pair)
    ensures Abandoned(AddRecord(w, t, fault), pair)
  {
  }

  lemma AbandonedStep(w: World, e: Event, pair: Pair)
    requires Enabled(w, e) && Abandoned(w, pair)
    ensures Abandoned(Apply(w, e), pair)
  {
    if AddsRecord(w, e) {
      hide Approach, UseRecord, IssueReceipt, AddRecord, Abandoned;
      AddingElsewhere(w, e.thread, e.fault, pair);
    } else {
      hide Apply, Unrecorded;
      OtherStepsAddNothing(w, e);
      assert Unrecorded(Apply(w, e).m, pair) by { UnrecordedAlike(w.m, Apply(w, e).m, pair); }
    }
  }

  /**
   The steps that leave a marker behind: the thread that has the marker of the pair stops, or it
   cannot link its record and then cannot unlink its marker either.
   */
  predicate Abandons(w: World, e: Event, pair: Pair) {
    match e
    case Stop(t) => t in w.threads && Holds(w, t) && PairOf(w.threads[t].request) == pair
    case Advance(t, fault, _) =>
      t in w.threads && w.threads[t].stage.Unlinking? && fault.Some? && PairOf(w.threads[t].request) == pair
    case Begin(_, _) => false
    case Published(_) => false
  }

  /** While a sound world has a holder of the pair, it is the only one. */
  lemma OneHolder(w: World, t: nat, u: nat)
    requires Sound(w) && t in w.threads && u in w.threads && Holds(w, t) && Holds(w, u)
    requires PairOf(w.threads[t].request) == PairOf(w.threads[u].request)
    ensures t == u
  {
    hide PairsMark, StageSound, ReceiptBacked;
    assert HolderSound(w, t) && HolderSound(w, u);
  }

  /** A holder keeps the pair from being abandoned, and so does a record or a missing marker. */
  lemma NotAbandoned(w: World, pair: Pair)
    ensures !Abandoned(w, pair) <==>
              || pair !in w.m.pairs || !Unrecorded(w.m, pair)
              || exists t :: t in w.threads && Holds(w, t) && PairOf(w.threads[t].request) == pair
  {
  }

  lemma StoppingAbandons(w: World, t: nat, pair: Pair)
    requires Sound(w) && t in w.threads && !Abandoned(w, pair)
    ensures Abandoned(Apply(w, Stop(t)), pair) <==> Abandons(w, Stop(t), pair)
  {
    var next := Apply(w, Stop(t));
    ThreadSound(w, t);
    hide Abandoned, Unrecorded, Sound;
    NotAbandoned(w, pair);
    NotAbandoned(next, pair);
    if Abandons(w, Stop(t), pair) {
      forall u | u in w.threads && Holds(w, u) && PairOf(w.threads[u].request) == pair ensures u == t {
        OneHolder(w, t, u);
      }
    } else if u :| u in w.threads && Holds(w, u) && PairOf(w.threads[u].request) == pair {
      assert u in next.threads && Holds(next, u);
    }
  }

  lemma MarkerLinkAbandonsNothing(w: World, t: nat, fault: Option<CoreError>, pair: Pair)
    requires t in w.threads && w.threads[t].stage.LinkingMarker? && !Abandoned(w, pair)
    ensures !Abandoned(AddRecord(w, t, fault), pair)
  {
    var next := AddRecord(w, t, fault);
    UnrecordedAlike(w.m, next.m, pair);
    NotAbandoned(w, pair);
    hide Abandoned, Unrecorded;
    NotAbandoned(next, pair);
    if u :| u in w.threads && Holds(w, u) && PairOf(w.threads[u].request) == pair {
      assert u in next.threads && Holds(next, u);
    } else if pair in next.m.pairs && pair !in w.m.pairs {
      assert t in next.threads && Holds(next, t);
    }
  }

  lemma RecordLinkAbandonsNothing(w: World, t: nat, fault: Option<CoreError>, pair: Pair)
    requires t in w.threads && w.threads[t].stage.LinkingRecord? && !Abandoned(w, pair)
    ensures !Abandoned(AddRecord(w, t, fault), pair)
  {
    var next := AddRecord(w, t, fault);
    AddRecordGrows(w, t, fault);
    NotAbandoned(w, pair);
    NotAbandoned(next, pair);
    if u :| u in w.threads && Holds(w, u) && PairOf(w.threads[u].request) == pair {
      assert u in next.threads;
      if u == t && !Holds(next, t) {
        assert w.threads[t].stage.id in next.m.purchases;
      } else {
        assert Holds(next, u);
      }
    }
  }

  /** What unlinking changes: the marker, unless it fails, and the thread, which holds nothing any more. */
  lemma Unlinked(w: World, t: nat, fault: Option<CoreError>)
    requires t in w.threads && w.threads[t].stage.Unlinking?
    ensures var next := AddRecord(w, t, fault);
            && next.m.purchases == w.m.purchases
            && next.m.pairs == (if fault.Some? then w.m.pairs else w.m.pairs - {PairOf(w.threads[t].request)})
            && t in next.threads && next.threads == w.threads[t := next.threads[t]] && !Holds(next, t)
  {
    var next := AddRecord(w, t, fault);
    var pair := PairOf(w.threads[t].request);
    if fault.Some? {
      assert next == Now(w, t, Finished(Err(fault.value)));
    } else {
      var unlinked := w.(m := w.m.(pairs := w.m.pairs - {pair}), owner := w.owner - {pair});
      assert next == Now(unlinked, t, next.threads[t].stage);
    }
    hide AddRecord;
  }

  lemma UnlinkingAbandons(w: World, t: nat, fault: Option<CoreError>, pair: Pair)
    requires Sound(w) && t in w.threads && w.threads[t].stage.Unlinking? && !Abandoned(w, pair)
    ensures Abandoned(AddRecord(w, t, fault), pair) <==> fault.Some? && PairOf(w.threads[t].request) == pair
  {
    hide Abandoned, Unrecorded, Sound, AddRecord;
    var next := AddRecord(w, t, fault);
    ThreadSound(w, t);
    Unlinked(w, t, fault);
    UnrecordedAlike(w.m, next.m, pair);
    NotAbandoned(w, pair);
    NotAbandoned(next, pair);
    if PairOf(w.threads[t].request) == pair {
      forall u | u in w.threads && Holds(w, u) && PairOf(w.threads[u].request) == pair ensures u == t {
        OneHolder(w, t, u);
      }
    } else if u :| u in w.threads && Holds(w, u) && PairOf(w.threads[u].request) == pair {
      assert u in next.threads && Holds(next, u);
    }
  }

  /** A step leaves a pair abandoned exactly when it is one of those: a stop of the holder, or a failed release. */
  lemma AbandonedExactly(w: World, e: Event, pair: Pair)
    requires Sound(w) && Enabled(w, e) && !Abandoned(w, pair)
    ensures Abandoned(Apply(w, e), pair) <==> Abandons(w, e, pair)
  {
    hide Sound, Abandoned, Approach, UseRecord, IssueReceipt, AddRecord;
    if e.Stop? {
      StoppingAbandons(w, e.thread, pair);
    } else if AddsRecord(w, e) {
      if w.threads[e.thread].stage.Unlinking? {
        UnlinkingAbandons(w, e.thread, e.fault, pair);
      } else if w.threads[e.thread].stage.LinkingMarker? {
        MarkerLinkAbandonsNothing(w, e.thread, e.fault, pair);
      } else {
        RecordLinkAbandonsNothing(w, e.thread, e.fault, pair);
      }
    } else {
      OtherStepAbandonsNothing(w, e, pair);
    }
  }

  lemma OtherStepAbandonsNothing(w: World, e: Event, pair: Pair)
    requires Enabled(w, e) && !AddsRecord(w, e) && !e.Stop? && !Abandoned(w, pair)
    ensures !Abandoned(Apply(w, e), pair)
  {
    hide Apply, Unrecorded;
    OtherStepsAddNothing(w, e);
    UnrecordedAlike(w.m, Apply(w, e).m, pair);
  }

  /** An abandoned pair is abandoned for good: nobody ever gets a record of it. */
  lemma {:induction false} AbandonedForGood(worlds: seq<World>, events: seq<Event>, i: nat, j: nat, pair: Pair)
    requires Run(worlds, events) && i <= j < |worlds| && Abandoned(worlds[i], pair)
    ensures Abandoned(worlds[j], pair)
  {
    hide Apply, Abandoned, Enabled;
    if i < j {
      AbandonedForGood(worlds, events, i, j - 1, pair);
      AbandonedStep(worlds[j - 1], events[j - 1], pair);
    }
  }

  /** After that, a purchase of the pair ends with a receipt only for the author of the publication. */
  lemma AbandonedIsNeverBought(worlds: seq<World>, events: seq<Event>, i: nat, j: nat, pair: Pair, t: nat)
    requires Run(worlds, events) && Initial(worlds[0]) && i <= j < |worlds| && Abandoned(worlds[i], pair)
    requires t in worlds[j].threads && PairOf(worlds[j].threads[t].request) == pair
    requires worlds[j].threads[t].stage.Finished? && worlds[j].threads[t].stage.result.Ok?
    ensures pair.1 in worlds[j].m.publications && worlds[j].m.publications[pair.1].authorId == pair.0
  {
    hide Apply, Enabled, Sound;
    AbandonedForGood(worlds, events, i, j, pair);
    ReturnedIsBacked(worlds, events, j, j, t);
  }

  lemma NoneAbandoned(w: World, pair: Pair)
    requires Initial(w)
    ensures !Abandoned(w, pair)
  {
  }

  /** In every run, a pair is abandoned if and only if the holder of its marker stopped or failed to release it. */
  lemma {:induction false} AbandonedIff(worlds: seq<World>, events: seq<Event>, j: nat, pair: Pair)
    requires Run(worlds, events) && Initial(worlds[0]) && j < |worlds|
    ensures Abandoned(worlds[j], pair) <==> exists i :: 0 <= i < j && Abandons(worlds[i], events[i], pair)
  {
    hide Sound, Apply, Enabled, Abandons, Initial;
    if j == 0 {
      NoneAbandoned(worlds[0], pair);
    } else {
      hide Abandoned;
      AbandonedIff(worlds, events, j - 1, pair);
      RunsAreSound(worlds, events, j - 1);
      if Abandoned(worlds[j - 1], pair) {
        AbandonedStep(worlds[j - 1], events[j - 1], pair);
      } else {
        AbandonedExactly(worlds[j - 1], events[j - 1], pair);
      }
    }
  }

  // ----- both ways there -----

  lemma RunGoesOn(worlds: seq<World>, events: seq<Event>, e: Event) returns (on: seq<World>)
    requires Run(worlds, events) && Enabled(worlds[|events|], e)
    ensures Run(on, events + [e]) && on[0] == worlds[0]
    ensures on == worlds + [Apply(worlds[|events|], e)]
  {
    hide Apply, Enabled;
    on := worlds + [Apply(worlds[|events|], e)];
    forall i | 0 <= i < |events + [e]|
      ensures Enabled(on[i], (events + [e])[i]) && on[i + 1] == Apply(on[i], (events + [e])[i])
    {
      assert on[i] == worlds[i];
      if i < |events| {
        assert (events + [e])[i] == events[i] && on[i + 1] == worlds[i + 1];
      }
    }
  }

  /** The steps of a purchase up to its marker. */
  function Approaching(request: Request, id: Id): seq<Event> {
    [Begin(0, request), Advance(0, None, id), Advance(0, None, id), Advance(0, None, id), Advance(0, None, id),
     Advance(0, None, id)]
  }

  /** A single purchase that meets no failure gets to its marker. */
  lemma LinksMarker(w: World, request: Request, id: Id) returns (worlds: seq<World>)
    requires Initial(w) && request.publication in w.m.publications
    requires w.m.publications[request.publication].authorId != request.user
    ensures Run(worlds, Approaching(request, id)) && worlds[0] == w
    ensures var publication := w.m.publications[request.publication];
            0 in worlds[6].threads && worlds[6].threads[0] == Thread(request, LinkingRecord(publication, id))
  {
    hide IssueReceipt, UseRecord, FindReceipt;
    var publication := w.m.publications[request.publication];
    var w1 := w.(threads := map[0 := Thread(request, Listing)]);
    var w2 := Now(w1, 0, Loading(w.m.purchases.Keys));
    var w3 := Now(w2, 0, ReadingPublication);
    var w4 := Now(w3, 0, DrawingIdentifier(publication));
    var w5 := Now(w4, 0, LinkingMarker(publication, id));
    var w6 := Apply(w5, Advance(0, None, id));
    assert w1 == Apply(w, Begin(0, request));
    assert w2 == Apply(w1, Advance(0, None, id));
    assert w3 == Apply(w2, Advance(0, None, id));
    assert w4 == Apply(w3, Advance(0, None, id));
    assert w5 == Apply(w4, Advance(0, None, id));
    worlds := [w, w1, w2, w3, w4, w5, w6];
  }

  /**
   Both causes are reachable, for any publication by another user: a purchase links its marker and
   stops, or it fails to link its record and then to unlink its marker.
   */
  lemma AbandonedRuns(w: World, request: Request, id: Id, stops: bool) returns (worlds: seq<World>, events: seq<Event>)
    requires Initial(w) && request.publication in w.m.publications
    requires w.m.publications[request.publication].authorId != request.user
    ensures Run(worlds, events) && worlds[0] == w && Abandoned(worlds[|events|], PairOf(request))
    ensures var fails := Advance(0, Some(StorageFailed), id);
            events == Approaching(request, id) + if stops then [Stop(0)] else [fails] + [fails]
  {
    hide Initial;
    var fails := Advance(0, Some(StorageFailed), id);
    events := Approaching(request, id);
    worlds := LinksMarker(w, request, id);
    if stops {
      worlds := RunGoesOn(worlds, events, Stop(0));
      events := events + [Stop(0)];
    } else {
      worlds := RunGoesOn(worlds, events, fails);
      events := events + [fails];
      assert worlds[7].threads[0].stage.Unlinking?;
      worlds := RunGoesOn(worlds, events, fails);
      events := events + [fails];
    }
    hide Run, Apply, Abandoned;
    assert Abandons(worlds[|events| - 1], events[|events| - 1], PairOf(request));
    AbandonedIff(worlds, events, |events|, PairOf(request));
  }
}
