/**
 One client, the only one with its device key, against the server: what the client keeps locally
 and what the server keeps for its device, over whole runs with lost replies, repeated attempts,
 failed saves and wiped local stores.
 */
module ClientAgreement {
  import opened Bytes
  import opened Errors
  import opened Utf8
  import opened CanonicalForm
  import opened Crypto
  import opened StoreContents
  import opened Requests
  import opened EndToEnd

  type Local = map<Id, Receipt>

  datatype Sides = Sides(server: World, local: Local)

  /** How an attempt ends for the client: no reply, a reply that cannot be saved, or a reply that is saved. */
  datatype Ending = Lost | NotSaved | Saved

  /** A request sent by this client, anything else the server does, or a loss of local receipts. */
  datatype ClientEvent =
    | Attempt(event: Event, ending: Ending)
    | Elsewhere(event: Event)
    | Wiped(contexts: set<Id>)

  /** What the client keeps after a reply. */
  function Kept(local: Local, reply: Result<Receipt, CoreError>, ending: Ending): Local {
    if reply.Ok? && ending.Saved? then local[reply.value.header.purchaseId := reply.value] else local
  }

  ghost function Reply(s: State, e: Event): Result<Receipt, CoreError> {
    match e
    case Purchase(user, publication, device, at, identifier, faults) =>
      Buy(s, user, publication, device, at, identifier, faults).1
    case Restoration(user, context, device, at, faults) => Restore(s, user, context, device, at, faults).1
    case _ => Err(ConnectionFailed)
  }

  /** Whether a request is for this device. */
  predicate For(e: Event, device: DeviceKey) {
    || (e.Purchase? && e.device == device)
    || (e.Restoration? && e.device == device)
    || (e.Delivery? && e.device == device)
  }

  /** The client restores a receipt only while it has none for the context, and nobody else has its key. */
  predicate Follows(x: Sides, device: DeviceKey, c: ClientEvent) {
    match c
    case Attempt(e, _) => Enabled(x.server, e) && For(e, device) && (e.Restoration? ==> e.context !in x.local)
    case Elsewhere(e) => Enabled(x.server, e) && !For(e, device)
    case Wiped(_) => true
  }

  ghost function Next(pr: Primitives, x: Sides, c: ClientEvent): Sides {
    match c
    case Attempt(e, ending) => Sides(Apply(pr, x.server, e), Kept(x.local, Reply(x.server.state, e), ending))
    case Elsewhere(e) => x.(server := Apply(pr, x.server, e))
    case Wiped(contexts) => x.(local := x.local - contexts)
  }

  /** Every receipt kept by the client is the one the server has stored for its context and this device. */
  ghost predicate Agreed(x: Sides, device: DeviceKey) {
    forall c | c in x.local ::
      && (c, device) in x.server.state.metadata.receipts
      && x.server.state.metadata.receipts[(c, device)].receipt == x.local[c]
  }

  /**
   The one case in which a purchase replaces a stored receipt: an author takes a receipt of a
   publication of their own and the receipt store cannot be read. The failure is taken for a missing receipt.
   */
  predicate BlindReissue(m: Metadata, e: Event) {
    && e.Purchase? && ReadReceipt in e.faults
    && e.publication in m.publications && m.publications[e.publication].authorId == e.user
  }

  // ----- which stored receipts a request leaves as they are -----

  predicate ReceiptsStay(m: Metadata, n: Metadata, except: set<(Id, DeviceKey)>) {
    forall k | k in m.receipts && k !in except :: k in n.receipts && n.receipts[k] == m.receipts[k]
  }

  /** Every key inside a stored receipt has been drawn, so the next one drawn differs from all of them. */
  predicate KeysDrawn(s: State) {
    forall k | k in s.metadata.receipts :: s.metadata.receipts[k].receipt.wrappedKey.key < s.keys.drawn
  }

  predicate Steady(s: State, after: State, except: set<(Id, DeviceKey)>) {
    ReceiptsStay(s.metadata, after.metadata, except) && (KeysDrawn(s) ==> KeysDrawn(after))
  }

  lemma IssueStays(s: State, context: Id, user: UserId, publication: PublicationRecord, grantedAt: Timestamp,
                   device: DeviceKey, issuedAt: Timestamp, faults: Faults)
    ensures var after := Issue(s, context, user, publication, grantedAt, device, issuedAt, faults).0;
            Steady(s, after, {(context, device)})
  {
  }

  /** The receipt of a record is issued only when nothing is stored for the record and device. */
  lemma ReceiptForStays(s: State, purchase: PurchaseRecord, device: DeviceKey, issuedAt: Timestamp, faults: Faults)
    ensures var after := ReceiptFor(s, purchase, device, issuedAt, faults).0;
            Steady(s, after, {})
  {
    hide Issue;
    var publication := FindPublication(s.metadata, purchase.publicationId, faults);
    if publication.Ok? {
      IssueStays(s, purchase.purchaseId, purchase.userId, publication.value, purchase.purchasedAt, device, issuedAt,
                 faults);
    }
  }

  lemma AddedStays(m: Metadata, record: PurchaseRecord, faults: Faults)
    ensures AddPurchase(m, record, faults).0.receipts == m.receipts
  {
  }

  lemma ReceiptHasContext(pr: Primitives, w: World)
    requires Sound(pr, w)
    ensures forall c, d | (c, d) in w.state.metadata.receipts :: IsContext(w.state.metadata, c)
  {
    hide PublicationsSound, PurchasesSound;
    forall c, d | (c, d) in w.state.metadata.receipts ensures IsContext(w.state.metadata, c) {
      assert ReceiptSound(w, c, d);
    }
  }

  lemma SteadyWithout(s: State, after: State, k: (Id, DeviceKey))
    requires Steady(s, after, {k}) && k !in s.metadata.receipts
    ensures Steady(s, after, {})
  {
  }

  lemma SteadyFrom(s: State, other: State, after: State)
    requires other.metadata.receipts == s.metadata.receipts && other.keys == s.keys
    ensures Steady(s, s, {}) && Steady(s, other, {}) && Steady(other, after, {}) == Steady(s, after, {})
  {
  }

  /** Buying never replaces a stored receipt, but for a blind reissue. */
  lemma BuyStays(pr: Primitives, w: World, e: Event)
    requires Sound(pr, w) && Enabled(w, e) && e.Purchase? && !BlindReissue(w.state.metadata, e)
    ensures Steady(w.state, Apply(pr, w, e).state, {})
  {
    hide Issue, ReceiptFor, AddPurchase, FindPurchaseOf, Sound, Publish, Fetch, Restore, Steady;
    var s := w.state;
    var (m, added) := AddPurchase(s.metadata, PurchaseRecord(e.identifier, e.user, e.publication, e.at), e.faults);
    AddedStays(s.metadata, PurchaseRecord(e.identifier, e.user, e.publication, e.at), e.faults);
    ReceiptHasContext(pr, w);
    var after := s.(metadata := m);
    var next := Apply(pr, w, e).state;
    SteadyFrom(s, after, next);
    var existing := FindPurchaseOf(s.metadata, e.user, e.publication, e.faults);
    var concurrent := FindPurchaseOf(m, e.user, e.publication, Later(e.faults));
    var publication := FindPublication(s.metadata, e.publication, e.faults);
    if existing.Ok? {
      ReceiptForStays(s, existing.value, e.device, e.at, e.faults);
    } else if publication.Ok? {
      if concurrent.Ok? {
        ReceiptForStays(after, concurrent.value, e.device, e.at, Later(e.faults));
      }
      if publication.value.authorId == e.user && (e.publication, e.device) !in s.metadata.receipts {
        IssueStays(s, e.publication, e.user, publication.value, publication.value.publishedAt, e.device, e.at,
                   e.faults);
        var issued := Issue(s, e.publication, e.user, publication.value, publication.value.publishedAt, e.device,
                            e.at, e.faults);
        SteadyWithout(s, issued.0, (e.publication, e.device));
      }
      IssueStays(after, e.identifier, e.user, publication.value, e.at, e.device, e.at, e.faults);
      var bought := Issue(after, e.identifier, e.user, publication.value, e.at, e.device, e.at, e.faults);
      SteadyWithout(after, bought.0, (e.identifier, e.device));
    }
  }

  /** Requests for other devices leave the receipts of this one alone. */
  lemma ElsewhereStays(pr: Primitives, w: World, e: Event, device: DeviceKey)
    requires !For(e, device)
    ensures forall c | (c, device) in w.state.metadata.receipts ::
              && (c, device) in Apply(pr, w, e).state.metadata.receipts
              && Apply(pr, w, e).state.metadata.receipts[(c, device)] == w.state.metadata.receipts[(c, device)]
  {
    hide Issue, ReceiptFor, AddPurchase, FindPurchaseOf, Publish, Fetch;
    match e
    case Purchase(user, publication, other, at, identifier, faults) => BuyOutside(w.state, e);
    case Restoration(user, context, other, at, faults) =>
      var access := ResolveAccess(w.state.metadata, user, context, faults);
      if access.Ok? {
        IssueStays(w.state, context, user, access.value.publication, access.value.grantedAt, other, at, faults);
      }
    case Publication(_, _, _, _, _, _, _) => PublishStays(pr, w.state, e);
    case Delivery(user, context, other, faults) => FetchChangesNothing(pr, w.state, user, context, other, faults);
    case Registration(_, _) =>
    case MasterKeyDeleted =>
  }

  lemma PublishStays(pr: Primitives, s: State, e: Event)
    requires e.Publication?
    ensures Steady(s, Publish(pr, s, e.author, e.draft, e.authorKey, e.signature, e.at, e.identifier, e.faults).0, {})
  {
    hide ValidText, Canonical, ContentIdentity, ObtainFileKey;
    ObtainDraws(s.keys, ContentIdentity(pr, Canonical(e.draft.content)), e.faults);
  }

  lemma ObtainDraws(k: Keys, identity: Identity, faults: Faults)
    ensures ObtainFileKey(k, identity, faults).0.drawn >= k.drawn
  {
  }

  /** A purchase, blind reissues included, leaves the receipts of other devices alone. */
  lemma BuyOutside(s: State, e: Event)
    requires e.Purchase?
    ensures var after := Buy(s, e.user, e.publication, e.device, e.at, e.identifier, e.faults).0;
            && (forall k | k in s.metadata.receipts && k.1 != e.device ::
                  k in after.metadata.receipts && after.metadata.receipts[k] == s.metadata.receipts[k])
            && (KeysDrawn(s) ==> KeysDrawn(after))
  {
    hide Issue, ReceiptFor, AddPurchase, FindPurchaseOf;
    var (m, added) := AddPurchase(s.metadata, PurchaseRecord(e.identifier, e.user, e.publication, e.at), e.faults);
    AddedStays(s.metadata, PurchaseRecord(e.identifier, e.user, e.publication, e.at), e.faults);
    var after := s.(metadata := m);
    var existing := FindPurchaseOf(s.metadata, e.user, e.publication, e.faults);
    var concurrent := FindPurchaseOf(m, e.user, e.publication, Later(e.faults));
    var publication := FindPublication(s.metadata, e.publication, e.faults);
    if existing.Ok? {
      ReceiptForStays(s, existing.value, e.device, e.at, e.faults);
    } else if publication.Ok? {
      if concurrent.Ok? {
        ReceiptForStays(after, concurrent.value, e.device, e.at, Later(e.faults));
      }
      IssueStays(s, e.publication, e.user, publication.value, publication.value.publishedAt, e.device, e.at, e.faults);
      IssueStays(after, e.identifier, e.user, publication.value, e.at, e.device, e.at, e.faults);
    }
  }

  lemma DrawnStays(pr: Primitives, w: World, e: Event)
    requires KeysDrawn(w.state)
    ensures KeysDrawn(Apply(pr, w, e).state)
  {
    hide Issue, Publish, Buy, Fetch;
    match e
    case Purchase(_, _, _, _, _, _) => BuyOutside(w.state, e);
    case Restoration(user, context, device, at, faults) =>
      var access := ResolveAccess(w.state.metadata, user, context, faults);
      if access.Ok? {
        IssueStays(w.state, context, user, access.value.publication, access.value.grantedAt, device, at, faults);
      }
    case Publication(_, _, _, _, _, _, _) => PublishStays(pr, w.state, e);
    case Delivery(user, context, other, faults) => FetchChangesNothing(pr, w.state, user, context, other, faults);
    case Registration(_, _) =>
    case MasterKeyDeleted =>
  }

  /** A reply is the receipt the server then has stored for its context and device. */
  lemma ReplyIsStored(pr: Primitives, w: World, e: Event, device: DeviceKey)
    requires Sound(pr, w) && Enabled(w, e) && For(e, device) && Reply(w.state, e).Ok?
    ensures var m, receipt := Apply(pr, w, e).state.metadata, Reply(w.state, e).value;
            && (receipt.header.purchaseId, device) in m.receipts
            && m.receipts[(receipt.header.purchaseId, device)].receipt == receipt
  {
    hide Buy, Restore, PublicationsSound, PurchasesSound;
    StepKeeps(pr, w, e);
    var receipt := Reply(w.state, e).value;
    var next := Apply(pr, w, e);
    assert next.returned == w.returned[(receipt.header.purchaseId, device) := receipt];
    assert (receipt.header.purchaseId, device) in next.state.metadata.receipts;
    assert ReceiptSound(next, receipt.header.purchaseId, device);
  }

  // ----- agreement, step by step -----

  /** The steps an issue takes after the context is known. */
  const ISSUE_STEPS: Faults := {DrawKey, ReadMaster, ReadFileKey, SealContent, SealEnvelope, WriteReceipt}

  /** The steps by which an author gets to the issue of a receipt of their own. */
  const OWN_STEPS: Faults := {ScanPurchases, ReadPublication}

  /**
   The client has a receipt for its own publication and asks again; the receipt store cannot be read
   but everything else a reissue takes works, and the client does not save the reply.
   */
  predicate Diverges(x: Sides, c: ClientEvent) {
    && c.Attempt? && BlindReissue(x.server.state.metadata, c.event)
    && x.server.state.keys.master.Some? && c.event.faults !! OWN_STEPS + ISSUE_STEPS
    && !c.ending.Saved? && c.event.publication in x.local
  }

  /** For a published content, an issue succeeds if and only if the master key is there and none of its steps fails. */
  lemma IssueOkIff(pr: Primitives, w: World, context: Id, id: Id, user: UserId, grantedAt: Timestamp, device: DeviceKey,
                   at: Timestamp, faults: Faults)
    requires Sound(pr, w) && id in w.state.metadata.publications
    ensures var r := Issue(w.state, context, user, w.state.metadata.publications[id], grantedAt, device, at, faults).1;
            && (r.Ok? <==> w.state.keys.master.Some? && faults !! ISSUE_STEPS)
            && (r.Ok? ==> r.value.header.purchaseId == context)
  {
    hide ReceiptsSound, PurchasesSound, WrapFileKey, ValidText, Canonical, ContentIdentity;
    assert PublicationSound(pr, w, id);
    WrapOkIff(w.state.keys.(drawn := w.state.keys.drawn + 1), w.state.metadata.publications[id].identity,
              w.state.keys.drawn, faults);
  }

  lemma WrapOkIff(k: Keys, identity: Identity, purchaseKey: Key, faults: Faults)
    requires KeysSound(k) && HasFileKey(k, identity)
    ensures WrapFileKey(k, identity, purchaseKey, faults).Ok? <==>
              k.master.Some? && ReadMaster !in faults && ReadFileKey !in faults && SealContent !in faults
  {
  }

  lemma NoOwnPurchase(pr: Primitives, w: World, e: Event)
    requires Sound(pr, w) && e.Purchase? && e.publication in w.state.metadata.publications
    requires w.state.metadata.publications[e.publication].authorId == e.user
    ensures forall id :: !IsPurchaseOf(w.state.metadata, id, e.user, e.publication)
  {
    hide PublicationsSound, ReceiptsSound, KeysSound, PairsMark;
  }

  /** What a purchase of one's own publication comes to. */
  function OwnPurchase(s: State, e: Event): (State, Result<Receipt, CoreError>)
    requires e.Purchase? && e.publication in s.metadata.publications
  {
    var publication := s.metadata.publications[e.publication];
    if e.faults * OWN_STEPS != {} then (s, Err(StorageFailed))
    else if ReadReceipt !in e.faults && (e.publication, e.device) in s.metadata.receipts then
      (s, Ok(s.metadata.receipts[(e.publication, e.device)].receipt))
    else Issue(s, e.publication, e.user, publication, publication.publishedAt, e.device, e.at, e.faults)
  }

  /** An issue touches no publication, no purchase and not the master key; a failed one only draws a key. */
  lemma IssueTouches(s: State, context: Id, user: UserId, publication: PublicationRecord, grantedAt: Timestamp,
                     device: DeviceKey, issuedAt: Timestamp, faults: Faults)
    ensures var (after, r) := Issue(s, context, user, publication, grantedAt, device, issuedAt, faults);
            && after.metadata.publications == s.metadata.publications
            && after.metadata.purchases == s.metadata.purchases
            && after.keys.master == s.keys.master && after.keys.drawn >= s.keys.drawn
            && (r.Err? ==> after.metadata == s.metadata)
  {
    hide WrapFileKey;
  }

  lemma OwnPurchaseIs(pr: Primitives, w: World, e: Event)
    requires Sound(pr, w) && e.Purchase? && e.publication in w.state.metadata.publications
    requires w.state.metadata.publications[e.publication].authorId == e.user
    ensures Buy(w.state, e.user, e.publication, e.device, e.at, e.identifier, e.faults) == OwnPurchase(w.state, e)
  {
    NoOwnPurchase(pr, w, e);
    OwnStepFails(e.faults);
    hide Sound, Issue, ReceiptFor, AddPurchase;
  }

  lemma OwnStepFails(faults: Faults)
    ensures faults * OWN_STEPS != {} <==> ScanPurchases in faults || ReadPublication in faults
  {
    if faults * OWN_STEPS != {} {
      var step :| step in faults * OWN_STEPS;
    }
    if ScanPurchases in faults {
      assert ScanPurchases in faults * OWN_STEPS;
    }
    if ReadPublication in faults {
      assert ReadPublication in faults * OWN_STEPS;
    }
  }

  /**
   An author without a readable receipt of their own publication is issued one, if and only if nothing fails
   on the way.
   */
  lemma OwnReplyIff(pr: Primitives, w: World, e: Event)
    requires Sound(pr, w) && e.Purchase? && e.publication in w.state.metadata.publications
    requires w.state.metadata.publications[e.publication].authorId == e.user
    requires ReadReceipt in e.faults || (e.publication, e.device) !in w.state.metadata.receipts
    ensures Reply(w.state, e).Ok? <==> w.state.keys.master.Some? && e.faults !! OWN_STEPS + ISSUE_STEPS
    ensures Reply(w.state, e).Ok? ==> Reply(w.state, e).value.header.purchaseId == e.publication
  {
    hide Sound, Issue, Buy;
    OwnPurchaseIs(pr, w, e);
    var grantedAt := w.state.metadata.publications[e.publication].publishedAt;
    IssueOkIff(pr, w, e.publication, e.publication, e.user, grantedAt, e.device, e.at, e.faults);
    assert e.faults !! OWN_STEPS + ISSUE_STEPS <==> e.faults * OWN_STEPS == {} && e.faults !! ISSUE_STEPS by {
      Apart(e.faults, OWN_STEPS, ISSUE_STEPS);
    }
  }

  lemma Apart(a: Faults, b: Faults, c: Faults)
    ensures a !! b + c <==> a * b == {} && a !! c
  {
    assert a !! b + c <==> forall x | x in a :: x !in b && x !in c;
    assert a * b == {} <==> forall x | x in a :: x !in b by {
      assert forall x | x in a && x in b :: x in a * b;
    }
  }

  lemma IssuedFor(s: State, context: Id, user: UserId, publication: PublicationRecord, grantedAt: Timestamp,
                  device: DeviceKey, issuedAt: Timestamp, faults: Faults)
    ensures var r := Issue(s, context, user, publication, grantedAt, device, issuedAt, faults).1;
            r.Ok? ==> r.value.header.purchaseId == context && r.value.wrappedKey.key == s.keys.drawn
  {
    hide WrapFileKey;
  }

  lemma BlindReply(pr: Primitives, w: World, e: Event)
    requires Sound(pr, w) && KeysDrawn(w.state) && BlindReissue(w.state.metadata, e) && Reply(w.state, e).Ok?
    ensures var receipt := Reply(w.state, e).value;
            && receipt.header.purchaseId == e.publication && receipt.wrappedKey.key == w.state.keys.drawn
            && Steady(w.state, Apply(pr, w, e).state, {(e.publication, e.device)})
  {
    OwnPurchaseIs(pr, w, e);
    hide Sound, Buy, Steady, Issue, KeysDrawn, Publish, Restore, Fetch, Seen;
    var publication := w.state.metadata.publications[e.publication];
    IssuedFor(w.state, e.publication, e.user, publication, publication.publishedAt, e.device, e.at, e.faults);
    IssueStays(w.state, e.publication, e.user, publication, publication.publishedAt, e.device, e.at, e.faults);
  }

  lemma RestoreStays(pr: Primitives, w: World, e: Event)
    requires e.Restoration?
    ensures Steady(w.state, Apply(pr, w, e).state, {(e.context, e.device)})
  {
    hide Issue;
    var access := ResolveAccess(w.state.metadata, e.user, e.context, e.faults);
    if access.Ok? {
      IssueStays(w.state, e.context, e.user, access.value.publication, access.value.grantedAt, e.device, e.at,
                 e.faults);
    }
  }

  /**
   With a single client per device key, a step keeps client and server agreed exactly unless it is
   a blind reissue that the client does not get to save.
   */
  lemma StepAgrees(pr: Primitives, x: Sides, device: DeviceKey, c: ClientEvent)
    requires Sound(pr, x.server) && KeysDrawn(x.server.state) && Agreed(x, device) && Follows(x, device, c)
    ensures Agreed(Next(pr, x, c), device) <==> !Diverges(x, c)
  {
    hide Sound, Apply, Reply, KeysDrawn;
    match c
    case Wiped(_) =>
    case Elsewhere(e) => ElsewhereStays(pr, x.server, e, device);
    case Attempt(e, ending) => AttemptAgrees(pr, x, device, e, ending);
  }

  lemma AttemptAgrees(pr: Primitives, x: Sides, device: DeviceKey, e: Event, ending: Ending)
    requires Sound(pr, x.server) && KeysDrawn(x.server.state) && Agreed(x, device)
             && Follows(x, device, Attempt(e, ending))
    ensures Agreed(Next(pr, x, Attempt(e, ending)), device) <==> !Diverges(x, Attempt(e, ending))
  {
    hide Sound, Apply, Reply, KeysDrawn;
    var w := x.server;
    if Reply(w.state, e).Ok? {
      ReplyIsStored(pr, w, e, device);
    }
    if e.Delivery? {
      DeliveryStays(pr, w, e);
    } else if e.Restoration? {
      RestoreStays(pr, w, e);
    } else if !BlindReissue(w.state.metadata, e) {
      BuyStays(pr, w, e);
    } else {
      OwnReplyIff(pr, w, e);
      if Reply(w.state, e).Ok? {
        BlindReply(pr, w, e);
        if e.publication in x.local {
          StoredKeyDrawn(w.state, e.publication, device);
        }
      } else {
        BlindFailure(pr, w, e);
      }
    }
  }

  lemma StoredKeyDrawn(s: State, c: Id, device: DeviceKey)
    requires KeysDrawn(s) && (c, device) in s.metadata.receipts
    ensures s.metadata.receipts[(c, device)].receipt.wrappedKey.key < s.keys.drawn
  {
  }

  lemma DeliveryStays(pr: Primitives, w: World, e: Event)
    requires e.Delivery?
    ensures Apply(pr, w, e) == w && Reply(w.state, e).Err?
  {
    hide Fetch;
    FetchChangesNothing(pr, w.state, e.user, e.context, e.device, e.faults);
  }

  lemma BlindFailure(pr: Primitives, w: World, e: Event)
    requires Sound(pr, w) && BlindReissue(w.state.metadata, e) && Reply(w.state, e).Err?
    ensures Steady(w.state, Apply(pr, w, e).state, {})
  {
    hide Sound, Buy, Issue;
    OwnPurchaseIs(pr, w, e);
    var publication := w.state.metadata.publications[e.publication];
    IssueTouches(w.state, e.publication, e.user, publication, publication.publishedAt, e.device, e.at, e.faults);
  }

  // ----- over whole runs -----

  ghost predicate Run(pr: Primitives, device: DeviceKey, sides: seq<Sides>, events: seq<ClientEvent>) {
    && |sides| == |events| + 1 && sides[0] == Sides(EMPTY, map[])
    && forall i | 0 <= i < |events| ::
      Follows(sides[i], device, events[i]) && sides[i + 1] == Next(pr, sides[i], events[i])
  }

  lemma {:induction false} RunsAreSound(pr: Primitives, device: DeviceKey, sides: seq<Sides>,
                                        events: seq<ClientEvent>, i: nat)
    requires Run(pr, device, sides, events) && i < |sides|
    ensures Sound(pr, sides[i].server) && KeysDrawn(sides[i].server.state)
  {
    if i > 0 {
      hide Sound, KeysDrawn, Apply, Enabled;
      RunsAreSound(pr, device, sides, events, i - 1);
      var c := events[i - 1];
      assert Follows(sides[i - 1], device, c);
      if !c.Wiped? {
        StepKeeps(pr, sides[i - 1].server, c.event);
        DrawnStays(pr, sides[i - 1].server, c.event);
      }
    }
  }

  /**
   Replies lost, attempts repeated, saves failed, local stores wiped, other devices active: as long
   as no step is a blind reissue that goes unsaved, each local receipt is the server's current one.
   */
  lemma {:induction false} RunsAgree(pr: Primitives, device: DeviceKey, sides: seq<Sides>, events: seq<ClientEvent>,
                                     i: nat)
    requires Run(pr, device, sides, events) && i < |sides|
    requires forall j | 0 <= j < i :: !Diverges(sides[j], events[j])
    ensures Agreed(sides[i], device)
  {
    if i > 0 {
      hide Next, Follows, Diverges;
      RunsAgree(pr, device, sides, events, i - 1);
      RunsAreSound(pr, device, sides, events, i - 1);
      StepAgrees(pr, sides[i - 1], device, events[i - 1]);
    }
  }

  /** So whatever the client then fetches opens with the receipt it has, to the published text up to its mark. */
  lemma AgreedFetchOpens(pr: Primitives, device: DeviceKey, sides: seq<Sides>, events: seq<ClientEvent>, i: nat,
                         user: UserId, context: Id, private: DevicePrivateKey, faults: Faults)
    requires Run(pr, device, sides, events) && i < |sides|
    requires forall j | 0 <= j < i :: !Diverges(sides[j], events[j])
    requires pr.publicOf(private) == device && context in sides[i].local
    requires Fetch(pr, sides[i].server.state, user, context, device, faults).1.Ok?
    ensures var w := sides[i].server;
            && IsContext(w.state.metadata, context)
            && PublicationOf(w.state.metadata, context) in w.drafts
            && OpensTo(pr, Fetch(pr, w.state, user, context, device, faults).1.value, sides[i].local[context], private,
                       w.drafts[PublicationOf(w.state.metadata, context)])
  {
    hide Sound, Fetch, OpensTo, Next, Follows, Diverges, KeysDrawn;
    RunsAgree(pr, device, sides, events, i);
    RunsAreSound(pr, device, sides, events, i);
    SoundFetchOpens(pr, sides[i].server, user, context, device, private, faults);
  }

  // ----- a run that diverges -----

  /** Publishing into empty stores. */
  lemma FirstPublication(pr: Primitives, s: State, e: Event)
    requires e.Publication? && e.faults == {} && e.author in s.metadata.users && s.metadata.publications == map[]
    requires ValidText(e.draft.content)
    requires pr.signed(ContentIdentity(pr, Canonical(e.draft.content)), s.metadata.users[e.author], e.signature,
                       e.authorKey)
    requires s.keys == Keys(None, map[], 0) && s.claims == {}
    ensures var (after, r) := Publish(pr, s, e.author, e.draft, e.authorKey, e.signature, e.at, e.identifier, e.faults);
            && r.Ok? && r.value.authorId == e.author && after.keys.master.Some?
            && after.metadata == s.metadata.(publications := map[e.identifier := r.value])
  {
    hide ValidText, Canonical;
    NothingFails(0);
    CanonicalIsStable(e.draft.content);
  }

  /**
   The exception is reachable, for any text signed by its author: the author registers, publishes,
   takes a receipt, and asks again when the receipt store cannot be read; the second reply is lost
   and the first receipt is stale.
   */
  lemma StrandedRun(pr: Primitives, device: DeviceKey, author: UserId, name: Name, draft: Draft, authorKey: AuthorKey,
                    signature: Signature, id: Id, other: Id, at: Timestamp)
    returns (sides: seq<Sides>, events: seq<ClientEvent>)
    requires ValidText(draft.content) && id != other
    requires pr.signed(ContentIdentity(pr, Canonical(draft.content)), name, signature, authorKey)
    ensures Run(pr, device, sides, events)
    ensures events == [
              Elsewhere(Registration(author, name)),
              Elsewhere(Publication(author, draft, authorKey, signature, at, id, {})),
              Attempt(Purchase(author, id, device, at, other, {}), Saved),
              Attempt(Purchase(author, id, device, at, other, {ReadReceipt}), Lost)]
    ensures id in sides[3].local && Agreed(sides[3], device) && !Agreed(sides[4], device)
  {
    hide ValidText, Canonical, ContentIdentity, Sound, KeysDrawn, Publish, Buy, Diverges;
    var register := Elsewhere(Registration(author, name));
    var publish := Elsewhere(Publication(author, draft, authorKey, signature, at, id, {}));
    var take := Attempt(Purchase(author, id, device, at, other, {}), Saved);
    var again := Attempt(Purchase(author, id, device, at, other, {ReadReceipt}), Lost);
    var start := Sides(EMPTY, map[]);
    var registered := Next(pr, start, register);
    var published := Next(pr, registered, publish);
    var taken := Next(pr, published, take);
    events := [register, publish, take, again];
    sides := [start, registered, published, taken, Next(pr, taken, again)];
    FirstPublication(pr, registered.server.state, publish.event);
    StartIsSound(pr);
    StepKeeps(pr, start.server, register.event);
    DrawnStays(pr, start.server, register.event);
    StepKeeps(pr, registered.server, publish.event);
    DrawnStays(pr, registered.server, publish.event);
    StrandedAtLast(pr, published, device, author, id, at, other);
  }

  lemma StartIsSound(pr: Primitives)
    ensures Sound(pr, EMPTY) && KeysDrawn(EMPTY.state)
  {
  }

  lemma OwnPurchaseKeeps(pr: Primitives, w: World, e: Event)
    requires Sound(pr, w) && e.Purchase? && e.publication in w.state.metadata.publications
    requires w.state.metadata.publications[e.publication].authorId == e.user
    ensures var after := Apply(pr, w, e).state;
            && after.metadata.publications == w.state.metadata.publications
            && after.metadata.purchases == w.state.metadata.purchases && after.keys.master == w.state.keys.master
  {
    hide Sound, Buy, Issue;
    OwnPurchaseIs(pr, w, e);
    var publication := w.state.metadata.publications[e.publication];
    IssueTouches(w.state, e.publication, e.user, publication, publication.publishedAt, e.device, e.at, e.faults);
  }

  /** The two purchases that strand a receipt, from any state in which the author's publication has no receipt yet. */
  lemma StrandedAtLast(pr: Primitives, x: Sides, device: DeviceKey, author: UserId, id: Id, at: Timestamp, other: Id)
    requires Sound(pr, x.server) && KeysDrawn(x.server.state) && x.local == map[] && x.server.state.keys.master.Some?
    requires var m := x.server.state.metadata;
             && id in m.publications && m.publications[id].authorId == author && (id, device) !in m.receipts
             && other !in m.publications && other !in m.purchases
    ensures var take := Attempt(Purchase(author, id, device, at, other, {}), Saved);
            var again := Attempt(Purchase(author, id, device, at, other, {ReadReceipt}), Lost);
            var y := Next(pr, x, take);
            && Follows(x, device, take) && Follows(y, device, again)
            && id in y.local && Agreed(y, device) && !Agreed(Next(pr, y, again), device)
  {
    hide Sound, KeysDrawn, Reply, Apply;
    var take := Purchase(author, id, device, at, other, {});
    var again := Purchase(author, id, device, at, other, {ReadReceipt});
    var y := Next(pr, x, Attempt(take, Saved));
    OwnReplyIff(pr, x.server, take);
    StepKeeps(pr, x.server, take);
    DrawnStays(pr, x.server, take);
    StepAgrees(pr, x, device, Attempt(take, Saved));
    OwnPurchaseKeeps(pr, x.server, take);
    StepAgrees(pr, y, device, Attempt(again, Lost));
  }
}
