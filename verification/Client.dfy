/** The client facade: buying, the receipts it keeps, and fetching content with them. */
module Client {
  import opened Bytes
  import opened Errors
  import opened CanonicalForm
  import opened MarkChannel
  import opened Crypto
  import opened StoreContents
  import opened Requests
  import opened EndToEnd
  import opened ClientAgreement
  import opened Answers
  import Services

  /** What becomes of looking into the local store: a receipt kept there may have been damaged and not decode. */
  datatype Look = Readable | Unreadable | Damaged(error: CoreError)

  /**
   What goes wrong on the way of one fetch: in the three requests it sends, in the local store, on the
   line, and in the store of the device key, which is asked for the public key and to open the receipt.
   */
  datatype Trouble = Trouble(
    identityFaults: Faults, restoreFaults: Faults, packageFaults: Faults, look: Look, identityLost: bool,
    restored: Ending, packageLost: bool, deviceKey: Option<CoreError>, receiptKey: Option<CoreError>)

  const NO_TROUBLE := Trouble({}, {}, {}, Readable, false, Saved, false, None, None)

  /** What the caller is told of a reply. */
  function Told(reply: Result<Receipt, CoreError>, ending: Ending): Result<Receipt, CoreError> {
    if ending.Lost? then Err(ConnectionFailed)
    else if reply.Ok? && ending.NotSaved? then Err(StorageFailed)
    else reply
  }

  /** The receipt kept for a context, or else one restored by the server. */
  function ReceiptOf(s: State, local: Local, user: UserId, context: Id, device: DeviceKey, at: Timestamp,
                     trouble: Trouble)
    : (State, Local, Result<Receipt, CoreError>)
  {
    if trouble.look.Unreadable? then (s, local, Err(StorageFailed))
    else if context in local then
      (s, local, if trouble.look.Damaged? then Err(trouble.look.error) else Ok(local[context]))
    else
      var (after, reply) := Restore(s, user, context, device, at, trouble.restoreFaults);
      (after, Kept(local, reply, trouble.restored), Told(reply, trouble.restored))
  }

  ghost function ContentOf(pr: Primitives, s: State, local: Local, user: UserId, context: Id, private: DevicePrivateKey,
                           at: Timestamp, trouble: Trouble): (State, Local, Result<seq<byte>, CoreError>)
  {
    var device := pr.publicOf(private);
    var access := ResolveAccess(s.metadata, user, context, trouble.identityFaults);
    if trouble.identityLost then (s, local, Err(ConnectionFailed))
    else if access.Err? then (s, local, Err(access.error))
    else if trouble.deviceKey.Some? then (s, local, Err(trouble.deviceKey.value))
    else
      var (after, kept, receipt) := ReceiptOf(s, local, user, context, device, at, trouble);
      if receipt.Err? then (after, kept, Err(receipt.error))
      else
        var key := OpenReceiptKey(pr, receipt.value, private);
        if trouble.receiptKey.Some? then (after, kept, Err(trouble.receiptKey.value))
        else if key.Err? then (after, kept, Err(key.error))
        else
          var (end, package) := Fetch(pr, after, user, context, device, trouble.packageFaults);
          (end, kept,
           if trouble.packageLost then Err(ConnectionFailed)
           else if package.Err? then Err(package.error)
           else Accepted(pr, access.value.publication.identity, package.value, key.value))
  }

  /** What becomes of a package that arrived, whoever sent it. */
  function Accepted(pr: Primitives, expected: Identity, package: Package, key: Key): Result<seq<byte>, CoreError> {
    if package.identity != expected then Err(ContentMismatch) else OpenPackage(pr, package, key)
  }

  /**
   Whatever arrives, a text is accepted if and only if its digest is the identity that was asked for, the
   author's signature on that identity holds, and the key of the receipt opens it.
   */
  lemma AcceptedIff(pr: Primitives, expected: Identity, p: Package, key: Key, text: seq<byte>)
    ensures Accepted(pr, expected, p, key) == Ok(text) <==>
              && p.identity == expected == pr.digest(Canonical(text)) && p.version == 1 && p.algorithm == 1
              && pr.signed(expected, p.authorName, p.signature, p.authorKey)
              && exists fileKey ::
                   && p.wrappedBlobKey == Sealed(key, expected, KeyBytes(fileKey))
                   && p.content == Sealed(fileKey, expected, Text(text))
  {
    OpensIff(pr, p, key, text);
    hide OpenPackage, Canonical;
  }

  class ApiClient {
    const server: Services.Server
    const private: DevicePrivateKey
    var receipts: Local

    constructor (server: Services.Server, private: DevicePrivateKey)
      ensures this.server == server && this.private == private && receipts == map[]
    {
      this.server := server;
      this.private := private;
      receipts := map[];
    }

    function Device(): DeviceKey {
      server.primitives.publicOf(private)
    }

    /** Takes a reply from the line and saves the receipt in it. */
    method Receive(reply: Result<Receipt, CoreError>, ending: Ending) returns (r: Result<Receipt, CoreError>)
      modifies this`receipts
      ensures receipts == Kept(old(receipts), reply, ending)
      ensures r == Told(reply, ending)
    {
      if ending.Lost? {
        return Err(ConnectionFailed);
      }
      if reply.Err? {
        return reply;
      }
      if ending.NotSaved? {
        return Err(StorageFailed);
      }
      receipts := receipts[reply.value.header.purchaseId := reply.value];
      return reply;
    }

    method Buy(user: UserId, publicationId: Id, at: Timestamp, identifier: Id, faults: Faults, ending: Ending)
      returns (r: Result<Receipt, CoreError>)
      requires server.Valid()
      modifies this, server.metadata, server.keys
      ensures server.Valid()
      ensures var (after, reply) := Requests.Buy(old(server.View()), user, publicationId, Device(), at, identifier,
                                                 faults);
              server.View() == after && receipts == Kept(old(receipts), reply, ending) && r == Told(reply, ending)
    {
      var reply := server.Buy(user, publicationId, Device(), at, identifier, faults);
      r := Receive(reply, ending);
    }

    method StoredReceipt(user: UserId, context: Id, at: Timestamp, trouble: Trouble)
      returns (r: Result<Receipt, CoreError>)
      requires server.Valid()
      modifies this, server.metadata, server.keys
      ensures server.Valid()
      ensures (server.View(), receipts, r)
              == ReceiptOf(old(server.View()), old(receipts), user, context, Device(), at, trouble)
    {
      if trouble.look.Unreadable? {
        return Err(StorageFailed);
      }
      if context in receipts {
        if trouble.look.Damaged? {
          return Err(trouble.look.error);
        }
        return Ok(receipts[context]);
      }
      var reply := server.RestoreReceipt(user, context, Device(), at, trouble.restoreFaults);
      r := Receive(reply, trouble.restored);
    }

    method FetchContent(user: UserId, context: Id, at: Timestamp, trouble: Trouble)
      returns (r: Result<seq<byte>, CoreError>)
      requires server.Valid()
      modifies this, server.metadata, server.keys
      ensures server.Valid()
      ensures (server.View(), receipts, r)
              == ContentOf(server.primitives, old(server.View()), old(receipts), user, context, private, at, trouble)
    {
      var access := server.ResolveAccess(user, context, trouble.identityFaults);
      if trouble.identityLost {
        return Err(ConnectionFailed);
      }
      if access.Err? {
        return Err(access.error);
      }
      if trouble.deviceKey.Some? {
        return Err(trouble.deviceKey.value);
      }
      var receipt := StoredReceipt(user, context, at, trouble);
      if receipt.Err? {
        return Err(receipt.error);
      }
      if trouble.receiptKey.Some? {
        return Err(trouble.receiptKey.value);
      }
      var key := OpenReceiptKey(server.primitives, receipt.value, private);
      if key.Err? {
        return Err(key.error);
      }
      var package := server.FetchPackage(user, context, Device(), trouble.packageFaults);
      if trouble.packageLost {
        return Err(ConnectionFailed);
      }
      if package.Err? {
        return Err(package.error);
      }
      if package.value.identity != access.value.publication.identity {
        return Err(ContentMismatch);
      }
      return OpenPackage(server.primitives, package.value, key.value);
    }
  }

  // ----- what fetching promises -----

  /** The server once the client has its receipt. */
  ghost function WithReceipt(pr: Primitives, w: World, local: Local, user: UserId, context: Id, device: DeviceKey,
                             at: Timestamp, trouble: Trouble): World
  {
    if trouble.look.Unreadable? || context in local then w
    else Apply(pr, w, Restoration(user, context, device, at, trouble.restoreFaults))
  }

  /** Restoring keeps both sides sound and agreed, and the receipt the caller gets is the server's current one. */
  lemma ReceiptIsCurrent(pr: Primitives, w: World, local: Local, user: UserId, context: Id, device: DeviceKey,
                         at: Timestamp, trouble: Trouble)
    requires Sound(pr, w) && KeysDrawn(w.state) && Agreed(Sides(w, local), device)
    ensures var (after, kept, receipt) := ReceiptOf(w.state, local, user, context, device, at, trouble);
            var next := WithReceipt(pr, w, local, user, context, device, at, trouble);
            && next.state == after && Sound(pr, next) && KeysDrawn(after) && Agreed(Sides(next, kept), device)
            && next.drafts == w.drafts && after.metadata.publications == w.state.metadata.publications
            && after.metadata.purchases == w.state.metadata.purchases && after.keys.master == w.state.keys.master
            && (receipt.Ok? ==>
                  && (context, device) in after.metadata.receipts
                  && after.metadata.receipts[(context, device)].receipt == receipt.value)
  {
    hide Sound, KeysDrawn, Issue, Diverges;
    if !trouble.look.Unreadable? && context !in local {
      var e := Restoration(user, context, device, at, trouble.restoreFaults);
      var reply := Restore(w.state, user, context, device, at, trouble.restoreFaults).1;
      StepKeeps(pr, w, e);
      DrawnStays(pr, w, e);
      StepAgrees(pr, Sides(w, local), device, Attempt(e, trouble.restored));
      RestorationNeverDiverges(Sides(w, local), e, trouble.restored);
      RestoredContext(w.state, e);
      if reply.Ok? {
        ReplyIsStored(pr, w, e, device);
      }
    }
  }

  lemma RestorationNeverDiverges(x: Sides, e: Event, ending: Ending)
    requires e.Restoration?
    ensures !Diverges(x, Attempt(e, ending))
  {
  }

  lemma RestoredContext(s: State, e: Event)
    requires e.Restoration?
    ensures var (after, reply) := Restore(s, e.user, e.context, e.device, e.at, e.faults);
            && (reply.Ok? ==> reply.value.header.purchaseId == e.context)
            && after.metadata.publications == s.metadata.publications
            && after.metadata.purchases == s.metadata.purchases
            && after.keys.master == s.keys.master
  {
  }

  /**
   Content the client fetches is the published text of the context, as stored or marked; and
   whatever went wrong, client and server are agreed afterwards.
   */
  lemma FetchedIsPublished(pr: Primitives, w: World, local: Local, user: UserId, context: Id, private: DevicePrivateKey,
                           at: Timestamp, trouble: Trouble)
    requires Sound(pr, w) && KeysDrawn(w.state) && Agreed(Sides(w, local), pr.publicOf(private))
    ensures var (end, kept, content) := ContentOf(pr, w.state, local, user, context, private, at, trouble);
            && (exists next: World ::
                  next.state == end && Sound(pr, next) && Agreed(Sides(next, kept), pr.publicOf(private)))
            && (content.Ok? ==>
                  && IsContext(w.state.metadata, context)
                  && PublicationOf(w.state.metadata, context) in w.drafts
                  && var draft := w.drafts[PublicationOf(w.state.metadata, context)];
                  && Canonical(content.value) == Canonical(draft)
                  && (|| content.value == Canonical(draft)
                      || exists mark :: Embedded(Canonical(draft), mark) == Some(content.value)))
  {
    hide Sound, KeysDrawn, Fetch, Restore, ReceiptOf, ResolveAccess, OpenPackage, OpenReceiptKey, Embedded, Canonical,
      Agreed;
    var device := pr.publicOf(private);
    ReceiptIsCurrent(pr, w, local, user, context, device, at, trouble);
    var next := WithReceipt(pr, w, local, user, context, device, at, trouble);
    FetchChangesNothing(pr, next.state, user, context, device, trouble.packageFaults);
    if Fetch(pr, next.state, user, context, device, trouble.packageFaults).1.Ok? {
      SoundFetchOpens(pr, next, user, context, device, private, trouble.packageFaults);
    }
    hide WithReceipt;
    var content := ContentOf(pr, w.state, local, user, context, private, at, trouble).2;
    if content.Ok? {
      var package := Fetch(pr, next.state, user, context, device, trouble.packageFaults).1.value;
      var receipt := next.returned[(context, device)];
      assert PublicationOf(next.state.metadata, context) == PublicationOf(w.state.metadata, context);
      assert ReceiptOf(w.state, local, user, context, device, at, trouble).2 == Ok(receipt);
      assert content == OpenPackage(pr, package, OpenReceiptKey(pr, receipt, private).value);
    }
  }

  lemma RestoreSucceeds(pr: Primitives, w: World, user: UserId, context: Id, device: DeviceKey, at: Timestamp)
    requires Sound(pr, w) && w.state.keys.master.Some? && ResolveAccess(w.state.metadata, user, context, {}).Ok?
    ensures Restore(w.state, user, context, device, at, {}).1.Ok?
  {
    hide Sound, Issue;
    ResolvedContext(pr, w, context, {});
    var access := ResolveAccess(w.state.metadata, user, context, {}).value;
    IssueOkIff(pr, w, context, PublicationOf(w.state.metadata, context), user, access.grantedAt, device, at, {});
  }

  /**
   With the master key present and no trouble, an owner of a context gets the content, even with the local
   store wiped.
   */
  lemma EntitledGetsContent(pr: Primitives, w: World, local: Local, user: UserId, context: Id,
                            private: DevicePrivateKey, at: Timestamp)
    requires Sound(pr, w) && KeysDrawn(w.state) && Agreed(Sides(w, local), pr.publicOf(private))
    requires w.state.keys.master.Some? && ResolveAccess(w.state.metadata, user, context, {}).Ok?
    ensures ContentOf(pr, w.state, local, user, context, private, at, NO_TROUBLE).2.Ok?
  {
    hide Sound, KeysDrawn, Fetch, Restore, OpenPackage, OpenReceiptKey, Embedded, Canonical, Agreed, Apply;
    var device := pr.publicOf(private);
    ReceiptIsCurrent(pr, w, local, user, context, device, at, NO_TROUBLE);
    RestoreSucceeds(pr, w, user, context, device, at);
    var next := WithReceipt(pr, w, local, user, context, device, at, NO_TROUBLE);
    hide WithReceipt;
    CurrentIsReturned(pr, next, context, device);
    SoundFetchSucceeds(pr, next, user, context, device);
    SoundFetchOpens(pr, next, user, context, device, private, {});
    FetchedIdentity(pr, next.state, user, context, device);
  }

  lemma CurrentIsReturned(pr: Primitives, w: World, context: Id, device: DeviceKey)
    requires Sound(pr, w) && (context, device) in w.state.metadata.receipts
    ensures (context, device) in w.returned
  {
    assert ReceiptSound(w, context, device);
  }

  lemma FetchedIdentity(pr: Primitives, s: State, user: UserId, context: Id, device: DeviceKey)
    requires Fetch(pr, s, user, context, device, {}).1.Ok?
    ensures ResolveAccess(s.metadata, user, context, {}).Ok?
    ensures Fetch(pr, s, user, context, device, {}).1.value.identity
            == ResolveAccess(s.metadata, user, context, {}).value.publication.identity
  {
    hide MarkForPurchase;
  }
}
