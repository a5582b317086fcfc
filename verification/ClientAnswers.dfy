/** What fetching content answers, read off the server's stores, the local store and what goes wrong on the way. */
module ClientAnswers {
  import opened Bytes
  import opened Errors
  import opened Utf8
  import opened CanonicalForm
  import opened MarkCodec
  import opened MarkChannel
  import opened Crypto
  import opened StoreContents
  import opened Requests
  import opened EndToEnd
  import opened ClientAgreement
  import opened Answers
  import opened Client

  /** The package of a context opens with the key in the stored receipt, to the text delivered for the context. */
  lemma PackageForOpens(pr: Primitives, w: World, context: Id, device: DeviceKey)
    requires Sound(pr, w) && IsContext(w.state.metadata, context) && w.state.keys.master.Some?
    requires (context, device) in w.state.metadata.receipts
    ensures var key := w.state.metadata.receipts[(context, device)].receipt.wrappedKey.key;
            OpenPackage(pr, PackageFor(pr, w, context, device), key) == Ok(DeliveredText(pr, w, context))
  {
    var id := PublicationOf(w.state.metadata, context);
    assert PublicationSound(pr, w, id);
    CanonicalIsStable(w.drafts[id]);
    DeliveredCanonical(pr, w, context);
    var p := PackageFor(pr, w, context, device);
    var key := w.state.metadata.receipts[(context, device)].receipt.wrappedKey.key;
    OpensIff(pr, p, key, DeliveredText(pr, w, context));
    hide Sound, OpenPackage, DeliveredText, Canonical, ValidText;
  }

  lemma DeliveredCanonical(pr: Primitives, w: World, context: Id)
    requires Sound(pr, w) && IsContext(w.state.metadata, context) && w.state.keys.master.Some?
    ensures PublicationOf(w.state.metadata, context) in w.drafts
    ensures Canonical(DeliveredText(pr, w, context)) == Canonical(w.drafts[PublicationOf(w.state.metadata, context)])
  {
    var id := PublicationOf(w.state.metadata, context);
    assert PublicationSound(pr, w, id);
    CanonicalIsStable(w.drafts[id]);
    var text := Canonical(w.drafts[id]);
    if HasChannel(text) {
      MarkedText(text, Mark(context, pr.mac(pr.markKeyOf(w.state.keys.master.value), pr.digest(text), context, 2), 2));
    }
    hide Canonical, Embedded, HasChannel, ValidText;
  }

  /** Why the server restores no receipt. */
  function RestoreError(s: State, user: UserId, context: Id, f: Faults): Option<CoreError> {
    var refused := AccessError(s.metadata, user, context, f);
    if refused.Some? then refused else IssueError(s.keys, f)
  }

  lemma RestoreReply(pr: Primitives, w: World, user: UserId, context: Id, device: DeviceKey, at: Timestamp, f: Faults)
    requires Sound(pr, w)
    ensures var r := Restore(w.state, user, context, device, at, f).1;
            match RestoreError(w.state, user, context, f)
            case Some(e) => r == Err(e)
            case None => r.Ok?
  {
    RestoreAnswers(pr, w, user, context, device, at, f);
    hide Sound, Restore, AccessError, IssueError;
  }

  /** Why there is no receipt to open a package with: the local one, or else one restored and saved. */
  function ReceiptError(s: State, local: Local, user: UserId, context: Id, trouble: Trouble): Option<CoreError> {
    var refused := RestoreError(s, user, context, trouble.restoreFaults);
    if trouble.look.Unreadable? then Some(StorageFailed)
    else if context in local then (if trouble.look.Damaged? then Some(trouble.look.error) else None)
    else if trouble.restored.Lost? then Some(ConnectionFailed)
    else if refused.Some? then refused
    else if trouble.restored.NotSaved? then Some(StorageFailed)
    else None
  }

  lemma ReceiptAnswers(pr: Primitives, w: World, local: Local, user: UserId, context: Id, device: DeviceKey,
                       at: Timestamp, trouble: Trouble)
    requires Sound(pr, w)
    ensures var r := ReceiptOf(w.state, local, user, context, device, at, trouble).2;
            match ReceiptError(w.state, local, user, context, trouble)
            case Some(e) => r == Err(e)
            case None => r.Ok?
  {
    hide Sound, Restore, RestoreError, Kept;
    RestoreReply(pr, w, user, context, device, at, trouble.restoreFaults);
    var reply := Restore(w.state, user, context, device, at, trouble.restoreFaults).1;
    var refused := RestoreError(w.state, user, context, trouble.restoreFaults);
    ReceiptOfIs(w.state, local, user, context, device, at, trouble);
    hide ReceiptOf;
    assert refused.Some? ==> reply == Err(refused.value);
  }

  lemma ReceiptOfIs(s: State, local: Local, user: UserId, context: Id, device: DeviceKey, at: Timestamp,
                    trouble: Trouble)
    ensures ReceiptOf(s, local, user, context, device, at, trouble).2 ==
            if trouble.look.Unreadable? then Err(StorageFailed)
            else if context in local then
              if trouble.look.Damaged? then Err(trouble.look.error) else Ok(local[context])
            else if trouble.restored.Lost? then Err(ConnectionFailed)
            else
              var reply := Restore(s, user, context, device, at, trouble.restoreFaults).1;
              if reply.Ok? && trouble.restored.NotSaved? then Err(StorageFailed) else reply
  {
    hide Restore, Kept;
  }

  /** Why no package is delivered to a device that has a receipt. */
  ghost function PackageLack(w: World, user: UserId, context: Id, f: Faults): Option<CoreError> {
    var refused := AccessError(w.state.metadata, user, context, f);
    if refused.Some? then refused
    else if ReadReceipt in f || ReadBlob in f then Some(StorageFailed)
    else MarkingError(w.state.keys, Markable(w, context), f)
  }

  /** Why the content is not fetched. */
  ghost function ContentError(w: World, local: Local, user: UserId, context: Id, trouble: Trouble): Option<CoreError> {
    var refused := AccessError(w.state.metadata, user, context, trouble.identityFaults);
    var lacking := ReceiptError(w.state, local, user, context, trouble);
    if trouble.identityLost then Some(ConnectionFailed)
    else if refused.Some? then refused
    else if trouble.deviceKey.Some? then trouble.deviceKey
    else if lacking.Some? then lacking
    else if trouble.receiptKey.Some? then trouble.receiptKey
    else if trouble.packageLost then Some(ConnectionFailed)
    else PackageLack(w, user, context, trouble.packageFaults)
  }

  lemma FetchLack(w: World, user: UserId, context: Id, device: DeviceKey, f: Faults)
    requires (context, device) in w.state.metadata.receipts
    ensures FetchError(w.state, user, context, device, Markable(w, context), f) == PackageLack(w, user, context, f)
  {
    hide AccessError, MarkingError, Markable;
  }

  /** With a current receipt at hand, what is fetched opens, or the first failure on the server is answered. */
  lemma FetchedWith(pr: Primitives, w: World, user: UserId, context: Id, private: DevicePrivateKey, f: Faults)
    requires Sound(pr, w) && (context, pr.publicOf(private)) in w.state.metadata.receipts
    ensures var receipt := w.state.metadata.receipts[(context, pr.publicOf(private))].receipt;
            var r := Fetch(pr, w.state, user, context, pr.publicOf(private), f).1;
            && OpenReceiptKey(pr, receipt, private) == Ok(receipt.wrappedKey.key)
            && match PackageLack(w, user, context, f)
               case Some(e) => r == Err(e)
               case None =>
                 && IsContext(w.state.metadata, context) && w.state.keys.master.Some?
                 && r.Ok? && r.value.identity == IdentityOf(w.state.metadata, context)
                 && OpenPackage(pr, r.value, receipt.wrappedKey.key) == Ok(DeliveredText(pr, w, context))
  {
    var device := pr.publicOf(private);
    FetchAnswers(pr, w, user, context, device, f);
    assert ReceiptSound(w, context, device);
    if w.state.keys.master.Some? {
      PackageForOpens(pr, w, context, device);
    }
    FetchLack(w, user, context, device, f);
    hide Sound, Fetch, FetchError, PackageLack, AccessError, MarkingError, OpenPackage, DeliveredText, Markable;
  }

  /** Nothing about the content of a context has changed. */
  ghost predicate SameContent(w: World, next: World) {
    && next.drafts == w.drafts && next.state.keys.master == w.state.keys.master
    && next.state.metadata.publications == w.state.metadata.publications
    && next.state.metadata.purchases == w.state.metadata.purchases
  }

  lemma SameText(pr: Primitives, w: World, next: World, user: UserId, context: Id, f: Faults)
    requires Sound(pr, w) && Sound(pr, next) && SameContent(w, next)
    ensures IsContext(w.state.metadata, context) && w.state.keys.master.Some? ==>
              DeliveredText(pr, next, context) == DeliveredText(pr, w, context)
    ensures PackageLack(next, user, context, f) == PackageLack(w, user, context, f)
  {
    hide Sound, Canonical, HasChannel, Embedded;
  }

  /** What is answered once there is a receipt. */
  lemma ContentWith(pr: Primitives, w: World, local: Local, user: UserId, context: Id, private: DevicePrivateKey,
                    at: Timestamp, trouble: Trouble)
    requires Sound(pr, w) && KeysDrawn(w.state) && Agreed(Sides(w, local), pr.publicOf(private))
    requires IsContext(w.state.metadata, context)
    requires ReceiptError(w.state, local, user, context, trouble).None?
    ensures var (after, kept, receipt) := ReceiptOf(w.state, local, user, context, pr.publicOf(private), at, trouble);
            var r := Fetch(pr, after, user, context, pr.publicOf(private), trouble.packageFaults).1;
            && receipt.Ok? && OpenReceiptKey(pr, receipt.value, private) == Ok(receipt.value.wrappedKey.key)
            && match PackageLack(w, user, context, trouble.packageFaults)
               case Some(e) => r == Err(e)
               case None =>
                 && w.state.keys.master.Some? && r.Ok?
                 && Accepted(pr, IdentityOf(w.state.metadata, context), r.value, receipt.value.wrappedKey.key)
                    == Ok(DeliveredText(pr, w, context))
  {
    var device := pr.publicOf(private);
    ReceiptAnswers(pr, w, local, user, context, device, at, trouble);
    ReceiptIsCurrent(pr, w, local, user, context, device, at, trouble);
    var next := WithReceipt(pr, w, local, user, context, device, at, trouble);
    SameText(pr, w, next, user, context, trouble.packageFaults);
    FetchedWith(pr, next, user, context, private, trouble.packageFaults);
    hide Sound, WithReceipt, ReceiptOf, Fetch, ReceiptError, PackageLack, OpenPackage, OpenReceiptKey, DeliveredText,
      KeysDrawn, Agreed;
  }

  /**
   With client and server agreed, fetching content answers the first thing that goes wrong; and when
   nothing does, it is the text of the context: the canonical form of the published draft, marked for this
   very context when it has a channel.
   */
  lemma ContentAnswers(pr: Primitives, w: World, local: Local, user: UserId, context: Id, private: DevicePrivateKey,
                       at: Timestamp, trouble: Trouble)
    requires Sound(pr, w) && KeysDrawn(w.state) && Agreed(Sides(w, local), pr.publicOf(private))
    ensures var r := ContentOf(pr, w.state, local, user, context, private, at, trouble).2;
            match ContentError(w, local, user, context, trouble)
            case Some(e) => r == Err(e)
            case None =>
              && IsContext(w.state.metadata, context) && w.state.keys.master.Some?
              && r == Ok(DeliveredText(pr, w, context))
  {
    assert PurchasesSound(w.state.metadata);
    hide Sound, PurchasesSound, ContentOf, ReceiptOf, Fetch, ResolveAccess, AccessError, ReceiptError, PackageLack,
      OpenReceiptKey, DeliveredText, KeysDrawn, Agreed, Accepted;
    var device := pr.publicOf(private);
    AccessAnswers(w.state.metadata, user, context, trouble.identityFaults);
    ReceiptAnswers(pr, w, local, user, context, device, at, trouble);
    var granted := AccessError(w.state.metadata, user, context, trouble.identityFaults).None?;
    if granted && ReceiptError(w.state, local, user, context, trouble).None? {
      ContentWith(pr, w, local, user, context, private, at, trouble);
    }
    ContentIs(pr, w.state, local, user, context, private, at, trouble);
  }

  /** The steps of fetching content, in their order. */
  lemma ContentIs(pr: Primitives, s: State, local: Local, user: UserId, context: Id, private: DevicePrivateKey,
                  at: Timestamp, trouble: Trouble)
    ensures var access := ResolveAccess(s.metadata, user, context, trouble.identityFaults);
            var (after, kept, receipt) := ReceiptOf(s, local, user, context, pr.publicOf(private), at, trouble);
            var package := Fetch(pr, after, user, context, pr.publicOf(private), trouble.packageFaults).1;
            ContentOf(pr, s, local, user, context, private, at, trouble).2 ==
            if trouble.identityLost then Err(ConnectionFailed)
            else if access.Err? then Err(access.error)
            else if trouble.deviceKey.Some? then Err(trouble.deviceKey.value)
            else if receipt.Err? then Err(receipt.error)
            else if trouble.receiptKey.Some? then Err(trouble.receiptKey.value)
            else if OpenReceiptKey(pr, receipt.value, private).Err? then
              Err(OpenReceiptKey(pr, receipt.value, private).error)
            else if trouble.packageLost then Err(ConnectionFailed)
            else if package.Err? then Err(package.error)
            else Accepted(pr, access.value.publication.identity, package.value,
                          OpenReceiptKey(pr, receipt.value, private).value)
  {
    hide ReceiptOf, Fetch, ResolveAccess, OpenReceiptKey, Accepted;
  }
}
