/**
 Any number of concurrent publications, interleaved storage step by storage step: claims, keys,
 blobs and records. Every step may fail and every thread may stop for good between two steps.
 */
module PublishInterleaving {
  import opened Bytes
  import opened Errors
  import opened Utf8
  import opened CanonicalForm
  import opened Crypto
  import opened StoreContents
  import opened Requests

  datatype Request = Request(author: UserId, draft: Draft, authorKey: AuthorKey, signature: Signature, at: Timestamp)

  /**
   Where a publication stands: the storage step it takes next. From `LoadingMaster` to `Releasing` it has
   its claim.
   */
  datatype Stage =
    | Verifying
    | Claiming
    | LoadingMaster
    | LoadingFileKey(master: Key)
    | LookingForMaster              // before making one
    | ListingFileKeys
    | LookingAgain
    | LinkingMaster(drawn: Key)
    | LoadingLinked
    | StoringFileKey(master: Key)
    | StoringBlob(key: Key)
    | LinkingRecord
    | Releasing(original: CoreError)
    | Finished(result: Result<PublicationRecord, CoreError>)
    | Stopped

  /** `authorName` is the name the author was found under, once that is known. */
  datatype Thread = Thread(request: Request, authorName: Name, stage: Stage)

  /** `drafts` and the owners in `claims` are bookkeeping of the model. */
  datatype Stores = Stores(
    users: map<UserId, Name>, claims: map<Identity, nat>, keys: Keys, blobs: map<Identity, Sealed>,
    publications: map<Id, PublicationRecord>, drafts: map<Id, seq<byte>>)

  datatype World = World(s: Stores, threads: map<nat, Thread>)

  datatype Event =
    | Begin(thread: nat, request: Request)
    | Advance(thread: nat, fault: Option<CoreError>, identifier: Id)
    | Stop(thread: nat)

  predicate StorageFault(e: CoreError) {
    e == StorageFailed || e == CryptoFailed
  }

  predicate Enabled(w: World, e: Event) {
    match e
    case Begin(t, _) => t !in w.threads
    case Advance(t, fault, _) =>
      && t in w.threads && !w.threads[t].stage.Finished? && !w.threads[t].stage.Stopped?
      && (fault.Some? ==> StorageFault(fault.value))
    case Stop(t) => t in w.threads
  }

  function CanonicalOf(r: Request): seq<byte> {
    Canonical(r.draft.content)
  }

  function IdentityFor(pr: Primitives, r: Request): Identity {
    ContentIdentity(pr, CanonicalOf(r))
  }

  function Failed(th: Thread, e: CoreError): Thread {
    th.(stage := Finished(Err(e)))
  }

  /** The author, the content and the signature are checked before anything is claimed. */
  ghost function Verify(pr: Primitives, users: map<UserId, Name>, th: Thread): Thread {
    var r := th.request;
    if r.author !in users then Failed(th, UserNotFound)
    else if !ValidText(r.draft.content) then Failed(th, ContentOutsideChannelDomain)
    else if !pr.signed(IdentityFor(pr, r), users[r.author], r.signature, r.authorKey) then Failed(th, SignatureInvalid)
    else th.(authorName := users[r.author], stage := Claiming)
  }

  /** Loading the file key of an identity, or making a master key when there is none; nothing else is written. */
  function ObtainMaster(k: Keys, identity: Identity, stage: Stage): (Keys, Stage) {
    match stage
    case LoadingMaster => (k, if k.master.None? then LookingForMaster else LoadingFileKey(k.master.value))
    case LoadingFileKey(master) =>
      if identity !in k.fileKeys then (k, LookingForMaster)
      else
        var key := UnwrapKey(k.fileKeys[identity], master, identity);
        (k, if key.Err? then Releasing(key.error) else StoringBlob(key.value))
    case LookingForMaster => (k, if k.master.None? then ListingFileKeys else LookingAgain)
    case ListingFileKeys => (k, if k.fileKeys != map[] then Releasing(KeyNotFound) else LookingAgain)
    case LookingAgain =>
      if k.master.Some? then (k, LoadingLinked) else (k.(drawn := k.drawn + 1), LinkingMaster(k.drawn))
    case LinkingMaster(drawn) =>
      if k.master.Some? then (k, LoadingLinked) else (k.(master := Some(drawn)), StoringFileKey(drawn))
    case LoadingLinked =>
      (k, if k.master.None? then Releasing(StorageFailed) else StoringFileKey(k.master.value))
    case _ => (k, stage)
  }

  function StoreFileKey(k: Keys, identity: Identity, master: Key): Keys {
    k.(drawn := k.drawn + 1, fileKeys := k.fileKeys[identity := Sealed(master, identity, KeyBytes(k.drawn))])
  }

  function RecordOf(pr: Primitives, th: Thread, identifier: Id): PublicationRecord {
    var r := th.request;
    PublicationRecord(identifier, r.author, th.authorName, r.draft.title, r.draft.fileName, |CanonicalOf(r)|, r.at,
                      IdentityFor(pr, r), r.authorKey, SIGNATURE_ALGORITHM, r.signature)
  }

  /**
   One storage step of thread number `t`. A failure before the claim ends the request, one after it releases
   the claim.
   */
  ghost function Step(pr: Primitives, s: Stores, t: nat, th: Thread, fault: Option<CoreError>, identifier: Id)
    : (Stores, Thread)
  {
    var r := th.request;
    var identity := IdentityFor(pr, r);
    if fault.Some? then
      (s, if Holds(th) && !th.stage.Releasing? then th.(stage := Releasing(fault.value)) else Failed(th, fault.value))
    else
      match th.stage
      case Verifying => (s, Verify(pr, s.users, th))
      case Claiming =>
        if identity in s.claims then (s, Failed(th, ContentDuplicate))
        else (s.(claims := s.claims[identity := t]), th.(stage := LoadingMaster))
      case StoringFileKey(master) =>
        (s.(keys := StoreFileKey(s.keys, identity, master)), th.(stage := StoringBlob(s.keys.drawn)))
      case StoringBlob(key) =>
        (s.(blobs := s.blobs[identity := Sealed(key, identity, Text(CanonicalOf(r)))]), th.(stage := LinkingRecord))
      case LinkingRecord =>
        if identifier in s.publications then (s, th.(stage := Releasing(RecordExists)))
        else
          var record := RecordOf(pr, th, identifier);
          (s.(publications := s.publications[identifier := record], drafts := s.drafts[identifier := r.draft.content]),
           th.(stage := Finished(Ok(record))))
      case Releasing(original) => (s.(claims := s.claims - {identity}), Failed(th, original))
      case Finished(_) => (s, th)
      case Stopped => (s, th)
      case _ =>
        var (keys, stage) := ObtainMaster(s.keys, identity, th.stage);
        (s.(keys := keys), th.(stage := stage))
  }

  ghost function Apply(pr: Primitives, w: World, e: Event): World
    requires Enabled(w, e)
  {
    match e
    case Begin(t, request) => w.(threads := w.threads[t := Thread(request, [], Verifying)])
    case Stop(t) => w.(threads := w.threads[t := w.threads[t].(stage := Stopped)])
    case Advance(t, fault, identifier) =>
      var (s, th) := Step(pr, w.s, t, w.threads[t], fault, identifier);
      World(s, w.threads[t := th])
  }

  ghost predicate Run(pr: Primitives, worlds: seq<World>, events: seq<Event>) {
    && |worlds| == |events| + 1
    && forall i | 0 <= i < |events| :: Enabled(worlds[i], events[i]) && worlds[i + 1] == Apply(pr, worlds[i], events[i])
  }

  // ----- the invariant -----

  predicate Holds(th: Thread) {
    !th.stage.Verifying? && !th.stage.Claiming? && !th.stage.Finished? && !th.stage.Stopped?
  }

  ghost predicate Unpublished(publications: map<Id, PublicationRecord>, identity: Identity) {
    forall id | id in publications :: publications[id].identity != identity
  }

  /** The blob of an identity holds this text under the stored file key. */
  predicate BlobHolds(s: Stores, identity: Identity, text: seq<byte>) {
    && HasFileKey(s.keys, identity) && identity in s.blobs
    && s.blobs[identity] == Sealed(FileKey(s.keys, identity), identity, Text(text))
  }

  /** A thread that has its claim: nobody else has it, and its content is not published. */
  ghost predicate HolderSound(pr: Primitives, s: Stores, t: nat, th: Thread) {
    var identity := IdentityFor(pr, th.request);
    Holds(th) ==> identity in s.claims && s.claims[identity] == t && Unpublished(s.publications, identity)
  }

  /** What the next step of a thread relies on. */
  ghost predicate StageSound(pr: Primitives, s: Stores, th: Thread) {
    var r := th.request;
    var identity := IdentityFor(pr, r);
    && (Holds(th) || th.stage.Claiming? ==>
          ValidText(r.draft.content) && pr.signed(identity, th.authorName, r.signature, r.authorKey))
    && match th.stage
       case LoadingFileKey(master) => s.keys.master == Some(master)
       case LookingForMaster => identity !in s.keys.fileKeys
       case ListingFileKeys => identity !in s.keys.fileKeys
       case LookingAgain => identity !in s.keys.fileKeys
       case LinkingMaster(_) => identity !in s.keys.fileKeys
       case LoadingLinked => identity !in s.keys.fileKeys
       case StoringFileKey(master) => identity !in s.keys.fileKeys && s.keys.master == Some(master)
       case StoringBlob(key) => HasFileKey(s.keys, identity) && FileKey(s.keys, identity) == key
       case LinkingRecord => BlobHolds(s, identity, CanonicalOf(r))
       case _ => true
  }

  /** A record's identity is claimed, and its blob opens under its file key to the canonical form of its draft. */
  ghost predicate RecordSound(pr: Primitives, s: Stores, id: Id)
    requires id in s.publications
  {
    var record := s.publications[id];
    && record.publicationId == id && id in s.drafts && ValidText(s.drafts[id])
    && record.identity == ContentIdentity(pr, Canonical(s.drafts[id]))
    && record.identity in s.claims
    && BlobHolds(s, record.identity, Canonical(s.drafts[id]))
    && pr.signed(record.identity, record.authorName, record.signature, record.authorKey)
  }

  ghost predicate OneRecordEach(s: Stores) {
    forall a, b | a in s.publications && b in s.publications ::
      s.publications[a].identity == s.publications[b].identity ==> a == b
  }

  ghost predicate KeysReady(k: Keys) {
    KeysSound(k) && (k.fileKeys != map[] ==> k.master.Some?)
  }

  ghost predicate Sound(pr: Primitives, w: World) {
    && KeysReady(w.s.keys)
    && OneRecordEach(w.s)
    && (forall id | id in w.s.publications :: RecordSound(pr, w.s, id))
    && (forall t | t in w.threads :: HolderSound(pr, w.s, t, w.threads[t]) && StageSound(pr, w.s, w.threads[t]))
  }

  // ----- what a step leaves alone -----

  /** Claim, file key and blob of an identity are the same. */
  predicate Same(s: Stores, next: Stores, i: Identity) {
    && (i in s.claims <==> i in next.claims) && (i in s.claims ==> next.claims[i] == s.claims[i])
    && (i in s.keys.fileKeys <==> i in next.keys.fileKeys)
    && (i in s.keys.fileKeys ==> next.keys.fileKeys[i] == s.keys.fileKeys[i])
    && (i in s.blobs <==> i in next.blobs) && (i in s.blobs ==> next.blobs[i] == s.blobs[i])
  }

  predicate MasterStays(k: Keys, next: Keys) {
    k.master.Some? ==> next.master == k.master
  }

  /** Making a master key writes no file key, and nothing else is written before the file key. */
  lemma MasterObtained(k: Keys, identity: Identity, stage: Stage)
    requires KeysReady(k)
    ensures var (next, _) := ObtainMaster(k, identity, stage);
            next.fileKeys == k.fileKeys && MasterStays(k, next) && KeysReady(next)
  {
    hide UnwrapKey;
  }

  lemma ClaimsAfter(pr: Primitives, s: Stores, t: nat, th: Thread, fault: Option<CoreError>, identifier: Id)
    ensures var next := Step(pr, s, t, th, fault, identifier).0;
            var own := IdentityFor(pr, th.request);
            || next.claims == s.claims
            || (Holds(th) && next.claims == s.claims - {own})
            || (th.stage.Claiming? && own !in s.claims && next.claims == s.claims[own := t])
  {
    hide IdentityFor, ObtainMaster, ValidText, CanonicalOf, RecordOf, Verify, StoreFileKey;
  }

  lemma KeysAfter(pr: Primitives, s: Stores, t: nat, th: Thread, fault: Option<CoreError>, identifier: Id)
    ensures var next := Step(pr, s, t, th, fault, identifier).0;
            var own := IdentityFor(pr, th.request);
            || next.keys == s.keys
            || next.keys == ObtainMaster(s.keys, own, th.stage).0
            || (th.stage.StoringFileKey? && next.keys == StoreFileKey(s.keys, own, th.stage.master))
  {
    hide IdentityFor, ObtainMaster, ValidText, CanonicalOf, RecordOf, Verify, StoreFileKey;
  }

  lemma BlobsAfter(pr: Primitives, s: Stores, t: nat, th: Thread, fault: Option<CoreError>, identifier: Id)
    ensures var next := Step(pr, s, t, th, fault, identifier).0;
            var own := IdentityFor(pr, th.request);
            || next.blobs == s.blobs
            || (th.stage.StoringBlob?
                && next.blobs == s.blobs[own := Sealed(th.stage.key, own, Text(CanonicalOf(th.request)))])
  {
    hide IdentityFor, ObtainMaster, ValidText, CanonicalOf, RecordOf, Verify, StoreFileKey;
  }

  /** A step leaves every identity alone but its own, and its own too when another thread has claimed it. */
  lemma LeavesAlone(pr: Primitives, s: Stores, t: nat, th: Thread, fault: Option<CoreError>, identifier: Id,
                    i: Identity)
    requires KeysReady(s.keys)
    requires i != IdentityFor(pr, th.request) || (!Holds(th) && i in s.claims)
    ensures Same(s, Step(pr, s, t, th, fault, identifier).0, i)
  {
    hide IdentityFor, Step, KeysReady, ObtainMaster;
    MasterObtained(s.keys, IdentityFor(pr, th.request), th.stage);
    ClaimsAfter(pr, s, t, th, fault, identifier);
    KeysAfter(pr, s, t, th, fault, identifier);
    BlobsAfter(pr, s, t, th, fault, identifier);
  }

  /** Records and drafts are only added, under new identifiers, and the master key stays. */
  ghost predicate Adds(s: Stores, next: Stores) {
    && MasterStays(s.keys, next.keys)
    && forall id | id in s.publications ::
         && id in next.publications && next.publications[id] == s.publications[id]
         && (id in s.drafts ==> id in next.drafts && next.drafts[id] == s.drafts[id])
  }

  lemma RecordsStay(pr: Primitives, s: Stores, t: nat, th: Thread, fault: Option<CoreError>, identifier: Id)
    requires !th.stage.LinkingRecord?
    ensures var next := Step(pr, s, t, th, fault, identifier).0;
            next.publications == s.publications && next.drafts == s.drafts
  {
    hide IdentityFor, ObtainMaster, ValidText, CanonicalOf, RecordOf, Verify, StoreFileKey, Holds;
  }

  lemma RecordsAfter(pr: Primitives, s: Stores, t: nat, th: Thread, fault: Option<CoreError>, identifier: Id)
    ensures var next := Step(pr, s, t, th, fault, identifier).0;
            || (next.publications == s.publications && next.drafts == s.drafts)
            || (th.stage.LinkingRecord? && identifier !in s.publications
                && next.publications == s.publications[identifier := RecordOf(pr, th, identifier)]
                && next.drafts == s.drafts[identifier := th.request.draft.content])
  {
    if th.stage.LinkingRecord? {
      hide IdentityFor, RecordOf, Holds;
    } else {
      hide Step;
      RecordsStay(pr, s, t, th, fault, identifier);
    }
  }

  lemma MasterAfter(pr: Primitives, s: Stores, t: nat, th: Thread, fault: Option<CoreError>, identifier: Id)
    requires KeysReady(s.keys)
    ensures MasterStays(s.keys, Step(pr, s, t, th, fault, identifier).0.keys)
  {
    hide IdentityFor, ObtainMaster, KeysReady, Step;
    KeysAfter(pr, s, t, th, fault, identifier);
    MasterObtained(s.keys, IdentityFor(pr, th.request), th.stage);
  }

  lemma StepAdds(pr: Primitives, s: Stores, t: nat, th: Thread, fault: Option<CoreError>, identifier: Id)
    requires KeysReady(s.keys)
    ensures Adds(s, Step(pr, s, t, th, fault, identifier).0)
  {
    hide Step, RecordOf, MasterStays, KeysReady;
    RecordsAfter(pr, s, t, th, fault, identifier);
    MasterAfter(pr, s, t, th, fault, identifier);
  }

  lemma RecordStays(pr: Primitives, s: Stores, next: Stores, id: Id)
    requires id in s.publications && RecordSound(pr, s, id) && Adds(s, next)
             && Same(s, next, s.publications[id].identity)
    ensures RecordSound(pr, next, id)
  {
    hide ContentIdentity, Canonical, ValidText;
  }

  lemma ThreadStays(pr: Primitives, s: Stores, next: Stores, u: nat, th: Thread)
    requires HolderSound(pr, s, u, th) && StageSound(pr, s, th) && MasterStays(s.keys, next.keys)
    requires Holds(th) ==>
             Same(s, next, IdentityFor(pr, th.request)) && Unpublished(next.publications, IdentityFor(pr, th.request))
    ensures HolderSound(pr, next, u, th) && StageSound(pr, next, th)
  {
    hide IdentityFor, CanonicalOf, ValidText, Unpublished;
  }

  lemma PublishedIsClaimed(pr: Primitives, w: World, identity: Identity)
    requires Sound(pr, w)
    ensures Unpublished(w.s.publications, identity) || identity in w.s.claims
  {
    hide ContentIdentity, Canonical, ValidText, KeysReady;
    forall id | id in w.s.publications ensures w.s.publications[id].identity in w.s.claims {
      assert RecordSound(pr, w.s, id);
    }
  }

  lemma KeysStayReady(pr: Primitives, s: Stores, t: nat, th: Thread, fault: Option<CoreError>, identifier: Id)
    requires KeysReady(s.keys) && StageSound(pr, s, th)
    ensures KeysReady(Step(pr, s, t, th, fault, identifier).0.keys)
  {
    hide IdentityFor, ObtainMaster, Step, ValidText;
    KeysAfter(pr, s, t, th, fault, identifier);
    MasterObtained(s.keys, IdentityFor(pr, th.request), th.stage);
  }

  lemma StageStaysSound(pr: Primitives, s: Stores, t: nat, th: Thread, fault: Option<CoreError>, identifier: Id)
    requires KeysReady(s.keys) && StageSound(pr, s, th)
    ensures var (next, after) := Step(pr, s, t, th, fault, identifier);
            StageSound(pr, next, after)
  {
    hide IdentityFor, ValidText, CanonicalOf, RecordOf;
    if fault.None? {
      if Holds(th) && !th.stage.StoringFileKey? && !th.stage.StoringBlob? && !th.stage.LinkingRecord?
        && !th.stage.Releasing? {
        ObtainStaysSound(pr, s, th);
      }
      hide ObtainMaster;
    }
  }

  lemma ObtainStaysSound(pr: Primitives, s: Stores, th: Thread)
    requires KeysReady(s.keys) && StageSound(pr, s, th) && Holds(th)
    ensures var (keys, stage) := ObtainMaster(s.keys, IdentityFor(pr, th.request), th.stage);
            StageSound(pr, s.(keys := keys), th.(stage := stage))
  {
    hide IdentityFor, ValidText, CanonicalOf;
  }

  lemma HolderStaysSound(pr: Primitives, s: Stores, t: nat, th: Thread, fault: Option<CoreError>, identifier: Id)
    requires HolderSound(pr, s, t, th)
    requires Unpublished(s.publications, IdentityFor(pr, th.request)) || IdentityFor(pr, th.request) in s.claims
    ensures var (next, after) := Step(pr, s, t, th, fault, identifier);
            HolderSound(pr, next, t, after)
  {
    hide IdentityFor, ValidText, CanonicalOf, RecordOf, ObtainMaster, Unpublished;
  }

  lemma NewRecord(pr: Primitives, s: Stores, t: nat, th: Thread, fault: Option<CoreError>, identifier: Id, id: Id)
    requires HolderSound(pr, s, t, th) && StageSound(pr, s, th)
    requires id in Step(pr, s, t, th, fault, identifier).0.publications && id !in s.publications
    ensures var next := Step(pr, s, t, th, fault, identifier).0;
            && id == identifier && RecordSound(pr, next, id)
            && Holds(th) && next.publications[id].identity == IdentityFor(pr, th.request)
  {
    hide ValidText, Canonical, ContentIdentity, ObtainMaster;
  }

  /** Every step of every thread keeps the invariant. */
  lemma AdvanceKeeps(pr: Primitives, w: World, t: nat, fault: Option<CoreError>, identifier: Id)
    requires Sound(pr, w) && t in w.threads
    ensures var (next, after) := Step(pr, w.s, t, w.threads[t], fault, identifier);
            Sound(pr, World(next, w.threads[t := after]))
  {
    hide IdentityFor, Step, HolderSound, StageSound, RecordSound, KeysReady, Holds, Same, Adds;
    var th := w.threads[t];
    var own := IdentityFor(pr, th.request);
    var (next, after) := Step(pr, w.s, t, th, fault, identifier);
    PublishedIsClaimed(pr, w, own);
    KeysStayReady(pr, w.s, t, th, fault, identifier);
    StageStaysSound(pr, w.s, t, th, fault, identifier);
    HolderStaysSound(pr, w.s, t, th, fault, identifier);
    forall u | u in w.threads && u != t
      ensures HolderSound(pr, next, u, w.threads[u]) && StageSound(pr, next, w.threads[u])
    {
      OtherStaysSound(pr, w, t, fault, identifier, u);
    }
    RecordsStaySound(pr, w, t, fault, identifier);
  }

  lemma OtherStaysSound(pr: Primitives, w: World, t: nat, fault: Option<CoreError>, identifier: Id, u: nat)
    requires Sound(pr, w) && t in w.threads && u in w.threads && u != t
    ensures var next := Step(pr, w.s, t, w.threads[t], fault, identifier).0;
            HolderSound(pr, next, u, w.threads[u]) && StageSound(pr, next, w.threads[u])
  {
    hide IdentityFor, Step, StageSound, RecordSound, KeysReady, Same, OneRecordEach;
    var th := w.threads[t];
    var identity := IdentityFor(pr, w.threads[u].request);
    var next := Step(pr, w.s, t, th, fault, identifier).0;
    StepAdds(pr, w.s, t, th, fault, identifier);
    assert HolderSound(pr, w.s, t, th) && HolderSound(pr, w.s, u, w.threads[u]);
    if Holds(w.threads[u]) {
      LeavesAlone(pr, w.s, t, th, fault, identifier, identity);
      forall id | id in next.publications ensures next.publications[id].identity != identity {
        if id !in w.s.publications {
          NewRecord(pr, w.s, t, th, fault, identifier, id);
        }
      }
    }
    ThreadStays(pr, w.s, next, u, w.threads[u]);
  }

  lemma RecordsStaySound(pr: Primitives, w: World, t: nat, fault: Option<CoreError>, identifier: Id)
    requires Sound(pr, w) && t in w.threads
    ensures var next := Step(pr, w.s, t, w.threads[t], fault, identifier).0;
            OneRecordEach(next) && forall id | id in next.publications :: RecordSound(pr, next, id)
  {
    hide IdentityFor, Step, StageSound, KeysReady, Same;
    var th := w.threads[t];
    var next := Step(pr, w.s, t, th, fault, identifier).0;
    StepAdds(pr, w.s, t, th, fault, identifier);
    assert HolderSound(pr, w.s, t, th) && StageSound(pr, w.s, th);
    forall id | id in next.publications ensures RecordSound(pr, next, id) {
      if id in w.s.publications {
        assert RecordSound(pr, w.s, id);
        LeavesAlone(pr, w.s, t, th, fault, identifier, w.s.publications[id].identity);
        RecordStays(pr, w.s, next, id);
      } else {
        NewRecord(pr, w.s, t, th, fault, identifier, id);
      }
    }
    forall id | id in next.publications && id !in w.s.publications
      ensures id == identifier && Holds(th) && next.publications[id].identity == IdentityFor(pr, th.request)
    {
      NewRecord(pr, w.s, t, th, fault, identifier, id);
    }
  }

  lemma StepKeeps(pr: Primitives, w: World, e: Event)
    requires Sound(pr, w) && Enabled(w, e)
    ensures Sound(pr, Apply(pr, w, e))
  {
    hide IdentityFor, Step, RecordSound, KeysReady, OneRecordEach;
    if e.Advance? {
      hide Sound;
      AdvanceKeeps(pr, w, e.thread, e.fault, e.identifier);
    }
  }

  // ----- over whole runs -----

  ghost predicate Initial(w: World) {
    && w.s.claims == map[] && w.s.keys == Keys(None, map[], 0) && w.s.blobs == map[]
    && w.s.publications == map[] && w.threads == map[]
  }

  lemma {:induction false} RunsAreSound(pr: Primitives, worlds: seq<World>, events: seq<Event>, i: nat)
    requires Run(pr, worlds, events) && Initial(worlds[0]) && i < |worlds|
    ensures Sound(pr, worlds[i])
  {
    hide Apply, Enabled;
    if i > 0 {
      hide Sound;
      RunsAreSound(pr, worlds, events, i - 1);
      StepKeeps(pr, worlds[i - 1], events[i - 1]);
    }
  }

  /** Master key, file keys, records and drafts, once there, are the same later. */
  ghost predicate Lasts(s: Stores, next: Stores) {
    Adds(s, next) && KeysGrow(s.keys, next.keys)
  }

  lemma StepLasts(pr: Primitives, w: World, e: Event)
    requires Sound(pr, w) && Enabled(w, e)
    ensures Lasts(w.s, Apply(pr, w, e).s)
  {
    hide IdentityFor, Step, KeysReady, Holds, HolderSound, RecordSound;
    if e.Advance? {
      var th := w.threads[e.thread];
      assert StageSound(pr, w.s, th);
      StepAdds(pr, w.s, e.thread, th, e.fault, e.identifier);
      KeysAfter(pr, w.s, e.thread, th, e.fault, e.identifier);
      hide ObtainMaster;
      MasterObtained(w.s.keys, IdentityFor(pr, th.request), th.stage);
    }
  }

  lemma LastsOn(a: Stores, b: Stores, c: Stores)
    ensures Lasts(a, a)
    ensures Lasts(a, b) && Lasts(b, c) ==> Lasts(a, c)
  {
  }

  /** No key is ever replaced and no record ever changed, whatever fails or stops. */
  lemma {:induction false} RunsLast(pr: Primitives, worlds: seq<World>, events: seq<Event>, i: nat, j: nat)
    requires Run(pr, worlds, events) && Initial(worlds[0]) && i <= j < |worlds|
    ensures Lasts(worlds[i].s, worlds[j].s)
  {
    hide Apply, Enabled, Lasts, Sound, Initial;
    if i < j {
      RunsLast(pr, worlds, events, i, j - 1);
      RunsAreSound(pr, worlds, events, j - 1);
      StepLasts(pr, worlds[j - 1], events[j - 1]);
      LastsOn(worlds[i].s, worlds[j - 1].s, worlds[j].s);
    } else {
      LastsOn(worlds[i].s, worlds[i].s, worlds[i].s);
    }
  }

  /** The stored blob of an identity opens under the stored file key, and that under the master key, to this text. */
  ghost predicate Opens(s: Stores, identity: Identity, text: seq<byte>) {
    var blob := LoadBlob(s.blobs, identity, {});
    blob.Ok? && OpenText(s.keys, identity, blob.value, {}) == Ok(text)
  }

  lemma RecordOpens(pr: Primitives, w: World, id: Id)
    requires Sound(pr, w) && id in w.s.publications
    ensures id in w.s.drafts && w.s.publications[id].identity in w.s.claims
    ensures Opens(w.s, w.s.publications[id].identity, Canonical(w.s.drafts[id]))
    ensures w.s.publications[id].identity == ContentIdentity(pr, Canonical(w.s.drafts[id]))
  {
    hide ContentIdentity, Canonical, ValidText, HolderSound, StageSound;
    assert RecordSound(pr, w.s, id);
  }

  /**
   Once a publication is recorded, then at every later point of every interleaving its record and
   draft are unchanged, its identity is claimed, its blob opens to the canonical form of the draft,
   and no other record has its identity.
   */
  lemma PublishedForGood(pr: Primitives, worlds: seq<World>, events: seq<Event>, i: nat, j: nat, id: Id)
    requires Run(pr, worlds, events) && Initial(worlds[0]) && i <= j < |worlds| && id in worlds[i].s.publications
    ensures var s := worlds[j].s;
            && id in s.publications && s.publications[id] == worlds[i].s.publications[id]
            && id in s.drafts && id in worlds[i].s.drafts && s.drafts[id] == worlds[i].s.drafts[id]
            && var identity := s.publications[id].identity;
            && identity == ContentIdentity(pr, Canonical(s.drafts[id]))
            && identity in s.claims
            && Opens(s, identity, Canonical(s.drafts[id]))
            && forall other | other in s.publications && other != id :: s.publications[other].identity != identity
  {
    hide Apply, Enabled, Initial, ContentIdentity, Canonical, Opens, RecordSound, HolderSound, StageSound, KeysReady,
      KeysGrow;
    RunsAreSound(pr, worlds, events, i);
    RunsAreSound(pr, worlds, events, j);
    RunsLast(pr, worlds, events, i, j);
    RecordOpens(pr, worlds[i], id);
    RecordOpens(pr, worlds[j], id);
  }

  /** A claim is only ever given back by the thread that made it, and never once its content is published. */
  lemma ReleasesOwnClaim(pr: Primitives, worlds: seq<World>, events: seq<Event>, i: nat, identity: Identity)
    requires Run(pr, worlds, events) && Initial(worlds[0]) && i < |events| && identity in worlds[i].s.claims
    ensures var s, next := worlds[i].s, worlds[i + 1].s;
            if identity in next.claims then next.claims[identity] == s.claims[identity]
            else
              && events[i] == Advance(s.claims[identity], None, events[i].identifier)
              && Unpublished(s.publications, identity)
  {
    hide Initial, IdentityFor, Unpublished, StageSound, RecordSound, KeysReady;
    RunsAreSound(pr, worlds, events, i);
    var w, e := worlds[i], events[i];
    if e.Advance? {
      ClaimReleased(pr, w, e.thread, e.fault, e.identifier, identity);
    }
  }

  lemma ClaimReleased(pr: Primitives, w: World, t: nat, fault: Option<CoreError>, identifier: Id, identity: Identity)
    requires Sound(pr, w) && t in w.threads && identity in w.s.claims
    ensures var next := Step(pr, w.s, t, w.threads[t], fault, identifier).0;
            if identity in next.claims then next.claims[identity] == w.s.claims[identity]
            else w.s.claims[identity] == t && fault.None? && Unpublished(w.s.publications, identity)
  {
    hide IdentityFor, Unpublished, StageSound, RecordSound, KeysReady, ObtainMaster, Verify, CanonicalOf, RecordOf,
      StoreFileKey;
    assert HolderSound(pr, w.s, t, w.threads[t]);
  }

  // ----- a claim left behind -----

  /** The identity is claimed but not published, and no thread has the claim any more. */
  ghost predicate Abandoned(pr: Primitives, w: World, identity: Identity) {
    && identity in w.s.claims && Unpublished(w.s.publications, identity)
    && forall t | t in w.threads && Holds(w.threads[t]) :: IdentityFor(pr, w.threads[t].request) != identity
  }

  /** The steps that leave a claim behind: the thread that has it stops, or fails to give it back. */
  predicate Abandons(pr: Primitives, w: World, e: Event, identity: Identity) {
    match e
    case Stop(t) => t in w.threads && Holds(w.threads[t]) && IdentityFor(pr, w.threads[t].request) == identity
    case Advance(t, fault, _) =>
      && t in w.threads && w.threads[t].stage.Releasing? && fault.Some?
      && IdentityFor(pr, w.threads[t].request) == identity
    case Begin(_, _) => false
  }

  /** A thread with the claim keeps the identity from being abandoned, and so does a record or a missing claim. */
  lemma NotAbandoned(pr: Primitives, w: World, identity: Identity)
    ensures !Abandoned(pr, w, identity) <==>
              || identity !in w.s.claims || !Unpublished(w.s.publications, identity)
              || exists t :: t in w.threads && Holds(w.threads[t]) && IdentityFor(pr, w.threads[t].request) == identity
  {
    hide IdentityFor;
  }

  lemma OneHolder(pr: Primitives, w: World, t: nat, u: nat)
    requires Sound(pr, w) && t in w.threads && u in w.threads && Holds(w.threads[t]) && Holds(w.threads[u])
    requires IdentityFor(pr, w.threads[t].request) == IdentityFor(pr, w.threads[u].request)
    ensures t == u
  {
    hide IdentityFor, StageSound, RecordSound, KeysReady, Unpublished, Holds, OneRecordEach;
    assert HolderSound(pr, w.s, t, w.threads[t]) && HolderSound(pr, w.s, u, w.threads[u]);
  }

  lemma StoppingAbandons(pr: Primitives, w: World, t: nat, identity: Identity)
    requires Sound(pr, w) && t in w.threads && !Abandoned(pr, w, identity)
    ensures Abandoned(pr, Apply(pr, w, Stop(t)), identity) <==> Abandons(pr, w, Stop(t), identity)
  {
    var next := Apply(pr, w, Stop(t));
    assert HolderSound(pr, w.s, t, w.threads[t]);
    hide IdentityFor, Abandoned, Unpublished, Sound;
    NotAbandoned(pr, w, identity);
    NotAbandoned(pr, next, identity);
    if Abandons(pr, w, Stop(t), identity) {
      forall u | u in w.threads && Holds(w.threads[u]) && IdentityFor(pr, w.threads[u].request) == identity
        ensures u == t
      {
        OneHolder(pr, w, t, u);
      }
    } else if u :| u in w.threads && Holds(w.threads[u]) && IdentityFor(pr, w.threads[u].request) == identity {
      assert u in next.threads && Holds(next.threads[u]);
    }
  }

  /** What a step of the holder does to its own claim. */
  lemma OwnClaim(pr: Primitives, s: Stores, t: nat, th: Thread, fault: Option<CoreError>, identifier: Id)
    requires HolderSound(pr, s, t, th) && Holds(th)
    ensures var (next, after) := Step(pr, s, t, th, fault, identifier);
            var own := IdentityFor(pr, th.request);
            && after.request == th.request
            && (Holds(after) ==> own in next.claims)
            && (!Holds(after) ==>
                  || own !in next.claims || !Unpublished(next.publications, own)
                  || (th.stage.Releasing? && fault.Some? && next == s))
            && (th.stage.Releasing? && fault.Some? ==> next == s && !Holds(after))
  {
    hide IdentityFor, CanonicalOf, Unpublished;
    if th.stage.LinkingRecord? && fault.None? && identifier !in s.publications {
      Recorded(pr, s, th, identifier);
    }
  }

  lemma Recorded(pr: Primitives, s: Stores, th: Thread, identifier: Id)
    ensures !Unpublished(s.publications[identifier := RecordOf(pr, th, identifier)], IdentityFor(pr, th.request))
  {
    hide IdentityFor, CanonicalOf;
    assert identifier in s.publications[identifier := RecordOf(pr, th, identifier)];
  }

  lemma ClaimTaken(pr: Primitives, s: Stores, t: nat, th: Thread, fault: Option<CoreError>, identifier: Id)
    requires !Holds(th)
    ensures var (next, after) := Step(pr, s, t, th, fault, identifier);
            && after.request == th.request && next.publications == s.publications
            && (next.claims == s.claims || (Holds(after) && IdentityFor(pr, th.request) !in s.claims))
            && (Holds(after) ==> IdentityFor(pr, th.request) !in s.claims)
  {
    hide IdentityFor, CanonicalOf, ValidText;
  }

  lemma ElsewhereUnpublished(pr: Primitives, s: Stores, t: nat, th: Thread, fault: Option<CoreError>, identifier: Id,
                             identity: Identity)
    requires KeysReady(s.keys) && IdentityFor(pr, th.request) != identity
    ensures var next := Step(pr, s, t, th, fault, identifier).0;
            && (identity in next.claims <==> identity in s.claims)
            && (Unpublished(next.publications, identity) <==> Unpublished(s.publications, identity))
  {
    LeavesAlone(pr, s, t, th, fault, identifier, identity);
    RecordsAfter(pr, s, t, th, fault, identifier);
    hide Step, KeysReady, IdentityFor;
    var next := Step(pr, s, t, th, fault, identifier).0;
    if id :| id in s.publications && s.publications[id].identity == identity {
      assert id in next.publications && next.publications[id].identity == identity;
    }
  }

  lemma OtherHoldersStay(pr: Primitives, w: World, t: nat, fault: Option<CoreError>, identifier: Id, u: nat)
    requires Enabled(w, Advance(t, fault, identifier)) && u in w.threads && u != t
    ensures var next := Apply(pr, w, Advance(t, fault, identifier));
            u in next.threads && next.threads[u] == w.threads[u]
  {
    hide Step;
  }

  /** A thread of another content changes nothing for this one. */
  lemma ElsewhereAbandonsNothing(pr: Primitives, w: World, t: nat, fault: Option<CoreError>, identifier: Id,
                                 identity: Identity)
    requires Enabled(w, Advance(t, fault, identifier)) && !Abandoned(pr, w, identity) && KeysReady(w.s.keys)
    requires IdentityFor(pr, w.threads[t].request) != identity
    ensures !Abandoned(pr, Apply(pr, w, Advance(t, fault, identifier)), identity)
  {
    var next, th := Apply(pr, w, Advance(t, fault, identifier)), w.threads[t];
    hide IdentityFor, Abandoned, Unpublished, Step, Holds, KeysReady;
    NotAbandoned(pr, w, identity);
    NotAbandoned(pr, next, identity);
    ElsewhereUnpublished(pr, w.s, t, th, fault, identifier, identity);
    if u :| u in w.threads && Holds(w.threads[u]) && IdentityFor(pr, w.threads[u].request) == identity {
      OtherHoldersStay(pr, w, t, fault, identifier, u);
    }
  }

  lemma AdvanceAbandons(pr: Primitives, w: World, t: nat, fault: Option<CoreError>, identifier: Id, identity: Identity)
    requires Sound(pr, w) && Enabled(w, Advance(t, fault, identifier)) && !Abandoned(pr, w, identity)
    requires IdentityFor(pr, w.threads[t].request) == identity
    ensures Abandoned(pr, Apply(pr, w, Advance(t, fault, identifier)), identity)
            <==> Abandons(pr, w, Advance(t, fault, identifier), identity)
  {
    var next, th := Apply(pr, w, Advance(t, fault, identifier)), w.threads[t];
    assert HolderSound(pr, w.s, t, th);
    hide IdentityFor, Abandoned, Unpublished, KeysReady, OneRecordEach, StageSound, RecordSound, HolderSound, Step;
    NotAbandoned(pr, w, identity);
    NotAbandoned(pr, next, identity);
    if Holds(th) {
      OwnClaim(pr, w.s, t, th, fault, identifier);
      forall u | u in w.threads && Holds(w.threads[u]) && IdentityFor(pr, w.threads[u].request) == identity
        ensures u == t
      {
        OneHolder(pr, w, t, u);
      }
    } else {
      ClaimTaken(pr, w.s, t, th, fault, identifier);
    }
    hide Holds;
    if u :| u in w.threads && u != t && Holds(w.threads[u]) && IdentityFor(pr, w.threads[u].request) == identity {
      OtherHoldersStay(pr, w, t, fault, identifier, u);
    }
    assert t in next.threads;
  }

  lemma StepKeepsRequest(pr: Primitives, s: Stores, t: nat, th: Thread, fault: Option<CoreError>, identifier: Id)
    ensures Step(pr, s, t, th, fault, identifier).1.request == th.request
  {
    hide IdentityFor, CanonicalOf, ValidText, ObtainMaster;
  }

  /** A step leaves an identity abandoned exactly when it is one of those: a stop of the holder, or a failed release. */
  lemma AbandonedExactly(pr: Primitives, w: World, e: Event, identity: Identity)
    requires Sound(pr, w) && Enabled(w, e) && !Abandoned(pr, w, identity)
    ensures Abandoned(pr, Apply(pr, w, e), identity) <==> Abandons(pr, w, e, identity)
  {
    assert KeysReady(w.s.keys);
    hide Sound, Abandoned, Step, KeysReady;
    match e
    case Stop(t) => StoppingAbandons(pr, w, t, identity);
    case Advance(t, fault, identifier) =>
      if IdentityFor(pr, w.threads[t].request) == identity {
        AdvanceAbandons(pr, w, t, fault, identifier, identity);
      } else {
        ElsewhereAbandonsNothing(pr, w, t, fault, identifier, identity);
      }
    case Begin(t, request) => BeginAbandonsNothing(pr, w, t, request, identity);
  }

  lemma BeginAbandonsNothing(pr: Primitives, w: World, t: nat, request: Request, identity: Identity)
    requires t !in w.threads
    ensures Abandoned(pr, Apply(pr, w, Begin(t, request)), identity) == Abandoned(pr, w, identity)
  {
    var next := Apply(pr, w, Begin(t, request));
    hide IdentityFor, Abandoned, Unpublished;
    NotAbandoned(pr, w, identity);
    NotAbandoned(pr, next, identity);
    if u :| u in w.threads && Holds(w.threads[u]) && IdentityFor(pr, w.threads[u].request) == identity {
      assert u in next.threads;
    }
  }

  lemma AbandonedStep(pr: Primitives, w: World, e: Event, identity: Identity)
    requires Sound(pr, w) && Enabled(w, e) && Abandoned(pr, w, identity)
    ensures Abandoned(pr, Apply(pr, w, e), identity)
  {
    hide IdentityFor, Unpublished, KeysReady, OneRecordEach, StageSound, RecordSound, HolderSound, Step, Holds;
    if e.Advance? {
      var th := w.threads[e.thread];
      StepKeepsRequest(pr, w.s, e.thread, th, e.fault, e.identifier);
      if IdentityFor(pr, th.request) != identity {
        ElsewhereUnpublished(pr, w.s, e.thread, th, e.fault, e.identifier, identity);
      } else {
        ClaimTaken(pr, w.s, e.thread, th, e.fault, e.identifier);
      }
    } else if e.Begin? {
      hide Abandoned;
      BeginAbandonsNothing(pr, w, e.thread, e.request, identity);
    } else {
      StoppedHoldsNothing(w.threads[e.thread]);
    }
  }

  lemma StoppedHoldsNothing(th: Thread)
    ensures !Holds(th.(stage := Stopped))
  {
  }

  lemma NoneAbandoned(pr: Primitives, w: World, identity: Identity)
    requires Initial(w)
    ensures !Abandoned(pr, w, identity)
  {
  }

  /** In every run, an identity is abandoned if and only if the holder of its claim stopped or failed to release it. */
  lemma {:induction false} AbandonedIff(pr: Primitives, worlds: seq<World>, events: seq<Event>, j: nat,
                                        identity: Identity)
    requires Run(pr, worlds, events) && Initial(worlds[0]) && j < |worlds|
    ensures Abandoned(pr, worlds[j], identity) <==>
            exists i :: 0 <= i < j && Abandons(pr, worlds[i], events[i], identity)
  {
    hide Sound, Apply, Enabled, Abandons, Initial;
    if j == 0 {
      NoneAbandoned(pr, worlds[0], identity);
    } else {
      hide Abandoned;
      AbandonedIff(pr, worlds, events, j - 1, identity);
      RunsAreSound(pr, worlds, events, j - 1);
      if Abandoned(pr, worlds[j - 1], identity) {
        AbandonedStep(pr, worlds[j - 1], events[j - 1], identity);
      } else {
        AbandonedExactly(pr, worlds[j - 1], events[j - 1], identity);
      }
    }
  }

  /** From then on a publication of that content gets no further than its claim, which it is refused as a duplicate. */
  lemma AbandonedIsNeverPublished(pr: Primitives, worlds: seq<World>, events: seq<Event>, i: nat, j: nat,
                                  identity: Identity, t: nat, identifier: Id)
    requires Run(pr, worlds, events) && Initial(worlds[0]) && i <= j < |worlds| && Abandoned(pr, worlds[i], identity)
    ensures Unpublished(worlds[j].s.publications, identity)
    ensures t in worlds[j].threads && worlds[j].threads[t].stage.Claiming?
            && IdentityFor(pr, worlds[j].threads[t].request) == identity ==>
              Step(pr, worlds[j].s, t, worlds[j].threads[t], None, identifier)
              == (worlds[j].s, Failed(worlds[j].threads[t], ContentDuplicate))
  {
    hide Apply, Enabled, Sound, Abandons, Unpublished, IdentityFor, Initial;
    AbandonedIff(pr, worlds, events, i, identity);
    AbandonedIff(pr, worlds, events, j, identity);
  }

  // ----- both ways there -----

  lemma RunGoesOn(pr: Primitives, worlds: seq<World>, events: seq<Event>, e: Event) returns (on: seq<World>)
    requires Run(pr, worlds, events) && Enabled(worlds[|events|], e)
    ensures Run(pr, on, events + [e]) && on[0] == worlds[0]
    ensures on == worlds + [Apply(pr, worlds[|events|], e)]
  {
    hide Apply, Enabled;
    on := worlds + [Apply(pr, worlds[|events|], e)];
    forall i | 0 <= i < |events + [e]|
      ensures Enabled(on[i], (events + [e])[i]) && on[i + 1] == Apply(pr, on[i], (events + [e])[i])
    {
      assert on[i] == worlds[i];
      if i < |events| {
        assert (events + [e])[i] == events[i] && on[i + 1] == worlds[i + 1];
      }
    }
  }

  /** The steps of a publication up to its claim. */
  function Approaching(request: Request, id: Id): seq<Event> {
    [Begin(0, request), Advance(0, None, id), Advance(0, None, id)]
  }

  /** A single publication of a valid, signed text gets to its claim. */
  lemma Claims(pr: Primitives, w: World, request: Request, id: Id) returns (worlds: seq<World>)
    requires Initial(w) && request.author in w.s.users && ValidText(request.draft.content)
    requires pr.signed(IdentityFor(pr, request), w.s.users[request.author], request.signature, request.authorKey)
    ensures Run(pr, worlds, Approaching(request, id)) && worlds[0] == w
    ensures 0 in worlds[3].threads
            && worlds[3].threads[0] == Thread(request, w.s.users[request.author], LoadingMaster)
  {
    hide IdentityFor, ValidText, CanonicalOf, ObtainMaster;
    var w1 := w.(threads := map[0 := Thread(request, [], Verifying)]);
    var w2 := w.(threads := map[0 := Thread(request, w.s.users[request.author], Claiming)]);
    var w3 := Apply(pr, w2, Advance(0, None, id));
    assert w1 == Apply(pr, w, Begin(0, request));
    assert w2 == Apply(pr, w1, Advance(0, None, id));
    worlds := [w, w1, w2, w3];
  }

  /**
   Both causes are reachable, for any valid text signed by its author: a publication makes its claim
   and stops, or it fails at its next step and then fails to give the claim back.
   */
  lemma AbandonedRuns(pr: Primitives, w: World, request: Request, id: Id, stops: bool)
    returns (worlds: seq<World>, events: seq<Event>)
    requires Initial(w) && request.author in w.s.users && ValidText(request.draft.content)
    requires pr.signed(IdentityFor(pr, request), w.s.users[request.author], request.signature, request.authorKey)
    ensures Run(pr, worlds, events) && worlds[0] == w && Abandoned(pr, worlds[|events|], IdentityFor(pr, request))
    ensures var fails := Advance(0, Some(StorageFailed), id);
            events == Approaching(request, id) + if stops then [Stop(0)] else [fails] + [fails]
  {
    hide Initial, IdentityFor, ValidText, CanonicalOf, ObtainMaster, Verify;
    var fails := Advance(0, Some(StorageFailed), id);
    events := Approaching(request, id);
    worlds := Claims(pr, w, request, id);
    if stops {
      worlds := RunGoesOn(pr, worlds, events, Stop(0));
      events := events + [Stop(0)];
    } else {
      worlds := RunGoesOn(pr, worlds, events, fails);
      events := events + [fails];
      assert worlds[4].threads[0].stage.Releasing?;
      worlds := RunGoesOn(pr, worlds, events, fails);
      events := events + [fails];
    }
    hide Run, Apply, Abandoned;
    assert Abandons(pr, worlds[|events| - 1], events[|events| - 1], IdentityFor(pr, request));
    AbandonedIff(pr, worlds, events, |events|, IdentityFor(pr, request));
  }
}
