/**
 A publication that meets no other thread and no failure: storage step by storage step it comes to what
 publishing comes to when a request is taken as a whole.
 */
module PublishAlone {
  import opened Bytes
  import opened Errors
  import opened Utf8
  import opened CanonicalForm
  import opened Crypto
  import opened StoreContents
  import opened PublishInterleaving
  import P = PublishInterleaving

  /** So many steps of thread `t`, one after the other. */
  ghost function Alone(pr: Primitives, s: Stores, t: nat, th: Thread, id: Id, n: nat): (Stores, Thread)
    decreases n
  {
    if n == 0 then (s, th)
    else
      var (next, after) := P.Step(pr, s, t, th, None, id);
      Alone(pr, next, t, after, id, n - 1)
  }

  lemma {:induction false} FinishedStays(pr: Primitives, s: Stores, t: nat, th: Thread, id: Id, n: nat)
    requires th.stage.Finished?
    ensures Alone(pr, s, t, th, id, n) == (s, th)
  {
    if n > 0 {
      FinishedStays(pr, s, t, th, id, n - 1);
    }
  }

  /** The stores without the claim of an identity. */
  function Unclaimed(s: Stores, identity: Identity): Stores {
    s.(claims := s.claims - {identity})
  }

  lemma FromReleasing(pr: Primitives, s: Stores, t: nat, th: Thread, id: Id, n: nat)
    requires th.stage.Releasing? && n >= 1
    ensures Alone(pr, s, t, th, id, n) == (Unclaimed(s, IdentityFor(pr, th.request)), Failed(th, th.stage.original))
  {
    hide IdentityFor, Verify;
    var s1 := Unclaimed(s, IdentityFor(pr, th.request));
    assert P.Step(pr, s, t, th, None, id) == (s1, Failed(th, th.stage.original));
    FinishedStays(pr, s1, t, Failed(th, th.stage.original), id, n - 1);
  }

  /** What linking the record comes to. */
  function Recorded(pr: Primitives, s: Stores, th: Thread, id: Id): (Stores, Thread) {
    if id in s.publications then (Unclaimed(s, IdentityFor(pr, th.request)), Failed(th, RecordExists))
    else
      (s.(publications := s.publications[id := RecordOf(pr, th, id)],
          drafts := s.drafts[id := th.request.draft.content]),
       th.(stage := Finished(Ok(RecordOf(pr, th, id)))))
  }

  lemma FromRecord(pr: Primitives, s: Stores, t: nat, th: Thread, id: Id, n: nat)
    requires th.stage == LinkingRecord && n >= 2
    ensures Alone(pr, s, t, th, id, n) == Recorded(pr, s, th, id)
  {
    hide IdentityFor, Verify, RecordOf;
    var (s1, th1) := P.Step(pr, s, t, th, None, id);
    if id in s.publications {
      FromReleasing(pr, s1, t, th1, id, n - 1);
    } else {
      FinishedStays(pr, s1, t, th1, id, n - 1);
    }
  }

  /** What storing the blob and then the record comes to. */
  function Stored(pr: Primitives, s: Stores, th: Thread, key: Key, id: Id): (Stores, Thread) {
    var identity := IdentityFor(pr, th.request);
    Recorded(pr, s.(blobs := s.blobs[identity := Sealed(key, identity, Text(CanonicalOf(th.request)))]),
             th.(stage := LinkingRecord), id)
  }

  lemma FromBlob(pr: Primitives, s: Stores, t: nat, th: Thread, id: Id, n: nat)
    requires th.stage.StoringBlob? && n >= 3
    ensures Alone(pr, s, t, th, id, n) == Stored(pr, s, th, th.stage.key, id)
  {
    hide IdentityFor, Verify, RecordOf, CanonicalOf, Recorded;
    var (s1, th1) := P.Step(pr, s, t, th, None, id);
    FromRecord(pr, s1, t, th1, id, n - 1);
  }

  lemma FromFileKey(pr: Primitives, s: Stores, t: nat, th: Thread, id: Id, n: nat)
    requires th.stage.StoringFileKey? && n >= 4
    ensures var identity := IdentityFor(pr, th.request);
            Alone(pr, s, t, th, id, n)
            == Stored(pr, s.(keys := StoreFileKey(s.keys, identity, th.stage.master)), th, s.keys.drawn, id)
  {
    hide IdentityFor, Verify, RecordOf, CanonicalOf, Recorded, StoreFileKey;
    var (s1, th1) := P.Step(pr, s, t, th, None, id);
    FromBlob(pr, s1, t, th1, id, n - 1);
  }

  /** What obtaining the file key, and then all the rest, comes to. */
  function Obtained(pr: Primitives, s: Stores, th: Thread, id: Id): (Stores, Thread) {
    var identity := IdentityFor(pr, th.request);
    var (keys, key) := ObtainFileKey(s.keys, identity, {});
    if key.Err? then (Unclaimed(s.(keys := keys), identity), Failed(th, key.error))
    else Stored(pr, s.(keys := keys), th, key.value, id)
  }

  /** The stages before a file key is there, as far as they change nothing. */
  lemma FromKeyStage(pr: Primitives, s: Stores, t: nat, th: Thread, id: Id, n: nat)
    requires th.stage.LoadingMaster? || th.stage.LoadingFileKey? || th.stage.LookingForMaster?
             || th.stage.ListingFileKeys? || th.stage.LookingAgain? || th.stage.LinkingMaster?
             || th.stage.LoadingLinked?
    requires n > 0
    ensures var (keys, stage) := ObtainMaster(s.keys, IdentityFor(pr, th.request), th.stage);
            Alone(pr, s, t, th, id, n) == Alone(pr, s.(keys := keys), t, th.(stage := stage), id, n - 1)
  {
    hide IdentityFor, Verify, ObtainMaster, RecordOf, CanonicalOf;
  }

  lemma StoredAlike(pr: Primitives, s: Stores, a: Thread, b: Thread, key: Key, id: Id)
    requires a.request == b.request && a.authorName == b.authorName
    ensures Stored(pr, s, a, key, id) == Stored(pr, s, b, key, id)
  {
  }

  /** From the second look for a master key on, when the file key is not there. */
  lemma FromLookingAgain(pr: Primitives, s: Stores, t: nat, th: Thread, id: Id, n: nat)
    requires th.stage.LookingAgain? && n >= 6
    requires s.keys.master.None? ==> s.keys.fileKeys == map[]
    ensures var identity := IdentityFor(pr, th.request);
            var (keys, master) := CreateMaster(s.keys, {});
            && master.Ok?
            && Alone(pr, s, t, th, id, n)
               == Stored(pr, s.(keys := StoreFileKey(keys, identity, master.value)), th, keys.drawn, id)
  {
    hide IdentityFor, Verify, RecordOf, CanonicalOf, Stored, P.Step, Alone;
    var identity := IdentityFor(pr, th.request);
    FromKeyStage(pr, s, t, th, id, n);
    if s.keys.master.Some? {
      var th1, th2 := th.(stage := LoadingLinked), th.(stage := StoringFileKey(s.keys.master.value));
      FromKeyStage(pr, s, t, th1, id, n - 1);
      FromFileKey(pr, s, t, th2, id, n - 2);
      StoredAlike(pr, s.(keys := StoreFileKey(s.keys, identity, s.keys.master.value)), th2, th, s.keys.drawn, id);
    } else {
      var k1 := s.keys.(drawn := s.keys.drawn + 1);
      var k2 := k1.(master := Some(s.keys.drawn));
      var s1, s2 := s.(keys := k1), s.(keys := k2);
      var th1, th2 := th.(stage := LinkingMaster(s.keys.drawn)), th.(stage := StoringFileKey(s.keys.drawn));
      FromKeyStage(pr, s1, t, th1, id, n - 1);
      FromFileKey(pr, s2, t, th2, id, n - 2);
      StoredAlike(pr, s2.(keys := StoreFileKey(k2, identity, s.keys.drawn)), th2, th, k2.drawn, id);
    }
  }

  /** From the first look for a master key on: a master key is made only in an empty key store. */
  lemma FromLooking(pr: Primitives, s: Stores, t: nat, th: Thread, id: Id, n: nat)
    requires th.stage.LookingForMaster? && n >= 8
    ensures var identity := IdentityFor(pr, th.request);
            var (keys, master) := CreateMaster(s.keys, {});
            Alone(pr, s, t, th, id, n) ==
            if master.Err? then (Unclaimed(s, identity), Failed(th, KeyNotFound))
            else Stored(pr, s.(keys := StoreFileKey(keys, identity, master.value)), th, keys.drawn, id)
  {
    hide IdentityFor, Verify, RecordOf, CanonicalOf, Stored, P.Step, Alone, StoreFileKey;
    var identity := IdentityFor(pr, th.request);
    FromKeyStage(pr, s, t, th, id, n);
    var th1, th2 := th.(stage := ListingFileKeys), th.(stage := LookingAgain);
    var (keys, master) := CreateMaster(s.keys, {});
    StoredAlike(pr, s.(keys := if master.Ok? then StoreFileKey(keys, identity, master.value) else keys), th2, th,
                keys.drawn, id);
    if s.keys.master.Some? {
      FromLookingAgain(pr, s, t, th2, id, n - 1);
    } else {
      FromKeyStage(pr, s, t, th1, id, n - 1);
      if s.keys.fileKeys != map[] {
        FromReleasing(pr, s, t, th.(stage := Releasing(KeyNotFound)), id, n - 2);
      } else {
        FromLookingAgain(pr, s, t, th2, id, n - 2);
      }
    }
  }

  /** From the claim on. */
  lemma FromClaim(pr: Primitives, s: Stores, t: nat, th: Thread, id: Id, n: nat)
    requires th.stage.LoadingMaster? && n >= 10
    ensures Alone(pr, s, t, th, id, n) == Obtained(pr, s, th, id)
  {
    hide IdentityFor, Verify, RecordOf, CanonicalOf, Stored, P.Step, Alone;
    var identity := IdentityFor(pr, th.request);
    FromKeyStage(pr, s, t, th, id, n);
    var looking := th.(stage := LookingForMaster);
    if s.keys.master.None? {
      FromLooking(pr, s, t, looking, id, n - 1);
    } else {
      var loading := th.(stage := LoadingFileKey(s.keys.master.value));
      FromKeyStage(pr, s, t, loading, id, n - 1);
      if identity !in s.keys.fileKeys {
        FromLooking(pr, s, t, looking, id, n - 2);
      } else {
        var key := UnwrapKey(s.keys.fileKeys[identity], s.keys.master.value, identity);
        if key.Err? {
          FromReleasing(pr, s, t, th.(stage := Releasing(key.error)), id, n - 2);
        } else {
          FromBlob(pr, s, t, th.(stage := StoringBlob(key.value)), id, n - 2);
          StoredAlike(pr, s, th.(stage := StoringBlob(key.value)), th, key.value, id);
        }
      }
    }
    if CreateMaster(s.keys, {}).1.Ok? {
      var (keys, master) := CreateMaster(s.keys, {});
      StoredAlike(pr, s.(keys := StoreFileKey(keys, identity, master.value)), looking, th, keys.drawn, id);
    }
  }

  /** The contents of the stores, as a request taken as a whole sees them. */
  function Whole(s: Stores): Requests.State {
    Requests.State(Metadata(s.users, s.publications, map[], map[], map[]), s.keys, s.claims.Keys, s.blobs)
  }

  /** What publishing a request comes to when it is taken as a whole and nothing fails. */
  ghost function AsAWhole(pr: Primitives, s: Stores, r: Request, id: Id)
    : (Requests.State, Result<PublicationRecord, CoreError>)
  {
    Requests.Publish(pr, Whole(s), r.author, r.draft, r.authorKey, r.signature, r.at, id, {})
  }

  /** Its text is valid, and signed by its author under the registered name. */
  ghost predicate Acceptable(pr: Primitives, s: Stores, r: Request) {
    && r.author in s.users && ValidText(r.draft.content)
    && pr.signed(IdentityFor(pr, r), s.users[r.author], r.signature, r.authorKey)
  }

  lemma ClaimedKeys(claims: map<Identity, nat>, identity: Identity, t: nat)
    ensures claims[identity := t].Keys == claims.Keys + {identity}
    ensures identity !in claims ==>
              && (claims[identity := t] - {identity}).Keys == claims.Keys
              && claims.Keys + {identity} - {identity} == claims.Keys
  {
  }

  lemma WholeRefused(pr: Primitives, s: Stores, r: Request, id: Id)
    requires !Acceptable(pr, s, r) || IdentityFor(pr, r) in s.claims
    ensures var (after, reply) := AsAWhole(pr, s, r, id);
            && after == Whole(s)
            && reply == Err(if r.author !in s.users then UserNotFound
                            else if !ValidText(r.draft.content) then ContentOutsideChannelDomain
                            else if !Acceptable(pr, s, r) then SignatureInvalid
                            else ContentDuplicate)
  {
    hide ValidText, Canonical, ContentIdentity, SealText;
  }

  /** The whole request once its content is claimed: a file key, the blob, the record, or the claim given back. */
  lemma WholeClaimed(pr: Primitives, s: Stores, r: Request, id: Id)
    requires Acceptable(pr, s, r) && IdentityFor(pr, r) !in s.claims
    ensures var whole, identity := Whole(s), IdentityFor(pr, r);
            var (keys, key) := ObtainFileKey(s.keys, identity, {});
            var kept := s.claims.Keys + {identity};
            var record := RecordOf(pr, Thread(r, s.users[r.author], Claiming), id);
            AsAWhole(pr, s, r, id) ==
            if key.Err? then (whole.(keys := keys, claims := kept - {identity}), Err(key.error))
            else
              var blobs := s.blobs[identity := Sealed(key.value, identity, Text(CanonicalOf(r)))];
              if id in s.publications then
                (whole.(keys := keys, claims := kept - {identity}, blobs := blobs), Err(RecordExists))
              else
                (whole.(keys := keys, claims := kept, blobs := blobs,
                        metadata := whole.metadata.(publications := s.publications[id := record])),
                 Ok(record))
  {
    hide ValidText, Canonical, ContentIdentity, ObtainFileKey;
  }

  lemma WholeObtained(pr: Primitives, s: Stores, th: Thread, id: Id, t: nat)
    requires Acceptable(pr, s, th.request) && IdentityFor(pr, th.request) !in s.claims
    requires th.authorName == s.users[th.request.author]
    ensures var identity := IdentityFor(pr, th.request);
            var (end, done) := Obtained(pr, s.(claims := s.claims[identity := t]), th, id);
            var (after, reply) := AsAWhole(pr, s, th.request, id);
            Whole(end) == after && done.stage == Finished(reply)
  {
    ClaimedKeys(s.claims, IdentityFor(pr, th.request), t);
    WholeClaimed(pr, s, th.request, id);
    hide ValidText, Canonical, IdentityFor, ObtainFileKey, AsAWhole, Acceptable;
  }

  /**
   From any contents of the stores, a publication that runs alone and meets no failure has finished after
   twelve storage steps, with the reply and the contents that publishing as a whole comes to.
   */
  lemma PublishesAlone(pr: Primitives, s: Stores, t: nat, r: Request, id: Id)
    ensures var (end, done) := Alone(pr, s, t, Thread(r, [], Verifying), id, 12);
            var (after, reply) := AsAWhole(pr, s, r, id);
            Whole(end) == after && done.stage == Finished(reply)
  {
    var th0 := Thread(r, [], Verifying);
    var (s1, th1) := P.Step(pr, s, t, th0, None, id);
    assert Alone(pr, s, t, th0, id, 12) == Alone(pr, s1, t, th1, id, 11);
    assert Acceptable(pr, s, r) ==> th1 == Thread(r, s.users[r.author], Claiming);
    if !Acceptable(pr, s, r) {
      WholeRefused(pr, s, r, id);
      FinishedStays(pr, s1, t, th1, id, 11);
    } else {
      var (s2, th2) := P.Step(pr, s, t, th1, None, id);
      assert Alone(pr, s, t, th1, id, 11) == Alone(pr, s2, t, th2, id, 10);
      if IdentityFor(pr, r) in s.claims {
        WholeRefused(pr, s, r, id);
        FinishedStays(pr, s2, t, th2, id, 10);
      } else {
        FromClaim(pr, s2, t, th2, id, 10);
        WholeObtained(pr, s, th2, id, t);
      }
    }
    hide ValidText, IdentityFor, Obtained, AsAWhole, Alone;
  }
}
