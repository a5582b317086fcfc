/**
 A purchase that meets no other thread and no failure: storage step by storage step it comes to what buying
 comes to when a request is taken as a whole.
 */
module BuyAlone {
  import opened Bytes
  import opened Errors
  import opened Crypto
  import opened StoreContents
  import opened BuyInterleaving
  import Requests

  /** So many steps of thread `t`, one after the other. */
  ghost function Alone(w: World, t: nat, id: Id, n: nat): World
    requires t in w.threads
    decreases n
  {
    if n == 0 || !Enabled(w, Advance(t, None, id)) then w
    else
      var next := Apply(w, Advance(t, None, id));
      if t in next.threads then Alone(next, t, id, n - 1) else next
  }

  /** The contents of the stores, as a request taken as a whole sees them. */
  function Whole(w: World): Requests.State {
    Requests.State(w.m, w.keys, {}, map[])
  }

  /** Thread `t` has finished with a reply, and the stores are as a request taken as a whole leaves them. */
  predicate Ends(w: World, t: nat, end: World, whole: (Requests.State, Result<Receipt, CoreError>))
    requires t in w.threads
  {
    && end.m == whole.0.metadata && end.keys == whole.0.keys
    && end.threads == w.threads[t := w.threads[t].(stage := Finished(whole.1))]
  }

  lemma OneStep(w: World, t: nat, id: Id, n: nat, next: World)
    requires t in w.threads && !w.threads[t].stage.Finished? && !w.threads[t].stage.Stopped? && n > 0
    requires next == Apply(w, Advance(t, None, id)) && t in next.threads
    ensures Alone(w, t, id, n) == Alone(next, t, id, n - 1)
  {
    hide Apply;
  }

  lemma FinishedStays(w: World, t: nat, id: Id, n: nat)
    requires t in w.threads && w.threads[t].stage.Finished?
    ensures Alone(w, t, id, n) == w
  {
    hide Apply;
  }

  /** From drawing the purchase key on. */
  lemma FromSealing(w: World, t: nat, id: Id, n: nat)
    requires t in w.threads && w.threads[t].stage.Sealing? && n >= 2
    ensures var r, st := w.threads[t].request, w.threads[t].stage;
            Ends(w, t, Alone(w, t, id, n),
                 Requests.Issue(Whole(w), st.context, r.user, st.publication, st.grantedAt, r.device, r.at, {}))
  {
    hide Approach, UseRecord, AddRecord, WrapFileKey;
    var w1 := Apply(w, Advance(t, None, id));
    OneStep(w, t, id, n, w1);
    if w1.threads[t].stage.Finished? {
      FinishedStays(w1, t, id, n - 1);
    } else {
      var w2 := Apply(w1, Advance(t, None, id));
      OneStep(w1, t, id, n - 1, w2);
      FinishedStays(w2, t, id, n - 2);
    }
  }

  /** Thread `t` moves on to a stage, and nothing else changes. */
  lemma Moving(w: World, t: nat, stage: Stage, end: World, whole: (Requests.State, Result<Receipt, CoreError>))
    requires t in w.threads
    ensures Ends(Now(w, t, stage), t, end, whole) == Ends(w, t, end, whole)
  {
    assert Now(w, t, stage).threads[t].request == w.threads[t].request;
    assert Now(w, t, stage).threads[t := w.threads[t].(stage := Finished(whole.1))]
        == w.threads[t := w.threads[t].(stage := Finished(whole.1))];
  }

  lemma MoveOn(w: World, t: nat, id: Id, n: nat, stage: Stage)
    requires t in w.threads && !w.threads[t].stage.Finished? && !w.threads[t].stage.Stopped? && n > 0
    requires Apply(w, Advance(t, None, id)) == Now(w, t, stage)
    ensures Alone(w, t, id, n) == Alone(Now(w, t, stage), t, id, n - 1)
    ensures Now(w, t, stage).threads[t] == Thread(w.threads[t].request, stage)
    ensures Whole(Now(w, t, stage)) == Whole(w)
    ensures forall end, whole :: Ends(Now(w, t, stage), t, end, whole) == Ends(w, t, end, whole)
  {
    OneStep(w, t, id, n, Now(w, t, stage));
    forall end, whole ensures Ends(Now(w, t, stage), t, end, whole) == Ends(w, t, end, whole) {
      Moving(w, t, stage, end, whole);
    }
    hide Apply, Alone, Ends;
  }

  lemma FinishesWith(w: World, t: nat, id: Id, n: nat, reply: Result<Receipt, CoreError>)
    requires t in w.threads && !w.threads[t].stage.Finished? && !w.threads[t].stage.Stopped? && n > 0
    requires Apply(w, Advance(t, None, id)) == Now(w, t, Finished(reply))
    ensures Ends(w, t, Alone(w, t, id, n), (Whole(w), reply))
  {
    OneStep(w, t, id, n, Now(w, t, Finished(reply)));
    FinishedStays(Now(w, t, Finished(reply)), t, id, n - 1);
    hide Apply, Alone;
  }

  /** From looking for the stored receipt of a record on. */
  lemma FromRecord(w: World, t: nat, id: Id, n: nat)
    requires t in w.threads && w.threads[t].stage.ReadingReceipt? && n >= 5
    requires w.threads[t].stage.purchase.userId == w.threads[t].request.user
    ensures var r, purchase := w.threads[t].request, w.threads[t].stage.purchase;
            Ends(w, t, Alone(w, t, id, n), Requests.ReceiptFor(Whole(w), purchase, r.device, r.at, {}))
  {
    hide Approach, AddRecord, IssueReceipt, Requests.Issue, Alone, Ends;
    var r, purchase := w.threads[t].request, w.threads[t].stage.purchase;
    var m := w.m;
    if (purchase.purchaseId, r.device) in m.receipts {
      FinishesWith(w, t, id, n, Ok(m.receipts[(purchase.purchaseId, r.device)].receipt));
    } else {
      MoveOn(w, t, id, n, ListingReceipts(purchase));
      var w1 := Now(w, t, ListingReceipts(purchase));
      if AnyReceipt(m, purchase.purchaseId) {
        FinishesWith(w1, t, id, n - 1, Err(ReceiptNotFound));
      } else {
        MoveOn(w1, t, id, n - 1, ReadingItsPublication(purchase));
        var w2 := Now(w1, t, ReadingItsPublication(purchase));
        if purchase.publicationId !in m.publications {
          FinishesWith(w2, t, id, n - 2, Err(PublicationNotFound));
        } else {
          var stage := Sealing(purchase.purchaseId, m.publications[purchase.publicationId], purchase.purchasedAt);
          MoveOn(w2, t, id, n - 2, stage);
          FromSealing(Now(w2, t, stage), t, id, n - 3);
        }
      }
    }
  }

  /** There is at most one record of the pair, so it does not matter which one is picked. */
  lemma PickedIsFound(m: Metadata, r: Request)
    requires PairsMark(m)
    ensures Picked(m, m.purchases.Keys, r) == FindPurchaseOf(m, r.user, r.publication, {})
    ensures Picked(m, m.purchases.Keys, r).Ok? ==> Picked(m, m.purchases.Keys, r).value.userId == r.user
  {
    forall a, b | IsPurchaseOf(m, a, r.user, r.publication) && IsPurchaseOf(m, b, r.user, r.publication)
      ensures a == b
    {
      PurchaseOfUnique(m, a, b, r.user, r.publication);
    }
    if id :| IsPurchaseOf(m, id, r.user, r.publication) {
      assert id in m.purchases.Keys;
    }
  }

  /** What looking for the record, and for its receipt, comes to. */
  ghost function Looked(s: Requests.State, r: Request): (Requests.State, Result<Receipt, CoreError>) {
    var found := FindPurchaseOf(s.metadata, r.user, r.publication, {});
    if found.Err? then (s, Err(found.error)) else Requests.ReceiptFor(s, found.value, r.device, r.at, {})
  }

  /** From the second look for a record on. */
  lemma FromLookingAgain(w: World, t: nat, id: Id, n: nat)
    requires t in w.threads && w.threads[t].stage.ListingAgain? && n >= 7 && PairsMark(w.m)
    ensures Ends(w, t, Alone(w, t, id, n), Looked(Whole(w), w.threads[t].request))
  {
    hide Approach, AddRecord, IssueReceipt, Requests.ReceiptFor, Alone, Ends, Picked, FindPurchaseOf, PairsMark;
    var r, stage := w.threads[t].request, LoadingAgain(w.m.purchases.Keys);
    PickedIsFound(w.m, r);
    MoveOn(w, t, id, n, stage);
    var w1, found := Now(w, t, stage), Picked(w.m, w.m.purchases.Keys, r);
    if found.Err? {
      FinishesWith(w1, t, id, n - 1, Err(found.error));
    } else {
      MoveOn(w1, t, id, n - 1, ReadingReceipt(found.value));
      FromRecord(Now(w1, t, ReadingReceipt(found.value)), t, id, n - 2);
    }
  }

  /** From looking for the author's own receipt on. */
  lemma FromOwn(w: World, t: nat, id: Id, n: nat)
    requires t in w.threads && w.threads[t].stage.ReadingOwnReceipt? && n >= 3
    ensures var r, publication := w.threads[t].request, w.threads[t].stage.publication;
            var own := FindReceipt(w.m, r.publication, r.device, {});
            Ends(w, t, Alone(w, t, id, n),
                 if own.Ok? then (Whole(w), Ok(own.value.receipt))
                 else Requests.Issue(Whole(w), r.publication, r.user, publication, publication.publishedAt, r.device,
                                     r.at, {}))
  {
    hide UseRecord, AddRecord, IssueReceipt, Requests.Issue, Alone, Ends, Picked;
    var r, publication := w.threads[t].request, w.threads[t].stage.publication;
    var own := FindReceipt(w.m, r.publication, r.device, {});
    if own.Ok? {
      FinishesWith(w, t, id, n, Ok(own.value.receipt));
    } else {
      var stage := Sealing(r.publication, publication, publication.publishedAt);
      MoveOn(w, t, id, n, stage);
      FromSealing(Now(w, t, stage), t, id, n - 1);
    }
  }

  /** What linking the marker, then the record, and then the rest comes to. */
  ghost function Linked(s: Requests.State, r: Request, publication: PublicationRecord, purchaseId: Id)
    : (Requests.State, Result<Receipt, CoreError>)
  {
    var (metadata, added) := AddPurchase(s.metadata, PurchaseRecord(purchaseId, r.user, r.publication, r.at), {});
    var after := s.(metadata := metadata);
    if added.Ok? then Requests.Issue(after, purchaseId, r.user, publication, r.at, r.device, r.at, {})
    else if added.error != RecordExists then (after, Err(added.error))
    else Looked(after, r)
  }

  /** Thread `t` and the metadata move on together. */
  lemma Changing(w: World, w1: World, t: nat, id: Id, n: nat, stage: Stage)
    requires t in w.threads && !w.threads[t].stage.Finished? && !w.threads[t].stage.Stopped? && n > 0
    requires w1 == Apply(w, Advance(t, None, id)) && w1.threads == w.threads[t := w.threads[t].(stage := stage)]
    ensures Alone(w, t, id, n) == Alone(w1, t, id, n - 1)
    ensures w1.threads[t] == Thread(w.threads[t].request, stage)
    ensures forall end, whole :: Ends(w1, t, end, whole) == Ends(w, t, end, whole)
  {
    OneStep(w, t, id, n, w1);
    forall end, whole ensures Ends(w1, t, end, whole) == Ends(w, t, end, whole) {
      assert w1.threads[t := w1.threads[t].(stage := Finished(whole.1))]
          == w.threads[t := w.threads[t].(stage := Finished(whole.1))];
    }
    hide Apply, Alone;
  }

  lemma FromMarker(w: World, t: nat, id: Id, n: nat)
    requires t in w.threads && w.threads[t].stage.LinkingMarker? && n >= 10 && PairsMark(w.m)
    ensures var r, stage := w.threads[t].request, w.threads[t].stage;
            Ends(w, t, Alone(w, t, id, n), Linked(Whole(w), r, stage.publication, stage.id))
  {
    hide Approach, UseRecord, IssueReceipt, Requests.Issue, Alone, Ends, Picked, FindPurchaseOf, PairsMark, Looked;
    var r, publication, purchaseId := w.threads[t].request, w.threads[t].stage.publication, w.threads[t].stage.id;
    var pair := PairOf(r);
    if pair in w.m.pairs {
      MoveOn(w, t, id, n, ListingAgain);
      FromLookingAgain(Now(w, t, ListingAgain), t, id, n - 1);
    } else {
      var w1 := Apply(w, Advance(t, None, id));
      Changing(w, w1, t, id, n, LinkingRecord(publication, purchaseId));
      var w2 := Apply(w1, Advance(t, None, id));
      if purchaseId !in w.m.purchases {
        Changing(w1, w2, t, id, n - 1, Sealing(purchaseId, publication, r.at));
        FromSealing(w2, t, id, n - 2);
      } else {
        Changing(w1, w2, t, id, n - 1, Unlinking(RecordExists, purchaseId));
        var w3 := Apply(w2, Advance(t, None, id));
        assert w.m.pairs[pair := purchaseId] - {pair} == w.m.pairs;
        Changing(w2, w3, t, id, n - 2, ListingAgain);
        assert w3.m == w.m;
        FromLookingAgain(w3, t, id, n - 3);
      }
    }
  }

  /** What buying comes to when the request is taken as a whole and nothing fails. */
  ghost function AsAWhole(w: World, r: Request, id: Id): (Requests.State, Result<Receipt, CoreError>) {
    Requests.Buy(Whole(w), r.user, r.publication, r.device, r.at, id, {})
  }

  /** Buying as a whole, in the order of its storage steps. */
  lemma WholeBuy(w: World, r: Request, id: Id)
    ensures var m := w.m;
            var found := FindPurchaseOf(m, r.user, r.publication, {});
            AsAWhole(w, r, id) ==
            if found.Ok? then Requests.ReceiptFor(Whole(w), found.value, r.device, r.at, {})
            else if r.publication !in m.publications then (Whole(w), Err(PublicationNotFound))
            else
              var publication := m.publications[r.publication];
              var own := FindReceipt(m, r.publication, r.device, {});
              if publication.authorId != r.user then Linked(Whole(w), r, publication, id)
              else if own.Ok? then (Whole(w), Ok(own.value.receipt))
              else Requests.Issue(Whole(w), r.publication, r.user, publication, publication.publishedAt, r.device,
                                  r.at, {})
  {
    NothingFails(1);
    hide Requests.ReceiptFor, Requests.Issue, AddPurchase;
  }

  /**
   A purchase that begins with any contents of the stores, runs alone and meets no failure has finished
   after fourteen storage steps, with the reply and the contents that buying as a whole comes to.
   */
  lemma BuysAlone(w: World, t: nat, r: Request, id: Id)
    requires PairsMark(w.m) && t !in w.threads
    ensures var begun := Apply(w, Begin(t, r));
            Ends(begun, t, Alone(begun, t, id, 14), AsAWhole(w, r, id))
  {
    hide UseRecord, AddRecord, IssueReceipt, Requests.ReceiptFor, Requests.Issue, Alone, Ends, Picked, FindPurchaseOf,
      PairsMark, Linked, AsAWhole;
    var m := w.m;
    WholeBuy(w, r, id);
    PickedIsFound(m, r);
    var w0 := Apply(w, Begin(t, r));
    MoveOn(w0, t, id, 14, Loading(m.purchases.Keys));
    var w1, found := Now(w0, t, Loading(m.purchases.Keys)), Picked(m, m.purchases.Keys, r);
    if found.Ok? {
      MoveOn(w1, t, id, 13, ReadingReceipt(found.value));
      FromRecord(Now(w1, t, ReadingReceipt(found.value)), t, id, 12);
    } else {
      MoveOn(w1, t, id, 13, ReadingPublication);
      var w2 := Now(w1, t, ReadingPublication);
      if r.publication !in m.publications {
        FinishesWith(w2, t, id, 12, Err(PublicationNotFound));
      } else if m.publications[r.publication].authorId == r.user {
        MoveOn(w2, t, id, 12, ReadingOwnReceipt(m.publications[r.publication]));
        FromOwn(Now(w2, t, ReadingOwnReceipt(m.publications[r.publication])), t, id, 11);
      } else {
        var publication := m.publications[r.publication];
        var drawing, linking := DrawingIdentifier(publication), LinkingMarker(publication, id);
        MoveOn(w2, t, id, 12, drawing);
        MoveOn(Now(w2, t, drawing), t, id, 11, linking);
        FromMarker(Now(Now(w2, t, drawing), t, linking), t, id, 10);
      }
    }
  }
}
