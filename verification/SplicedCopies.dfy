/** Attribution of a text put together from the copies of two buyers. */
module SplicedCopies {
  import opened Bytes
  import opened Errors
  import opened Utf8
  import opened CanonicalForm
  import opened MarkCodec
  import opened MarkChannel
  import opened CandidateTable
  import opened Recovery
  import opened Splicing
  import opened Crypto
  import opened StoreContents
  import opened Requests
  import opened EndToEnd
  import opened Attribution

  // ----- one failing lookup -----

  /** The step, when it is taken for the n-th time; the first time is number zero. */
  function NthTime(step: Step, n: nat): Step {
    if n == 0 then step else Again(NthTime(step, n - 1))
  }

  lemma {:induction false} FailsOnce(step: Step, n: nat, m: nat)
    requires !step.Again?
    ensures Occurrence({NthTime(step, n)}, m) == if m <= n then {NthTime(step, n - m)} else {}
  {
    if m > 0 {
      FailsOnce(step, n, m - 1);
    }
  }

  /** Only the lookup of mark number `n` fails, and nothing else does. */
  lemma OnlyLookup(n: nat, m: nat, s: State)
    ensures var faults := {NthTime(ReadPurchase, n)};
            && (LookupFails(m, faults) <==> m == n)
            && LoadMaster(s.keys, Occurrence(faults, m)) == LoadMaster(s.keys, {})
            && (forall user :: FindUser(s.metadata, user, faults) == FindUser(s.metadata, user, {}))
  {
    FailsOnce(ReadPurchase, n, m);
  }

  /** The owner of the context a mark names. */
  function OwnerOf(s: State, mark: Mark): UserId
    requires Resolves(s, mark, {})
  {
    ResolveContext(s.metadata, mark.purchaseId, {}).value.userId
  }

  /** No mark but numbers `i` and `j` matches. */
  predicate NoThirdMatch(pr: Primitives, s: State, identity: Identity, marks: seq<Mark>, i: nat, j: nat) {
    forall k: nat | k < |marks| && k != i && k != j :: !MatchesAt(pr, s, identity, marks, k, {})
  }

  lemma WithoutFaults(pr: Primitives, s: State, identity: Identity, marks: seq<Mark>, i: nat)
    requires i < |marks|
    ensures MatchesAt(pr, s, identity, marks, i, {}) == Matching(pr, s, identity, marks[i], {})
  {
    NothingFails(i);
  }

  /** Two marks that match are refused. */
  lemma TwoMatches(pr: Primitives, s: State, text: seq<byte>, i: nat, j: nat)
    requires Marks(text).Ok? && i < |Marks(text).value| && j < |Marks(text).value| && i != j
    requires var identity, marks := ContentIdentity(pr, Canonical(text)), Marks(text).value;
             Matching(pr, s, identity, marks[i], {}) && Matching(pr, s, identity, marks[j], {})
    ensures Attribute(pr, s, text, {}) == Err(MarkNotConfident)
  {
    hide Marks, Canonical, ContentIdentity, Matched, Matching;
    var identity, marks := ContentIdentity(pr, Canonical(text)), Marks(text).value;
    var low, high := if i < j then i else j, if i < j then j else i;
    WithoutFaults(pr, s, identity, marks, low);
    WithoutFaults(pr, s, identity, marks, high);
    assert Ambiguous(pr, s, identity, marks, {});
    MatchingResolves(pr, s, identity, marks[i], {});
    forall k: nat | k < |marks| ensures Occurrence({}, k) == {} {
      NothingFails(k);
    }
    assert Verifiable(s, marks, {});
    AmbiguousIsRefused(pr, s, identity, marks, {});
  }

  /** When only the lookup of mark number `j` fails, every other mark matches as it does without failures. */
  lemma OtherMatchesStay(pr: Primitives, s: State, identity: Identity, marks: seq<Mark>, j: nat, k: nat)
    requires k < |marks| && LoadMaster(s.keys, {}).Ok?
    ensures var faults := {NthTime(ReadPurchase, j)};
            && (MatchesAt(pr, s, identity, marks, k, faults) <==> MatchesAt(pr, s, identity, marks, k, {}) && k != j)
            && (k != j ==> ResolveContext(s.metadata, marks[k].purchaseId, Occurrence(faults, k))
                           == ResolveContext(s.metadata, marks[k].purchaseId, {}))
  {
    hide Matching;
    var faults := {NthTime(ReadPurchase, j)};
    OnlyLookup(j, k, s);
    WithoutFaults(pr, s, identity, marks, k);
    MatchUnderFaults(pr, s, identity, marks[k], Occurrence(faults, k));
    if k != j {
      ResolveWithout(s.metadata, marks[k].purchaseId, Occurrence(faults, k));
    }
  }

  lemma ResolveWithout(m: Metadata, context: Id, faults: Faults)
    requires ReadPurchase !in faults && ReadPublication !in faults
    ensures ResolveContext(m, context, faults) == ResolveContext(m, context, {})
  {
  }

  /**
   Of two marks that match, the owner of one is named when only the lookup of the other fails, unless
   there is a third that matches.
   */
  lemma NamedDespite(pr: Primitives, s: State, text: seq<byte>, i: nat, j: nat)
    requires Marks(text).Ok? && i < |Marks(text).value| && j < |Marks(text).value| && i != j
    requires var identity, marks := ContentIdentity(pr, Canonical(text)), Marks(text).value;
             Matching(pr, s, identity, marks[i], {}) && Matching(pr, s, identity, marks[j], {})
    requires OwnerOf(s, Marks(text).value[i]) in s.metadata.users
    ensures var identity, marks := ContentIdentity(pr, Canonical(text)), Marks(text).value;
            Names(pr, s, text, {NthTime(ReadPurchase, j)}, marks[i].purchaseId, OwnerOf(s, marks[i]))
            <==> NoThirdMatch(pr, s, identity, marks, i, j)
  {
    hide Marks, Canonical, ContentIdentity, Matched, Matching, MatchesAt, ResolveContext, Occurrence, LoadMaster,
      NthTime;
    var identity, marks, faults := ContentIdentity(pr, Canonical(text)), Marks(text).value, {NthTime(ReadPurchase, j)};
    MatchingResolves(pr, s, identity, marks[i], {});
    WithoutFaults(pr, s, identity, marks, i);
    OnlyLookup(j, j, s);
    forall k: nat | k < |marks|
      ensures MatchesAt(pr, s, identity, marks, k, faults) <==> MatchesAt(pr, s, identity, marks, k, {}) && k != j
      ensures LoadMaster(s.keys, Occurrence(faults, k)).Ok?
    {
      OtherMatchesStay(pr, s, identity, marks, j, k);
      OnlyLookup(j, k, s);
    }
    assert Verifiable(s, marks, faults);
    MatchedIff(pr, s, identity, marks, faults);
    OtherMatchesStay(pr, s, identity, marks, j, i);
    if NoThirdMatch(pr, s, identity, marks, i, j) {
      assert SoleMatch(pr, s, identity, marks, i, faults);
      ResolvedIsItself(s.metadata, marks[i].purchaseId, {});
    } else if k: nat :| k < |marks| && k != i && k != j && MatchesAt(pr, s, identity, marks, k, {}) {
      assert MatchesAt(pr, s, identity, marks, k, faults) && MatchesAt(pr, s, identity, marks, i, faults);
    }
  }

  // ----- splices -----

  /**
   A splice of two different copies of a content, with at least 272 code points of the first copy and
   407 of the second, no legacy frame in a window, and the second mark among the first sixteen sighted:
   it names nobody; but when only the lookup of the second mark fails it names the first buyer,
   unless a third mark matches.
   */
  lemma SpliceNamesNobody(pr: Primitives, s: State, text: seq<byte>, first: Mark, second: Mark, p: nat) returns (j: nat)
    requires ValidText(text) && HasNoMark(Scan(text)) && first.version == second.version == MARK_VERSION
    requires p >= RECOVERABLE_WHOLE && |Scan(text)| >= p + RECOVERABLE_EXCERPT && first != second
    requires var bits := SplicedBits(first, second, p, |Scan(text)|);
             !LegacySeen(bits) && second in FirstSeen(Votes(bits))
    requires var identity := ContentIdentity(pr, Canonical(text));
             Matching(pr, s, identity, first, {}) && Matching(pr, s, identity, second, {})
    ensures var splice := Splice(text, first, second, p);
            && Canonical(splice) == Canonical(text)
            && Attribute(pr, s, splice, {}) == Err(MarkNotConfident)
            && Marks(splice).Ok? && 0 < j < |Marks(splice).value| && Marks(splice).value[j] == second
            && (OwnerOf(s, first) in s.metadata.users ==>
                  (Names(pr, s, splice, {NthTime(ReadPurchase, j)}, first.purchaseId, OwnerOf(s, first))
                   <==> NoThirdMatch(pr, s, ContentIdentity(pr, Canonical(text)), Marks(splice).value, 0, j)))
  {
    hide Marks, Canonical, ContentIdentity, Matching, Splice, Scan, Votes, FirstSeen, LegacySeen, SplicedBits,
      Attribute, Names, NoThirdMatch, NthTime, OwnerOf;
    SpliceIsRead(text, first, second, p);
    var splice := Splice(text, first, second, p);
    var marks := Marks(splice).value;
    j :| 0 <= j < |marks| && marks[j] == second;
    TwoMatches(pr, s, splice, 0, j);
    MatchingResolves(pr, s, ContentIdentity(pr, Canonical(text)), first, {});
    if OwnerOf(s, first) in s.metadata.users {
      NamedDespite(pr, s, splice, 0, j);
    }
  }

  /** The server's mark for a granted context matches. */
  lemma GrantedMatches(pr: Primitives, s: State, identity: Identity, context: Id, user: UserId, mark: Mark)
    requires Grants(s, context, user, identity) && IsMarkFor(pr, s, identity, context, mark)
    ensures Matching(pr, s, identity, mark, {}) && mark.version == MARK_VERSION && mark.purchaseId == context
    ensures OwnerOf(s, mark) == user
  {
  }

  /** A delivery at some point of a run: what `user` got for `context`. */
  datatype Copy = Copy(
    user: UserId, context: Id, device: DeviceKey, faults: Faults, text: seq<byte>, mark: Mark)

  /** The copy was delivered in this state, and `mark` is the one that `later` computes for its context. */
  ghost predicate WasDelivered(pr: Primitives, s: State, later: State, d: Copy) {
    && Delivers(pr, s, d.user, d.context, d.device, d.faults, d.text)
    && IsMarkFor(pr, later, ContentIdentity(pr, d.text), d.context, d.mark)
  }

  lemma DeliveredMatches(pr: Primitives, w: World, later: World, d: Copy)
    requires Sound(pr, w) && Sound(pr, later) && Persists(w, later) && WasDelivered(pr, w.state, later.state, d)
    ensures CarriesMark(d.text, Canonical(d.text), d.mark) && d.mark.version == MARK_VERSION
    ensures Matching(pr, later.state, ContentIdentity(pr, Canonical(d.text)), d.mark, {})
    ensures d.mark.purchaseId == d.context && OwnerOf(later.state, d.mark) == d.user
  {
    hide Sound, Persists, Delivers, IsMarkFor, Grants, Canonical, ContentIdentity, CarriesMark, Matching, OwnerOf;
    DeliveredText(pr, w, later, d.user, d.context, d.device, d.faults, d.text, d.mark);
    GrantedMatches(pr, later.state, ContentIdentity(pr, d.text), d.context, d.user, d.mark);
  }

  lemma LongCopyIsCut(text: seq<byte>, canonical: seq<byte>, mark: Mark, p: nat)
    requires CarriesMark(text, canonical, mark) && p <= |Scan(canonical)| && |Scan(canonical)| >= MARK_BIT_COUNT
    ensures ValidText(canonical) && HasNoMark(Scan(canonical)) && Canonical(canonical) == canonical
    ensures text == Front(canonical, mark, p) + Back(canonical, mark, p)
  {
    hide Scan, Embed, Canonical, Front, Back;
    AllSignificant(Scan(canonical));
    CopyIsCut(canonical, mark, p);
  }

  /**
   Two copies of the same content, delivered for different contexts at any points of a run, are cut
   at the same code point, and the front of the first is put before the back of the second. At any
   later point the splice has the canonical form of the content and names nobody; when only the lookup
   of the second mark fails, it names the first buyer, unless a third mark matches.
   */
  lemma SplicedDeliveries(pr: Primitives, worlds: seq<World>, events: seq<Event>, i: nat, k: nat, later: nat,
                          first: Copy, second: Copy, p: nat)
    returns (j: nat)
    requires Run(pr, worlds, events) && i <= later < |worlds| && k <= later
    requires WasDelivered(pr, worlds[i].state, worlds[later].state, first)
    requires WasDelivered(pr, worlds[k].state, worlds[later].state, second)
    requires Canonical(first.text) == Canonical(second.text) && first.context != second.context
    requires p >= RECOVERABLE_WHOLE && |Scan(Canonical(first.text))| >= p + RECOVERABLE_EXCERPT
    requires var bits := SplicedBits(first.mark, second.mark, p, |Scan(Canonical(first.text))|);
             !LegacySeen(bits) && second.mark in FirstSeen(Votes(bits))
    ensures var content, s := Canonical(first.text), worlds[later].state;
            var splice := Splice(content, first.mark, second.mark, p);
            && first.text == Front(content, first.mark, p) + Back(content, first.mark, p)
            && second.text == Front(content, second.mark, p) + Back(content, second.mark, p)
            && Canonical(splice) == content && Attribute(pr, s, splice, {}) == Err(MarkNotConfident)
            && Marks(splice).Ok? && 0 < j < |Marks(splice).value| && Marks(splice).value[j] == second.mark
            && (first.user in s.metadata.users ==>
                  (Names(pr, s, splice, {NthTime(ReadPurchase, j)}, first.context, first.user)
                   <==> NoThirdMatch(pr, s, ContentIdentity(pr, content), Marks(splice).value, 0, j)))
  {
    hide Sound, Persists, WasDelivered, Run, Scan, Marks, Canonical, ContentIdentity, Matching, Splice, Front, Back,
      CarriesMark, Votes, FirstSeen, LegacySeen, SplicedBits, Attribute, Names, NoThirdMatch, NthTime, OwnerOf;
    RunsAreSound(pr, worlds, events, i);
    RunsAreSound(pr, worlds, events, k);
    RunsAreSound(pr, worlds, events, later);
    RunPersists(pr, worlds, events, i, later);
    RunPersists(pr, worlds, events, k, later);
    DeliveredMatches(pr, worlds[i], worlds[later], first);
    DeliveredMatches(pr, worlds[k], worlds[later], second);
    var content := Canonical(first.text);
    LongCopyIsCut(first.text, content, first.mark, p);
    LongCopyIsCut(second.text, content, second.mark, p);
    j := SpliceNamesNobody(pr, worlds[later].state, content, first.mark, second.mark, p);
  }
}
