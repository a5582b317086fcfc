/** Tracing a leaked text back to the access it was delivered for. */
module Attribution {
  import opened Bytes
  import opened Errors
  import opened Utf8
  import opened CanonicalForm
  import opened MarkCodec
  import opened MarkChannel
  import opened Recovery
  import opened Crypto
  import opened StoreContents
  import opened Requests
  import opened EndToEnd
  import opened Answers

  datatype Finding = Finding(
    kind: AccessKind, contextId: Id, userId: UserId, userName: Name, publicationId: Id, title: Name,
    grantedAt: Timestamp)

  predicate Resolves(s: State, mark: Mark, faults: Faults) {
    ResolveContext(s.metadata, mark.purchaseId, faults).Ok?
  }

  /** The mark carries the code the server would compute for the context it names. */
  predicate Authentic(pr: Primitives, s: State, mark: Mark, faults: Faults) {
    && Resolves(s, mark, faults)
    && var publication := ResolveContext(s.metadata, mark.purchaseId, faults).value.publication;
       VerifyMark(pr, s.keys, publication.identity, mark, faults) == Ok(true)
  }

  /** An authentic mark of a context that gives access to this very content. */
  predicate Matching(pr: Primitives, s: State, identity: Identity, mark: Mark, faults: Faults) {
    && Authentic(pr, s, mark, faults)
    && ResolveContext(s.metadata, mark.purchaseId, faults).value.publication.identity == identity
  }

  // ----- one mark after another -----

  /** What the loop over the marks knows so far, or the error it ended with. */
  datatype Progress =
    | Stopped(error: CoreError)
    | Going(matched: Option<Access>, resolutionError: CoreError, resolvedAny: bool, mismatched: bool)

  const START := Going(None, PurchaseNotFound, false, false)

  /** Looking at one more mark. A context that cannot be resolved, for whatever reason, is passed over. */
  function Examine(pr: Primitives, s: State, identity: Identity, before: Progress, mark: Mark, faults: Faults): Progress
    requires before.Going?
  {
    var access := ResolveContext(s.metadata, mark.purchaseId, faults);
    if access.Err? then before.(resolutionError := access.error)
    else
      var authentic := VerifyMark(pr, s.keys, access.value.publication.identity, mark, faults);
      if authentic.Err? then Stopped(authentic.error)
      else if !authentic.value then before.(resolvedAny := true)
      else if identity != access.value.publication.identity then before.(resolvedAny := true, mismatched := true)
      else if before.matched.Some? then Stopped(MarkNotConfident)
      else before.(resolvedAny := true, matched := Some(access.value))
  }

  /** Each mark is looked up on its own, so each lookup may fail on its own. */
  function Examined(pr: Primitives, s: State, identity: Identity, marks: seq<Mark>, faults: Faults): Progress {
    if marks == [] then START
    else
      var n := |marks| - 1;
      var front := Examined(pr, s, identity, marks[..n], faults);
      if front.Stopped? then front else Examine(pr, s, identity, front, marks[n], Occurrence(faults, n))
  }

  function Conclusion(p: Progress): Result<Access, CoreError> {
    if p.Stopped? then Err(p.error)
    else if p.matched.Some? then Ok(p.matched.value)
    else if p.mismatched then Err(ContentMismatch)
    else if p.resolvedAny then Err(MarkAuthenticationFailed)
    else Err(p.resolutionError)
  }

  /** The access a list of marks read from a text points to. */
  function Matched(pr: Primitives, s: State, identity: Identity, marks: seq<Mark>, faults: Faults)
    : Result<Access, CoreError>
  {
    Conclusion(Examined(pr, s, identity, marks, faults))
  }

  function Found(m: Metadata, access: Access, faults: Faults): Result<Finding, CoreError> {
    match FindUser(m, access.userId, faults)
    case Err(e) => Err(e)
    case Ok(name) =>
      Ok(Finding(access.kind, access.contextId, access.userId, name, access.publication.publicationId,
                 access.publication.title, access.grantedAt))
  }

  function Attribute(pr: Primitives, s: State, text: seq<byte>, faults: Faults): Result<Finding, CoreError> {
    match Marks(text)
    case Err(e) => Err(e)
    case Ok(marks) =>
      match Matched(pr, s, ContentIdentity(pr, Canonical(text)), marks, faults)
      case Err(e) => Err(e)
      case Ok(access) => Found(s.metadata, access, faults)
  }

  lemma ExaminedStep(pr: Primitives, s: State, identity: Identity, marks: seq<Mark>, k: nat, faults: Faults)
    requires k < |marks|
    ensures var before := Examined(pr, s, identity, marks[..k], faults);
            Examined(pr, s, identity, marks[..k + 1], faults)
            == if before.Stopped? then before else Examine(pr, s, identity, before, marks[k], Occurrence(faults, k))
  {
    assert marks[..k + 1][..k] == marks[..k];
  }

  lemma NothingExamined(pr: Primitives, s: State, identity: Identity, marks: seq<Mark>, faults: Faults)
    ensures Examined(pr, s, identity, marks[..0], faults) == START && Occurrence(faults, 0) == faults
    ensures forall k: nat :: Occurrence(faults, k + 1) == Later(Occurrence(faults, k))
  {
  }

  /** An error ends the loop. */
  lemma {:induction false} StopsForGood(pr: Primitives, s: State, identity: Identity, marks: seq<Mark>, k: nat,
                                        faults: Faults)
    requires k <= |marks|
    ensures Examined(pr, s, identity, marks[..k], faults).Stopped? ==>
              Examined(pr, s, identity, marks, faults) == Examined(pr, s, identity, marks[..k], faults)
  {
    if k == |marks| {
      assert marks[..k] == marks;
    } else {
      var n := |marks| - 1;
      assert marks[..n][..k] == marks[..k];
      StopsForGood(pr, s, identity, marks[..n], k, faults);
    }
  }

  // ----- what it means -----

  predicate ResolvesAt(s: State, marks: seq<Mark>, i: nat, faults: Faults)
    requires i < |marks|
  {
    Resolves(s, marks[i], Occurrence(faults, i))
  }

  predicate AuthenticAt(pr: Primitives, s: State, marks: seq<Mark>, i: nat, faults: Faults)
    requires i < |marks|
  {
    Authentic(pr, s, marks[i], Occurrence(faults, i))
  }

  predicate MatchesAt(pr: Primitives, s: State, identity: Identity, marks: seq<Mark>, i: nat, faults: Faults)
    requires i < |marks|
  {
    Matching(pr, s, identity, marks[i], Occurrence(faults, i))
  }

  /** The master key can be loaded for every mark whose context is found. */
  predicate Verifiable(s: State, marks: seq<Mark>, faults: Faults) {
    forall i: nat | i < |marks| :: ResolvesAt(s, marks, i, faults) ==> LoadMaster(s.keys, Occurrence(faults, i)).Ok?
  }

  predicate Ambiguous(pr: Primitives, s: State, identity: Identity, marks: seq<Mark>, faults: Faults) {
    exists i: nat, j: nat :: i < j < |marks|
      && MatchesAt(pr, s, identity, marks, i, faults) && MatchesAt(pr, s, identity, marks, j, faults)
  }

  /** Mark number `i`, and no other one, is matching. */
  predicate SoleMatch(pr: Primitives, s: State, identity: Identity, marks: seq<Mark>, i: nat, faults: Faults) {
    && i < |marks| && MatchesAt(pr, s, identity, marks, i, faults)
    && forall j: nat | j < |marks| && j != i :: !MatchesAt(pr, s, identity, marks, j, faults)
  }

  predicate AnyResolves(s: State, marks: seq<Mark>, faults: Faults) {
    exists i: nat :: i < |marks| && ResolvesAt(s, marks, i, faults)
  }

  predicate AnyMismatches(pr: Primitives, s: State, identity: Identity, marks: seq<Mark>, faults: Faults) {
    exists i: nat :: i < |marks| && MismatchesAt(pr, s, identity, marks, i, faults)
  }

  predicate AnyMatches(pr: Primitives, s: State, identity: Identity, marks: seq<Mark>, faults: Faults) {
    exists i: nat :: i < |marks| && MatchesAt(pr, s, identity, marks, i, faults)
  }

  predicate SoleAccess(pr: Primitives, s: State, identity: Identity, marks: seq<Mark>, i: nat, faults: Faults,
                       access: Access) {
    && SoleMatch(pr, s, identity, marks, i, faults)
    && ResolveContext(s.metadata, marks[i].purchaseId, Occurrence(faults, i)) == Ok(access)
  }

  predicate MismatchesAt(pr: Primitives, s: State, identity: Identity, marks: seq<Mark>, i: nat, faults: Faults)
    requires i < |marks|
  {
    AuthenticAt(pr, s, marks, i, faults) && !MatchesAt(pr, s, identity, marks, i, faults)
  }

  /** The context of the mark is found but the master key cannot be loaded. */
  predicate FailsAt(s: State, marks: seq<Mark>, i: nat, faults: Faults, e: CoreError)
    requires i < |marks|
  {
    ResolvesAt(s, marks, i, faults) && LoadMaster(s.keys, Occurrence(faults, i)) == Err(e)
  }

  predicate AnyFails(s: State, marks: seq<Mark>, faults: Faults, e: CoreError) {
    exists i: nat :: i < |marks| && FailsAt(s, marks, i, faults, e)
  }

  /** What the progress says about the marks looked at. */
  ghost predicate Tells(pr: Primitives, s: State, identity: Identity, marks: seq<Mark>, faults: Faults, p: Progress) {
    if p.Stopped? then
      || (p.error == MarkNotConfident && Ambiguous(pr, s, identity, marks, faults))
      || AnyFails(s, marks, faults, p.error)
    else
      && Verifiable(s, marks, faults) && !Ambiguous(pr, s, identity, marks, faults)
      && p.resolvedAny == AnyResolves(s, marks, faults) && p.mismatched == AnyMismatches(pr, s, identity, marks, faults)
      && p.matched.Some? == AnyMatches(pr, s, identity, marks, faults)
      && (p.matched.Some? ==> exists i: nat :: SoleAccess(pr, s, identity, marks, i, faults, p.matched.value))
      && (!p.resolvedAny ==> p.resolutionError == LastError(s, marks, faults))
  }

  /** Why the last mark's context was not found. */
  function LastError(s: State, marks: seq<Mark>, faults: Faults): CoreError {
    if marks == [] then PurchaseNotFound
    else
      var n := |marks| - 1;
      var access := ResolveContext(s.metadata, marks[n].purchaseId, Occurrence(faults, n));
      if access.Err? then access.error else PurchaseNotFound
  }

  /** What holds of a mark does not depend on the marks after it. */
  lemma AtFront(pr: Primitives, s: State, identity: Identity, marks: seq<Mark>, n: nat, i: nat, faults: Faults)
    requires i < n <= |marks|
    ensures ResolvesAt(s, marks[..n], i, faults) == ResolvesAt(s, marks, i, faults)
    ensures AuthenticAt(pr, s, marks[..n], i, faults) == AuthenticAt(pr, s, marks, i, faults)
    ensures MatchesAt(pr, s, identity, marks[..n], i, faults) == MatchesAt(pr, s, identity, marks, i, faults)
  {
    hide Resolves, Authentic, Matching, Occurrence;
    assert marks[..n][i] == marks[i];
  }

  lemma AnyAtFront(pr: Primitives, s: State, identity: Identity, marks: seq<Mark>, faults: Faults)
    requires marks != []
    ensures var n: nat := |marks| - 1;
            var front := marks[..n];
            && AnyResolves(s, marks, faults) == (AnyResolves(s, front, faults) || ResolvesAt(s, marks, n, faults))
            && AnyMismatches(pr, s, identity, marks, faults)
                 == (AnyMismatches(pr, s, identity, front, faults) || MismatchesAt(pr, s, identity, marks, n, faults))
            && AnyMatches(pr, s, identity, marks, faults)
                 == (AnyMatches(pr, s, identity, front, faults) || MatchesAt(pr, s, identity, marks, n, faults))
  {
    hide ResolvesAt, AuthenticAt, MatchesAt;
    var n: nat := |marks| - 1;
    var front := marks[..n];
    forall i: nat | i < n
      ensures ResolvesAt(s, front, i, faults) == ResolvesAt(s, marks, i, faults)
        && MismatchesAt(pr, s, identity, front, i, faults) == MismatchesAt(pr, s, identity, marks, i, faults)
        && MatchesAt(pr, s, identity, front, i, faults) == MatchesAt(pr, s, identity, marks, i, faults)
    {
      AtFront(pr, s, identity, marks, n, i, faults);
    }
    assert forall i: nat | i < n :: ResolvesAt(s, marks, i, faults) ==> ResolvesAt(s, front, i, faults);
    assert forall i: nat | i < n :: MismatchesAt(pr, s, identity, marks, i, faults) ==>
      MismatchesAt(pr, s, identity, front, i, faults);
    assert forall i: nat | i < n :: MatchesAt(pr, s, identity, marks, i, faults) ==>
      MatchesAt(pr, s, identity, front, i, faults);
  }

  lemma AllAtFront(pr: Primitives, s: State, identity: Identity, marks: seq<Mark>, faults: Faults)
    requires marks != []
    ensures var n: nat := |marks| - 1;
            var front := marks[..n];
            && Verifiable(s, marks, faults)
                 == (Verifiable(s, front, faults)
                     && (ResolvesAt(s, marks, n, faults) ==> LoadMaster(s.keys, Occurrence(faults, n)).Ok?))
            && Ambiguous(pr, s, identity, marks, faults)
                 == (Ambiguous(pr, s, identity, front, faults)
                     || (MatchesAt(pr, s, identity, marks, n, faults) && AnyMatches(pr, s, identity, front, faults)))
  {
    hide ResolvesAt, AuthenticAt, MatchesAt, LoadMaster, Occurrence;
    var n: nat := |marks| - 1;
    var front := marks[..n];
    forall i: nat | i < n
      ensures ResolvesAt(s, front, i, faults) == ResolvesAt(s, marks, i, faults)
        && MatchesAt(pr, s, identity, front, i, faults) == MatchesAt(pr, s, identity, marks, i, faults)
    {
      AtFront(pr, s, identity, marks, n, i, faults);
    }
    assert forall i: nat | i < n :: ResolvesAt(s, front, i, faults) ==> ResolvesAt(s, marks, i, faults);
    assert forall i: nat | i < n :: MatchesAt(pr, s, identity, front, i, faults) ==>
      MatchesAt(pr, s, identity, marks, i, faults);
    assert forall i: nat | i < n :: MatchesAt(pr, s, identity, marks, i, faults) ==>
      MatchesAt(pr, s, identity, front, i, faults);
  }

  lemma SoleAtFront(pr: Primitives, s: State, identity: Identity, marks: seq<Mark>, i: nat, faults: Faults,
                    access: Access)
    requires marks != [] && SoleAccess(pr, s, identity, marks[..|marks| - 1], i, faults, access)
    requires !MatchesAt(pr, s, identity, marks, |marks| - 1, faults)
    ensures SoleAccess(pr, s, identity, marks, i, faults, access)
  {
    hide MatchesAt, Occurrence;
    var n: nat := |marks| - 1;
    forall j: nat | j < n
      ensures MatchesAt(pr, s, identity, marks[..n], j, faults) == MatchesAt(pr, s, identity, marks, j, faults)
    {
      AtFront(pr, s, identity, marks, n, j, faults);
    }
    assert forall j: nat | j < n && j != i :: !MatchesAt(pr, s, identity, marks[..n], j, faults);
  }

  lemma FirstIsSole(pr: Primitives, s: State, identity: Identity, marks: seq<Mark>, faults: Faults)
    requires marks != [] && !AnyMatches(pr, s, identity, marks[..|marks| - 1], faults)
    requires MatchesAt(pr, s, identity, marks, |marks| - 1, faults)
    ensures SoleMatch(pr, s, identity, marks, |marks| - 1, faults)
  {
    hide MatchesAt;
    var n: nat := |marks| - 1;
    forall j: nat | j < n ensures !MatchesAt(pr, s, identity, marks, j, faults) {
      AtFront(pr, s, identity, marks, n, j, faults);
    }
  }

  lemma FailureStays(pr: Primitives, s: State, identity: Identity, marks: seq<Mark>, faults: Faults, e: CoreError)
    requires marks != [] && AnyFails(s, marks[..|marks| - 1], faults, e)
    ensures AnyFails(s, marks, faults, e)
  {
    hide ResolvesAt, LoadMaster, Occurrence;
    var n: nat := |marks| - 1;
    var i: nat :| i < |marks[..n]| && FailsAt(s, marks[..n], i, faults, e);
    AtFront(pr, s, identity, marks, n, i, faults);
    assert FailsAt(s, marks, i, faults, e);
  }

  lemma StoppedTells(pr: Primitives, s: State, identity: Identity, marks: seq<Mark>, faults: Faults, p: Progress)
    requires marks != [] && p.Stopped? && Tells(pr, s, identity, marks[..|marks| - 1], faults, p)
    ensures Tells(pr, s, identity, marks, faults, p)
  {
    hide ResolvesAt, AuthenticAt, MatchesAt, Occurrence, LoadMaster, Ambiguous, AnyFails;
    AllAtFront(pr, s, identity, marks, faults);
    if AnyFails(s, marks[..|marks| - 1], faults, p.error) {
      FailureStays(pr, s, identity, marks, faults, p.error);
    }
  }

  /** A mark that does not match leaves what matched as it was. */
  lemma PassedOver(pr: Primitives, s: State, identity: Identity, marks: seq<Mark>, faults: Faults, before: Progress,
                   after: Progress)
    requires marks != [] && before.Going? && after.Going? && after.matched == before.matched
    requires Tells(pr, s, identity, marks[..|marks| - 1], faults, before)
    requires var n: nat := |marks| - 1;
             && !MatchesAt(pr, s, identity, marks, n, faults)
             && (ResolvesAt(s, marks, n, faults) ==> LoadMaster(s.keys, Occurrence(faults, n)).Ok?)
             && after.resolvedAny == (before.resolvedAny || ResolvesAt(s, marks, n, faults))
             && after.mismatched == (before.mismatched || AuthenticAt(pr, s, marks, n, faults))
             && (!after.resolvedAny ==> after.resolutionError == LastError(s, marks, faults))
    ensures Tells(pr, s, identity, marks, faults, after)
  {
    hide ResolvesAt, AuthenticAt, MatchesAt, Occurrence, LoadMaster, LastError, Ambiguous, Verifiable, AnyResolves,
      AnyMismatches, AnyMatches, SoleAccess;
    AllAtFront(pr, s, identity, marks, faults);
    AnyAtFront(pr, s, identity, marks, faults);
    if after.matched.Some? {
      var i: nat :| SoleAccess(pr, s, identity, marks[..|marks| - 1], i, faults, after.matched.value);
      SoleAtFront(pr, s, identity, marks, i, faults, after.matched.value);
    }
  }

  lemma FirstMatch(pr: Primitives, s: State, identity: Identity, marks: seq<Mark>, faults: Faults, before: Progress,
                   after: Progress)
    requires marks != [] && before.Going? && before.matched.None? && after.Going? && after.matched.Some?
    requires Tells(pr, s, identity, marks[..|marks| - 1], faults, before)
    requires var n: nat := |marks| - 1;
             && MatchesAt(pr, s, identity, marks, n, faults) && LoadMaster(s.keys, Occurrence(faults, n)).Ok?
             && ResolvesAt(s, marks, n, faults)
             && ResolveContext(s.metadata, marks[n].purchaseId, Occurrence(faults, n)) == Ok(after.matched.value)
    requires after.resolvedAny && after.mismatched == before.mismatched
    ensures Tells(pr, s, identity, marks, faults, after)
  {
    hide ResolvesAt, AuthenticAt, MatchesAt, Occurrence, LoadMaster, LastError, ResolveContext, Ambiguous, Verifiable,
      AnyResolves, AnyMismatches, AnyMatches, SoleMatch;
    AllAtFront(pr, s, identity, marks, faults);
    AnyAtFront(pr, s, identity, marks, faults);
    FirstIsSole(pr, s, identity, marks, faults);
    assert SoleAccess(pr, s, identity, marks, |marks| - 1, faults, after.matched.value);
  }

  lemma SecondMatch(pr: Primitives, s: State, identity: Identity, marks: seq<Mark>, faults: Faults, before: Progress)
    requires marks != [] && before.Going? && before.matched.Some?
    requires Tells(pr, s, identity, marks[..|marks| - 1], faults, before)
    requires MatchesAt(pr, s, identity, marks, |marks| - 1, faults)
    ensures Tells(pr, s, identity, marks, faults, Stopped(MarkNotConfident))
  {
    hide ResolvesAt, AuthenticAt, MatchesAt, Occurrence, LoadMaster, LastError, Ambiguous, Verifiable, AnyResolves,
      AnyMismatches, AnyMatches, SoleAccess;
    AllAtFront(pr, s, identity, marks, faults);
  }

  /** What the last mark adds to the progress, in terms of what holds of it. */
  lemma ExamineCases(pr: Primitives, s: State, identity: Identity, before: Progress, mark: Mark, faults: Faults)
    requires before.Going?
    ensures var after := Examine(pr, s, identity, before, mark, faults);
            if Resolves(s, mark, faults) && LoadMaster(s.keys, faults).Err? then
              after == Stopped(LoadMaster(s.keys, faults).error)
            else if !Matching(pr, s, identity, mark, faults) then
              && after.Going? && after.matched == before.matched
              && after.resolvedAny == (before.resolvedAny || Resolves(s, mark, faults))
              && after.mismatched == (before.mismatched || Authentic(pr, s, mark, faults))
              && (!Resolves(s, mark, faults) ==>
                    ResolveContext(s.metadata, mark.purchaseId, faults) == Err(after.resolutionError))
            else
              && Resolves(s, mark, faults) && LoadMaster(s.keys, faults).Ok?
              && if before.matched.Some? then after == Stopped(MarkNotConfident)
                 else
                   && after.Going? && after.resolvedAny && after.mismatched == before.mismatched && after.matched.Some?
                   && ResolveContext(s.metadata, mark.purchaseId, faults) == Ok(after.matched.value)
  {
    hide ResolveContext;
  }

  lemma {:induction false} ExaminedTells(pr: Primitives, s: State, identity: Identity, marks: seq<Mark>, faults: Faults)
    ensures Tells(pr, s, identity, marks, faults, Examined(pr, s, identity, marks, faults))
  {
    if marks != [] {
      hide Tells, Examine, Resolves, Authentic, Matching, LoadMaster, ResolveContext, Occurrence;
      var n: nat := |marks| - 1;
      var now := Occurrence(faults, n);
      var before := Examined(pr, s, identity, marks[..n], faults);
      ExaminedTells(pr, s, identity, marks[..n], faults);
      if before.Stopped? {
        StoppedTells(pr, s, identity, marks, faults, before);
      } else {
        var after := Examine(pr, s, identity, before, marks[n], now);
        ExamineCases(pr, s, identity, before, marks[n], now);
        if Resolves(s, marks[n], now) && LoadMaster(s.keys, now).Err? {
          MasterFails(pr, s, identity, marks, n, faults);
        } else if !Matching(pr, s, identity, marks[n], now) {
          PassedOver(pr, s, identity, marks, faults, before, after);
        } else if before.matched.Some? {
          SecondMatch(pr, s, identity, marks, faults, before);
        } else {
          FirstMatch(pr, s, identity, marks, faults, before, after);
        }
      }
    }
  }

  lemma MasterFails(pr: Primitives, s: State, identity: Identity, marks: seq<Mark>, k: nat, faults: Faults)
    requires k < |marks| && ResolvesAt(s, marks, k, faults) && LoadMaster(s.keys, Occurrence(faults, k)).Err?
    ensures Tells(pr, s, identity, marks, faults, Stopped(LoadMaster(s.keys, Occurrence(faults, k)).error))
  {
    assert FailsAt(s, marks, k, faults, LoadMaster(s.keys, Occurrence(faults, k)).error);
  }

  lemma MatchingResolves(pr: Primitives, s: State, identity: Identity, mark: Mark, faults: Faults)
    requires Matching(pr, s, identity, mark, faults)
    ensures Resolves(s, mark, faults) && Authentic(pr, s, mark, faults) && LoadMaster(s.keys, faults).Ok?
  {
  }

  /**
   Somebody is named if and only if the master key could be loaded for every mark whose context was
   found and exactly one mark, looked up as it was, is authentic for a context of this content.
   */
  lemma MatchedIff(pr: Primitives, s: State, identity: Identity, marks: seq<Mark>, faults: Faults)
    ensures Matched(pr, s, identity, marks, faults).Ok?
            <==> Verifiable(s, marks, faults) && exists i: nat :: SoleMatch(pr, s, identity, marks, i, faults)
    ensures forall i: nat | Verifiable(s, marks, faults) && SoleMatch(pr, s, identity, marks, i, faults) ::
              Matched(pr, s, identity, marks, faults)
              == ResolveContext(s.metadata, marks[i].purchaseId, Occurrence(faults, i))
  {
    hide Examined, MatchesAt, ResolvesAt, AuthenticAt, Occurrence, LoadMaster, ResolveContext, LastError;
    ExaminedTells(pr, s, identity, marks, faults);
  }

  /** When nobody matches and every lookup of the master key succeeds, the error tells how close it came. */
  lemma MatchedError(pr: Primitives, s: State, identity: Identity, marks: seq<Mark>, faults: Faults)
    requires Verifiable(s, marks, faults)
    requires forall i: nat | i < |marks| :: !MatchesAt(pr, s, identity, marks, i, faults)
    ensures Matched(pr, s, identity, marks, faults) ==
            if exists i: nat :: i < |marks| && AuthenticAt(pr, s, marks, i, faults) then Err(ContentMismatch)
            else if AnyResolves(s, marks, faults) then Err(MarkAuthenticationFailed)
            else Err(LastError(s, marks, faults))
  {
    hide Examined, MatchesAt, ResolvesAt, AuthenticAt, Occurrence, LoadMaster, ResolveContext, LastError, AnyResolves;
    ExaminedTells(pr, s, identity, marks, faults);
    if i: nat :| i < |marks| && AuthenticAt(pr, s, marks, i, faults) {
      assert MismatchesAt(pr, s, identity, marks, i, faults);
    }
  }

  /** Attribution of `text` names the owner `user` of `context`. */
  predicate Names(pr: Primitives, s: State, text: seq<byte>, faults: Faults, context: Id, user: UserId) {
    var found := Attribute(pr, s, text, faults);
    found.Ok? && found.value.contextId == context && found.value.userId == user
  }

  /** Mark number `i` is the only one that matches, and it names this context of this user. */
  predicate PointsAt(pr: Primitives, s: State, identity: Identity, marks: seq<Mark>, i: nat, faults: Faults,
                     context: Id, user: UserId)
  {
    && SoleMatch(pr, s, identity, marks, i, faults) && marks[i].purchaseId == context
    && ResolveContext(s.metadata, context, Occurrence(faults, i)).Ok?
    && ResolveContext(s.metadata, context, Occurrence(faults, i)).value.userId == user
  }

  lemma ResolvedIsItself(m: Metadata, context: Id, faults: Faults)
    ensures ResolveContext(m, context, faults).Ok? ==> ResolveContext(m, context, faults).value.contextId == context
  {
  }

  /**
   Attribution names a context and user if and only if the master key could be loaded for every mark
   whose context was found, one and only one mark read from the text is authentic for a context of
   this very content, that mark names the context, and the owner of the context is the user and known.
   */
  lemma AttributedIff(pr: Primitives, s: State, text: seq<byte>, context: Id, user: UserId, faults: Faults)
    ensures Names(pr, s, text, faults, context, user) <==>
              && Marks(text).Ok? && FindUser(s.metadata, user, faults).Ok?
              && Verifiable(s, Marks(text).value, faults)
              && exists i: nat ::
                PointsAt(pr, s, ContentIdentity(pr, Canonical(text)), Marks(text).value, i, faults, context, user)
    ensures Filed(s.metadata) && Names(pr, s, text, faults, context, user) ==>
              && IsContext(s.metadata, context) && OwnerOf(s.metadata, context) == user && user in s.metadata.users
              && Attribute(pr, s, text, faults) == Ok(FindingFor(s.metadata, context))
  {
    if Filed(s.metadata) && Names(pr, s, text, faults, context, user) {
      AttributedFinding(pr, s, text, faults);
    }
    hide Marks, Canonical, ContentIdentity, FindUser, Matched, MatchesAt, ResolveContext, Verifiable, Occurrence;
    if Marks(text).Ok? {
      var identity, marks := ContentIdentity(pr, Canonical(text)), Marks(text).value;
      MatchedIff(pr, s, identity, marks, faults);
      forall i: nat | SoleMatch(pr, s, identity, marks, i, faults)
        ensures ResolveContext(s.metadata, marks[i].purchaseId, Occurrence(faults, i)).Ok?
          && ResolveContext(s.metadata, marks[i].purchaseId, Occurrence(faults, i)).value.contextId
             == marks[i].purchaseId
      {
        MatchingAt(pr, s, identity, marks, i, faults);
        ResolvedIsItself(s.metadata, marks[i].purchaseId, Occurrence(faults, i));
      }
      if Names(pr, s, text, faults, context, user) {
        var i: nat :| SoleMatch(pr, s, identity, marks, i, faults);
        assert PointsAt(pr, s, identity, marks, i, faults, context, user);
      }
    }
  }

  /** Purchases are of recorded publications, and each publication is filed under its own identifier. */
  ghost predicate Filed(m: Metadata) {
    PurchasesSound(m) && forall id | id in m.publications :: m.publications[id].publicationId == id
  }

  /**
   What is found out about a context, on the stores: whether it is a purchase or the author's own, whose it
   is and under which name that user is registered, of which publication, and since when.
   */
  function FindingFor(m: Metadata, context: Id): Finding
    requires IsContext(m, context) && OwnerOf(m, context) in m.users
  {
    var publication := PublicationOf(m, context);
    Finding(if context in m.purchases then PurchaseAccess else AuthorAccess, context, OwnerOf(m, context),
            m.users[OwnerOf(m, context)], publication, m.publications[publication].title, GrantedAt(m, context))
  }

  lemma FoundIsFinding(m: Metadata, access: Access, faults: Faults)
    requires Filed(m) && IsAccess(m, access.contextId, access)
    ensures Found(m, access, faults) ==
            if ReadUser in faults then Err(StorageFailed)
            else if access.userId !in m.users then Err(UserNotFound)
            else Ok(FindingFor(m, access.contextId))
    ensures IsContext(m, access.contextId) && (Found(m, access, faults).Ok? ==> OwnerOf(m, access.contextId) in m.users)
  {
    hide PurchasesSound;
  }

  /** Whatever is answered is, in every field, what the stores say of the context named. */
  lemma AttributedFinding(pr: Primitives, s: State, text: seq<byte>, faults: Faults)
    requires Filed(s.metadata) && Attribute(pr, s, text, faults).Ok?
    ensures var m, finding := s.metadata, Attribute(pr, s, text, faults).value;
            && IsContext(m, finding.contextId) && OwnerOf(m, finding.contextId) in m.users
            && finding == FindingFor(m, finding.contextId)
  {
    hide Marks, Canonical, ContentIdentity, Found, Matched, MatchesAt, ResolveContext, Verifiable, Occurrence, Filed,
      FindingFor, IsAccess;
    var identity, marks := ContentIdentity(pr, Canonical(text)), Marks(text).value;
    MatchedIff(pr, s, identity, marks, faults);
    var i: nat :| SoleMatch(pr, s, identity, marks, i, faults);
    MatchingAt(pr, s, identity, marks, i, faults);
    var access := Matched(pr, s, identity, marks, faults).value;
    ContextFiled(s.metadata, marks[i].purchaseId, Occurrence(faults, i));
    ResolvedIsItself(s.metadata, marks[i].purchaseId, Occurrence(faults, i));
    FoundIsFinding(s.metadata, access, faults);
    FindingContext(s.metadata, access.contextId);
  }

  lemma ContextFiled(m: Metadata, context: Id, faults: Faults)
    requires Filed(m) && ResolveContext(m, context, faults).Ok?
    ensures IsAccess(m, context, ResolveContext(m, context, faults).value)
  {
    ContextAnswers(m, context, faults);
    hide ResolveContext;
  }

  lemma FindingContext(m: Metadata, context: Id)
    ensures IsContext(m, context) && OwnerOf(m, context) in m.users ==> FindingFor(m, context).contextId == context
  {
  }

  lemma MatchingAt(pr: Primitives, s: State, identity: Identity, marks: seq<Mark>, i: nat, faults: Faults)
    requires i < |marks| && MatchesAt(pr, s, identity, marks, i, faults)
    ensures ResolvesAt(s, marks, i, faults) && LoadMaster(s.keys, Occurrence(faults, i)).Ok?
    ensures ResolveContext(s.metadata, marks[i].purchaseId, Occurrence(faults, i)).Ok?
  {
    hide Occurrence;
    MatchingResolves(pr, s, identity, marks[i], Occurrence(faults, i));
  }

  /**
   When a mark matches, on the stores: the master key is there, the mark names a recorded context of this
   very content, and its code is the one computed under the mark key for this content, context and version.
   */
  lemma MatchingMeans(pr: Primitives, s: State, identity: Identity, mark: Mark)
    requires PurchasesSound(s.metadata)
    ensures var m, context := s.metadata, mark.purchaseId;
            Matching(pr, s, identity, mark, {}) <==>
              && s.keys.master.Some? && IsContext(m, context)
              && m.publications[PublicationOf(m, context)].identity == identity
              && mark.code == pr.mac(pr.markKeyOf(s.keys.master.value), identity, context, mark.version)
  {
    ContextAnswers(s.metadata, mark.purchaseId, {});
    hide PurchasesSound, ResolveContext;
  }

  // ----- what failing lookups change -----

  /** Looking up the context of mark number `i` fails. */
  predicate LookupFails(i: nat, faults: Faults) {
    ReadPurchase in Occurrence(faults, i) || ReadPublication in Occurrence(faults, i)
  }

  /**
   A mark that matches does so without failures too; one that matches without failures is lost exactly with
   its lookup.
   */
  lemma MatchUnderFaults(pr: Primitives, s: State, identity: Identity, mark: Mark, faults: Faults)
    requires Resolves(s, mark, faults) ==> LoadMaster(s.keys, faults).Ok?
    ensures Matching(pr, s, identity, mark, faults) <==>
              Matching(pr, s, identity, mark, {}) && ReadPurchase !in faults && ReadPublication !in faults
    ensures Resolves(s, mark, faults) ==> ResolveContext(s.metadata, mark.purchaseId, faults)
                                          == ResolveContext(s.metadata, mark.purchaseId, {})
  {
  }

  lemma MasterWithoutFaults(k: Keys, faults: Faults)
    ensures LoadMaster(k, faults).Ok? ==> LoadMaster(k, {}) == LoadMaster(k, faults)
  {
  }

  /**
   When failures leave a name, it is the name given without failures, or two marks match without
   failures and nobody is named. The latter if and only if another matching mark went unnoticed
   because its lookup failed.
   */
  lemma NamedUnderFaults(pr: Primitives, s: State, identity: Identity, marks: seq<Mark>, faults: Faults)
    requires Matched(pr, s, identity, marks, faults).Ok?
    ensures var clean := Matched(pr, s, identity, marks, {});
            if exists j: nat :: j < |marks| && MatchesAt(pr, s, identity, marks, j, {}) && LookupFails(j, faults)
            then clean == Err(MarkNotConfident) else clean == Matched(pr, s, identity, marks, faults)
  {
    hide Matched, Matching, ResolveContext, LoadMaster;
    MatchedIff(pr, s, identity, marks, faults);
    var i: nat :| SoleMatch(pr, s, identity, marks, i, faults);
    MatchingAt(pr, s, identity, marks, i, faults);
    MasterWithoutFaults(s.keys, Occurrence(faults, i));
    forall j: nat | j < |marks|
      ensures MatchesAt(pr, s, identity, marks, j, faults) <==>
              MatchesAt(pr, s, identity, marks, j, {}) && !LookupFails(j, faults)
      ensures Occurrence({}, j) == {}
    {
      NothingFails(j);
      MatchUnderFaults(pr, s, identity, marks[j], Occurrence(faults, j));
    }
    assert Verifiable(s, marks, {});
    MatchUnderFaults(pr, s, identity, marks[i], Occurrence(faults, i));
    if j: nat :| j < |marks| && MatchesAt(pr, s, identity, marks, j, {}) && LookupFails(j, faults) {
      var low, high := if i < j then i else j, if i < j then j else i;
      assert low < high && MatchesAt(pr, s, identity, marks, low, {}) && MatchesAt(pr, s, identity, marks, high, {});
      assert Ambiguous(pr, s, identity, marks, {});
      AmbiguousIsRefused(pr, s, identity, marks, {});
    } else {
      assert SoleMatch(pr, s, identity, marks, i, {});
      MatchedIff(pr, s, identity, marks, {});
    }
  }

  lemma AmbiguousIsRefused(pr: Primitives, s: State, identity: Identity, marks: seq<Mark>, faults: Faults)
    requires Verifiable(s, marks, faults) && Ambiguous(pr, s, identity, marks, faults)
    ensures Matched(pr, s, identity, marks, faults) == Err(MarkNotConfident)
  {
    hide Examined, MatchesAt, ResolvesAt, AuthenticAt, Occurrence, LoadMaster, LastError, SoleAccess;
    ExaminedTells(pr, s, identity, marks, faults);
  }

  // ----- copies that were delivered -----

  /**
   `later` has every record, context and user of `w`; its master key, if any, is that of `w` once there are
   file keys.
   */
  ghost predicate Persists(w: World, later: World) {
    && (forall id | id in w.state.metadata.publications ::
          && id in later.state.metadata.publications
          && later.state.metadata.publications[id] == w.state.metadata.publications[id])
    && (forall id | id in w.state.metadata.purchases ::
          id in later.state.metadata.purchases && later.state.metadata.purchases[id] == w.state.metadata.purchases[id])
    && KeysGrow(w.state.keys, later.state.keys)
    && (w.state.keys.fileKeys != map[] ==>
          later.state.keys.master == w.state.keys.master || later.state.keys.master.None?)
  }

  lemma IssueMetadata(s: State, context: Id, user: UserId, publication: PublicationRecord, grantedAt: Timestamp,
                      device: DeviceKey, issuedAt: Timestamp, faults: Faults)
    ensures var after := Issue(s, context, user, publication, grantedAt, device, issuedAt, faults).0;
            after.metadata.publications == s.metadata.publications && after.metadata.purchases == s.metadata.purchases
  {
  }

  lemma ReceiptForMetadata(s: State, purchase: PurchaseRecord, device: DeviceKey, issuedAt: Timestamp, faults: Faults)
    ensures var after := ReceiptFor(s, purchase, device, issuedAt, faults).0;
            after.metadata.publications == s.metadata.publications && after.metadata.purchases == s.metadata.purchases
  {
    hide Issue;
    var publication := FindPublication(s.metadata, purchase.publicationId, faults);
    if publication.Ok? {
      IssueMetadata(s, purchase.purchaseId, purchase.userId, publication.value, purchase.purchasedAt, device,
                    issuedAt, faults);
    }
  }

  lemma AddedMetadata(m: Metadata, record: PurchaseRecord, faults: Faults)
    ensures var after := AddPurchase(m, record, faults).0;
            && after.publications == m.publications
            && (forall i | i in m.purchases :: i in after.purchases && after.purchases[i] == m.purchases[i])
  {
  }

  lemma BuyMetadata(s: State, user: UserId, id: Id, device: DeviceKey, at: Timestamp, identifier: Id, faults: Faults)
    ensures var after := Buy(s, user, id, device, at, identifier, faults).0;
            && after.metadata.publications == s.metadata.publications
            && (forall i | i in s.metadata.purchases ::
                  i in after.metadata.purchases && after.metadata.purchases[i] == s.metadata.purchases[i])
  {
    hide Issue, ReceiptFor, AddPurchase, FindPurchaseOf;
    var (m, added) := AddPurchase(s.metadata, PurchaseRecord(identifier, user, id, at), faults);
    AddedMetadata(s.metadata, PurchaseRecord(identifier, user, id, at), faults);
    var after := s.(metadata := m);
    var existing := FindPurchaseOf(s.metadata, user, id, faults);
    var concurrent := FindPurchaseOf(m, user, id, Later(faults));
    var publication := FindPublication(s.metadata, id, faults);
    if existing.Ok? {
      ReceiptForMetadata(s, existing.value, device, at, faults);
    } else if publication.Ok? {
      if concurrent.Ok? {
        ReceiptForMetadata(after, concurrent.value, device, at, Later(faults));
      }
      IssueMetadata(s, id, user, publication.value, publication.value.publishedAt, device, at, faults);
      IssueMetadata(after, identifier, user, publication.value, at, device, at, faults);
    }
  }

  lemma PublishMetadata(pr: Primitives, s: State, e: Event)
    requires e.Publication? && e.identifier !in s.metadata.publications
    ensures var after := Publish(pr, s, e.author, e.draft, e.authorKey, e.signature, e.at, e.identifier, e.faults).0;
            && after.metadata.purchases == s.metadata.purchases
            && (forall i | i in s.metadata.publications ::
                  i in after.metadata.publications && after.metadata.publications[i] == s.metadata.publications[i])
  {
    hide ValidText, Canonical, ContentIdentity, ObtainFileKey;
  }

  lemma StepPersists(pr: Primitives, w: World, e: Event)
    requires Sound(pr, w) && Enabled(w, e)
    ensures Persists(w, Apply(pr, w, e))
  {
    hide PublicationsSound, ReceiptsSound, PurchasesSound, Issue, Publish, Buy, Fetch;
    match e
    case Publication(author, draft, authorKey, signature, at, identifier, faults) =>
      PublishMetadata(pr, w.state, e);
      if w.state.keys.fileKeys != map[] {
        PublishKeepsMaster(pr, w.state, e);
      }
    case Purchase(user, id, device, at, identifier, faults) =>
      BuyWritesNoKey(w.state, user, id, device, at, identifier, faults);
      BuyMetadata(w.state, user, id, device, at, identifier, faults);
    case Restoration(user, context, device, at, faults) =>
      var access := ResolveAccess(w.state.metadata, user, context, faults);
      if access.Ok? {
        IssueWritesNoKey(w.state, context, user, access.value.publication, access.value.grantedAt, device, at, faults);
        IssueMetadata(w.state, context, user, access.value.publication, access.value.grantedAt, device, at, faults);
      }
    case Delivery(user, context, device, faults) => FetchChangesNothing(pr, w.state, user, context, device, faults);
    case Registration(_, _) =>
    case MasterKeyDeleted =>
  }

  lemma PersistsSelf(w: World)
    ensures Persists(w, w)
  {
  }

  lemma PersistsOn(a: World, b: World, c: World)
    requires Persists(a, b) && Persists(b, c)
    ensures Persists(a, c)
  {
  }

  lemma {:induction false} RunPersists(pr: Primitives, worlds: seq<World>, events: seq<Event>, i: nat, j: nat)
    requires Run(pr, worlds, events) && i <= j < |worlds|
    ensures Persists(worlds[i], worlds[j])
  {
    hide Sound, Enabled, Apply, Persists;
    if i == j {
      PersistsSelf(worlds[i]);
    } else {
      RunPersists(pr, worlds, events, i, j - 1);
      RunsAreSound(pr, worlds, events, j - 1);
      StepPersists(pr, worlds[j - 1], events[j - 1]);
      PersistsOn(worlds[i], worlds[j - 1], worlds[j]);
    }
  }

  lemma PersistentContext(pr: Primitives, w: World, later: World, context: Id)
    requires Sound(pr, w) && PurchasesSound(later.state.metadata) && Persists(w, later)
             && IsContext(w.state.metadata, context)
    ensures ResolveContext(later.state.metadata, context, {}) == ResolveContext(w.state.metadata, context, {})
    ensures ResolveContext(w.state.metadata, context, {}).Ok?
    ensures ResolveContext(w.state.metadata, context, {}).value.publication
            == w.state.metadata.publications[PublicationOf(w.state.metadata, context)]
    ensures ResolveContext(w.state.metadata, context, {}).value.contextId == context
  {
    hide PublicationsSound, ReceiptsSound, KeysSound, KeysGrow;
  }

  lemma AnyFaultsResolveAlike(m: Metadata, context: Id, faults: Faults)
    requires ResolveContext(m, context, faults).Ok?
    ensures ResolveContext(m, context, {}) == ResolveContext(m, context, faults)
  {
  }

  /** A fetch by this user delivers a package whose content is `text`. */
  ghost predicate Delivers(pr: Primitives, s: State, user: UserId, context: Id, device: DeviceKey, faults: Faults,
                           text: seq<byte>)
  {
    var r := Fetch(pr, s, user, context, device, faults).1;
    r.Ok? && r.value.content.plain == Text(text)
  }

  /** The mark the server computes for a context and a content. */
  ghost predicate IsMarkFor(pr: Primitives, s: State, identity: Identity, context: Id, mark: Mark) {
    SealMark(pr, s.keys, identity, context, {}) == Ok(mark)
  }

  /** `context` belongs to `user` and gives access to the content with this identity. */
  ghost predicate Grants(s: State, context: Id, user: UserId, identity: Identity) {
    var access := ResolveContext(s.metadata, context, {});
    access.Ok? && access.value.userId == user && access.value.publication.identity == identity
  }

  /**
   A delivered text is the canonical text of its context or its marked form, and a later server computes the
   same mark.
   */
  lemma DeliveredText(pr: Primitives, w: World, later: World, user: UserId, context: Id, device: DeviceKey,
                      faults: Faults, text: seq<byte>, mark: Mark)
    requires Sound(pr, w) && Sound(pr, later) && Persists(w, later)
    requires Delivers(pr, w.state, user, context, device, faults, text)
    requires IsMarkFor(pr, later.state, ContentIdentity(pr, text), context, mark)
    ensures Grants(later.state, context, user, ContentIdentity(pr, text))
    ensures CarriesMark(text, Canonical(text), mark) && mark.version == MARK_VERSION
    ensures ContentIdentity(pr, text) == ContentIdentity(pr, Canonical(text))
  {
    hide Fetch, Scan, Embed, ReceiptsSound, ResolveContext;
    Delivered(pr, w, user, context, device, faults);
    FetchOutcome(pr, w.state, user, context, device, faults);
    AnyFaultsResolveAlike(w.state.metadata, context, faults);
    PersistentContext(pr, w, later, context);
    var id := PublicationOf(w.state.metadata, context);
    var canonical := Canonical(w.drafts[id]);
    assert PublicationSound(pr, w, id);
    CanonicalIsStable(w.drafts[id]);
    var identity := w.state.metadata.publications[id].identity;
    var written := SealMark(pr, w.state.keys, identity, context, faults).value;
    assert identity in w.state.keys.fileKeys;
    if HasChannel(canonical) {
      MarkedText(canonical, written);
    }
    assert Canonical(text) == canonical;
  }

  lemma LongHasChannel(text: seq<byte>)
    requires ValidText(text) && Significant(Scan(text)) >= RECOVERABLE_WHOLE
    ensures HasChannel(text)
  {
  }

  /** `text` is `canonical`, or its marked form when there is a channel. */
  ghost predicate CarriesMark(text: seq<byte>, canonical: seq<byte>, mark: Mark) {
    && ValidText(canonical) && HasNoMark(Scan(canonical)) && canonical == Canonical(canonical) == Canonical(text)
    && text == (if HasChannel(canonical) then Embedded(canonical, mark).value else canonical)
  }

  lemma MarkIsRead(text: seq<byte>, mark: Mark)
    requires CarriesMark(text, Canonical(text), mark) && mark.version == MARK_VERSION
    requires Significant(Scan(Canonical(text))) >= RECOVERABLE_WHOLE && !HasLegacyRotation(FrameOf(mark))
    ensures Marks(text).Ok? && Marks(text).value != [] && Marks(text).value[0] == mark
  {
    hide Marks, Canonical, Scan, HasLegacyRotation, Embed, Significant;
    LongHasChannel(Canonical(text));
    ExactRecovery(Canonical(text), mark, text);
  }

  /** The server's own mark for a granted context matches, so it is named unless another mark matches too. */
  lemma GrantedIsTraced(pr: Primitives, s: State, text: seq<byte>, context: Id, user: UserId, mark: Mark)
    requires Grants(s, context, user, ContentIdentity(pr, Canonical(text))) && user in s.metadata.users
    requires IsMarkFor(pr, s, ContentIdentity(pr, Canonical(text)), context, mark)
    requires Marks(text).Ok? && Marks(text).value != [] && Marks(text).value[0] == mark
    ensures if SoleMatch(pr, s, ContentIdentity(pr, Canonical(text)), Marks(text).value, 0, {}) then
              Names(pr, s, text, {}, context, user)
            else Attribute(pr, s, text, {}) == Err(MarkNotConfident)
  {
    hide Marks, Canonical, ContentIdentity;
    var identity, marks := ContentIdentity(pr, Canonical(text)), Marks(text).value;
    NothingFails(0);
    assert MatchesAt(pr, s, identity, marks, 0, {});
    forall i: nat ensures Occurrence({}, i) == {} {
      NothingFails(i);
    }
    assert Verifiable(s, marks, {});
    hide Matched, Matching;
    if SoleMatch(pr, s, identity, marks, 0, {}) {
      MatchedIff(pr, s, identity, marks, {});
      ResolvedIsItself(s.metadata, context, {});
    } else {
      AmbiguousIsRefused(pr, s, identity, marks, {});
    }
  }

  /**
   A copy delivered at any point of a run, long enough and with no legacy rotation, is traced at
   any later point at which the master key is there and the owner is registered: attribution answers
   with the context it was delivered for, the owner of that context and all that is recorded of it,
   unless another mark among the rotations is matching too, in which case nobody is named.
   */
  lemma DeliveredCopyIsTraced(pr: Primitives, worlds: seq<World>, events: seq<Event>, i: nat, j: nat, user: UserId,
                              context: Id, device: DeviceKey, faults: Faults, text: seq<byte>, mark: Mark)
    requires Run(pr, worlds, events) && i <= j < |worlds|
    requires Delivers(pr, worlds[i].state, user, context, device, faults, text)
    requires IsMarkFor(pr, worlds[j].state, ContentIdentity(pr, text), context, mark)
    requires user in worlds[j].state.metadata.users
    requires Significant(Scan(Canonical(text))) >= RECOVERABLE_WHOLE && !HasLegacyRotation(FrameOf(mark))
    ensures Marks(text).Ok? && Marks(text).value != [] && Marks(text).value[0] == mark
    ensures var s, identity := worlds[j].state, ContentIdentity(pr, Canonical(text));
            if SoleMatch(pr, s, identity, Marks(text).value, 0, {}) then
              && Names(pr, s, text, {}, context, user)
              && IsContext(s.metadata, context) && OwnerOf(s.metadata, context) == user
              && Attribute(pr, s, text, {}) == Ok(FindingFor(s.metadata, context))
            else Attribute(pr, s, text, {}) == Err(MarkNotConfident)
  {
    hide *;
    RunsAreSound(pr, worlds, events, i);
    RunsAreSound(pr, worlds, events, j);
    RunPersists(pr, worlds, events, i, j);
    DeliveredText(pr, worlds[i], worlds[j], user, context, device, faults, text, mark);
    MarkIsRead(text, mark);
    GrantedIsTraced(pr, worlds[j].state, text, context, user, mark);
    SoundIsFiled(pr, worlds[j]);
    AttributedIff(pr, worlds[j].state, text, context, user, {});
  }

  lemma SoundIsFiled(pr: Primitives, w: World)
    requires Sound(pr, w)
    ensures Filed(w.state.metadata)
  {
    hide PurchasesSound, ReceiptsSound, KeysSound;
    forall id | id in w.state.metadata.publications ensures w.state.metadata.publications[id].publicationId == id {
      assert PublicationSound(pr, w, id);
    }
  }
}
