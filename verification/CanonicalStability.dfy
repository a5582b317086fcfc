/**
 When one pass of canonicalisation is enough, for arbitrary bytes. Removing a token can bring together
 undecodable bytes that stood on both sides of it; what matters is whether they then spell something
 that belongs to the channel.
 */
module CanonicalStability {
  import opened Bytes
  import opened Utf8
  import opened CanonicalForm

  /** A token that decodes to itself when it stands alone. */
  predicate Atom(t: Token) {
    t.bytes != [] && Decode(t.bytes) == t
  }

  predicate Atoms(ts: seq<Token>) {
    forall t | t in ts :: Atom(t)
  }

  /** A code point is decoded from its own bytes, whatever follows them. */
  lemma DecodesAlone(s: seq<byte>, rest: seq<byte>)
    requires s != [] && Decodable(s)
    ensures var t := Decode(s); Decodable(t.bytes + rest) && Decode(t.bytes + rest) == t
  {
    var n := LeadLength(s[0]);
    var u := s[..n] + rest;
    assert forall i | 0 <= i < n :: u[i] == s[i];
    AccumulatedAlike(s, u, n);
    assert u[..n] == s[..n];
  }

  lemma {:induction false} AccumulatedAlike(s: seq<byte>, u: seq<byte>, k: nat)
    requires 1 <= k <= |s| && k <= |u| && forall i | 0 <= i < k :: s[i] == u[i]
    ensures Accumulated(s, k) == Accumulated(u, k)
  {
    if k > 1 {
      AccumulatedAlike(s, u, k - 1);
    }
  }

  lemma {:induction false} ScanAtoms(s: seq<byte>)
    ensures Atoms(Scan(s))
  {
    if s != [] {
      var t := Decode(s);
      ScanAtoms(s[|t.bytes|..]);
      if Decodable(s) {
        DecodesAlone(s, []);
        assert t.bytes + [] == t.bytes;
      } else {
        assert t.bytes == [s[0]];
      }
      assert Scan(s) == [t] + Scan(s[|t.bytes|..]);
    }
  }

  lemma KeptAtoms(ts: seq<Token>, previous: int)
    requires Atoms(ts)
    ensures Atoms(Keep(ts, previous))
  {
    KeepSelects(ts, previous);
  }

  // ----- scanning what was kept -----

  /** A byte that begins no code point where it stands. */
  predicate Broken(t: Token) {
    t.codePoint == UNKNOWN_CODE_POINT && |t.bytes| == 1
  }

  predicate BrokenContinuation(t: Token) {
    Broken(t) && Continuation(t.bytes[0])
  }

  /** How many bytes the lead byte in front announces. */
  function Announced(ks: seq<Token>): nat {
    if ks != [] && Broken(ks[0]) then LeadLength(ks[0].bytes[0]) else 0
  }

  /** A broken lead byte is followed by as many broken continuation bytes as it announces. */
  predicate Joins(ks: seq<Token>) {
    2 <= Announced(ks) <= |ks| && forall i | 1 <= i < Announced(ks) :: BrokenContinuation(ks[i])
  }

  /** The code point that a broken lead byte and the continuation bytes behind it spell. */
  function Joined(ks: seq<Token>): (t: Token)
    requires Joins(ks)
    ensures |t.bytes| == Announced(ks)
  {
    var n := Announced(ks);
    assert forall i | 0 <= i < n :: Broken(ks[i]);
    var bytes := seq(n, i requires 0 <= i < n => ks[i].bytes[0]);
    Token(Accumulated(bytes, n), bytes)
  }

  /** The kept tokens, with undecodable bytes put together where they now spell a code point. */
  function Rejoin(ks: seq<Token>): seq<Token> {
    if ks == [] then []
    else if Joins(ks) then [Joined(ks)] + Rejoin(ks[Announced(ks)..])
    else [ks[0]] + Rejoin(ks[1..])
  }

  lemma UnknownAtom(t: Token)
    requires Atom(t)
    ensures t.codePoint == UNKNOWN_CODE_POINT <==> !Decodable(t.bytes)
    ensures t.codePoint == UNKNOWN_CODE_POINT ==> Broken(t) && LeadLength(t.bytes[0]) != 1
    ensures t.codePoint != UNKNOWN_CODE_POINT ==> !Continuation(t.bytes[0])
  {
    UnknownIsOneByte(t.bytes);
  }

  /** Broken bytes in front are a byte each. */
  lemma {:induction false} BrokenBytes(ks: seq<Token>, n: nat)
    requires n <= |ks| && forall i | 0 <= i < n :: Broken(ks[i])
    ensures n <= |Flatten(ks)| && Flatten(ks)[n..] == Flatten(ks[n..])
    ensures forall i | 0 <= i < n :: ks[i].bytes == [Flatten(ks)[i]]
  {
    if n > 0 {
      BrokenBytes(ks[1..], n - 1);
      Shifted(ks, n);
      assert Flatten(ks) == [ks[0].bytes[0]] + Flatten(ks[1..]);
      Shifted(Flatten(ks), n);
    }
  }

  /** Kept bytes that start with continuation bytes are broken ones. */
  lemma {:induction false} ContinuationsAreBroken(ks: seq<Token>, n: nat)
    requires Atoms(ks) && n <= |Flatten(ks)| && forall i | 0 <= i < n :: Continuation(Flatten(ks)[i])
    ensures n <= |ks| && forall i | 0 <= i < n :: BrokenContinuation(ks[i])
  {
    if n > 0 {
      assert ks[0] in ks;
      UnknownAtom(ks[0]);
      assert Flatten(ks)[0] == ks[0].bytes[0];
      assert Flatten(ks) == [ks[0].bytes[0]] + Flatten(ks[1..]);
      RestAtoms(ks);
      Shifted(Flatten(ks), n);
      hide Atom, Atoms, Continuation;
      ContinuationsAreBroken(ks[1..], n - 1);
      forall i: nat | i < n ensures BrokenContinuation(ks[i]) {
        if i > 0 {
          assert ks[i] == ks[1..][i - 1];
        }
      }
    }
  }

  lemma Shifted<T>(s: seq<T>, n: nat)
    requires 1 <= n <= |s|
    ensures s[1..][n - 1..] == s[n..]
    ensures forall i | 0 <= i < n - 1 :: s[1..][i] == s[i + 1]
  {
  }

  lemma RestAtoms(ks: seq<Token>)
    requires ks != [] && Atoms(ks)
    ensures Atoms(ks[1..])
  {
    hide Atom;
  }

  lemma SuffixAtoms(ks: seq<Token>, n: nat)
    requires n <= |ks| && Atoms(ks)
    ensures Atoms(ks[n..])
  {
    hide Atom;
  }

  /** Where kept bytes join, the lenient decoder finds the code point they spell. */
  lemma JoinDecodes(ks: seq<Token>)
    requires Joins(ks)
    ensures Flatten(ks) != [] && Decode(Flatten(ks)) == Joined(ks)
    ensures Flatten(ks)[Announced(ks)..] == Flatten(ks[Announced(ks)..])
  {
    var n := Announced(ks);
    BrokenBytes(ks, n);
    var s, bytes := Flatten(ks), Joined(ks).bytes;
    assert forall i | 0 <= i < n :: s[i] == bytes[i];
    assert s[..n] == bytes;
    AccumulatedAlike(s, bytes, n);
    assert forall i | 1 <= i < n :: BrokenContinuation(ks[i]);
  }

  /** And where they do not, it finds the token that was kept. */
  lemma UnjoinedDecodes(ks: seq<Token>)
    requires ks != [] && Atoms(ks) && !Joins(ks)
    ensures Flatten(ks) != [] && Decode(Flatten(ks)) == ks[0] && Flatten(ks)[|ks[0].bytes|..] == Flatten(ks[1..])
  {
    assert ks[0] in ks;
    UnknownAtom(ks[0]);
    var s, rest := Flatten(ks), Flatten(ks[1..]);
    if ks[0].codePoint != UNKNOWN_CODE_POINT {
      DecodesAlone(ks[0].bytes, rest);
    } else {
      assert s[..1] == ks[0].bytes && s[1..] == rest;
      if Decodable(s) {
        DecodableJoins(ks);
      }
    }
  }

  lemma DecodableJoins(ks: seq<Token>)
    requires ks != [] && Atoms(ks) && ks[0].codePoint == UNKNOWN_CODE_POINT && ks[0].bytes != []
    requires Decodable(Flatten(ks))
    ensures Joins(ks)
  {
    assert ks[0] in ks;
    UnknownAtom(ks[0]);
    var s := Flatten(ks);
    var n := Announced(ks);
    assert s[0] == ks[0].bytes[0] && 2 <= n <= |s|;
    assert s[1..] == Flatten(ks[1..]);
    RestAtoms(ks);
    Shifted(s, n);
    hide Atom, Atoms, Continuation, Flatten;
    ContinuationsAreBroken(ks[1..], n - 1);
    forall i: nat | 1 <= i < n ensures BrokenContinuation(ks[i]) {
      assert ks[i] == ks[1..][i - 1];
    }
  }

  /** Scanning the kept bytes again finds exactly the rejoined tokens. */
  lemma {:induction false} ScanKept(ks: seq<Token>)
    requires Atoms(ks)
    ensures Scan(Flatten(ks)) == Rejoin(ks)
    decreases |ks|
  {
    if ks != [] {
      hide Decode, Joins, Flatten, Atoms, Announced;
      if Joins(ks) {
        JoinDecodes(ks);
        JoinLength(ks);
        SuffixAtoms(ks, Announced(ks));
        ScanKept(ks[Announced(ks)..]);
      } else {
        UnjoinedDecodes(ks);
        RestAtoms(ks);
        ScanKept(ks[1..]);
      }
    }
  }

  lemma JoinLength(ks: seq<Token>)
    requires Joins(ks)
    ensures 2 <= Announced(ks) <= |ks|
  {
  }

  // ----- what is in the channel -----

  predicate InChannel(codePoint: int, previous: int) {
    codePoint != UNKNOWN_CODE_POINT && IsMarkChannel(codePoint, previous)
  }

  /** No token is in the channel, each judged by the one before it. */
  predicate Clean(ts: seq<Token>, previous: int) {
    ts == [] || (!InChannel(ts[0].codePoint, previous) && Clean(ts[1..], ts[0].codePoint))
  }

  /** Nothing is removed exactly when no token is in the channel. */
  lemma {:induction false} KeepsAllIff(ts: seq<Token>, previous: int)
    ensures Keep(ts, previous) == ts <==> Clean(ts, previous)
  {
    if ts != [] {
      hide IsMarkChannel;
      var rest, next := ts[1..], ts[0].codePoint;
      KeepsAllIff(rest, next);
      if InChannel(next, previous) {
        KeepSelects(rest, previous);
      } else {
        assert Keep(ts, previous) == [ts[0]] + Keep(rest, next);
        assert ts == [ts[0]] + rest;
      }
    }
  }

  lemma {:induction false} CleanRest(ts: seq<Token>, n: nat, previous: int)
    requires 1 <= n <= |ts| && Clean(ts, previous)
    ensures Clean(ts[n..], ts[n - 1].codePoint)
  {
    hide InChannel;
    if n > 1 {
      CleanRest(ts[1..], n - 1, ts[0].codePoint);
      Shifted(ts, n);
    }
  }

  /** The code point that the tokens begin with once they are put together. */
  function Leading(ks: seq<Token>): int {
    if ks == [] then UNKNOWN_CODE_POINT else if Joins(ks) then Joined(ks).codePoint else ks[0].codePoint
  }

  /**
   The tokens begin with undecodable bytes that spell U+200B, or a variation selector behind a letter
   or digit, or a letter or digit in front of a variation selector.
   */
  predicate Spells(ks: seq<Token>, previous: int) {
    && Joins(ks)
    && var c := Joined(ks).codePoint;
    && (InChannel(c, previous) || (IsAsciiAlphanumeric(c) && IsVariationSelector(Leading(ks[Announced(ks)..]))))
  }

  function CodePointBefore(ks: seq<Token>, i: nat, previous: int): int
    requires i < |ks|
  {
    if i == 0 then previous else ks[i - 1].codePoint
  }

  /** Nowhere among the tokens. */
  predicate NowhereSpells(ks: seq<Token>, previous: int) {
    forall i: nat | i < |ks| :: !Spells(ks[i..], CodePointBefore(ks, i, previous))
  }

  lemma NowhereInRest(ks: seq<Token>, n: nat, previous: int)
    requires 1 <= n <= |ks| && forall i: nat | 1 <= i < n :: !Joins(ks[i..])
    ensures NowhereSpells(ks, previous) <==> !Spells(ks, previous) && NowhereSpells(ks[n..], ks[n - 1].codePoint)
  {
    hide Joins, Joined, InChannel, Announced, Leading;
    var rest, last := ks[n..], ks[n - 1].codePoint;
    assert ks[0..] == ks;
    forall i: nat | i < |rest|
      ensures Spells(rest[i..], CodePointBefore(rest, i, last))
              == Spells(ks[n + i..], CodePointBefore(ks, n + i, previous))
    {
      assert rest[i..] == ks[n + i..];
    }
    if NowhereSpells(ks, previous) {
      assert !Spells(ks[0..], CodePointBefore(ks, 0, previous));
      forall i: nat | i < |rest| ensures !Spells(rest[i..], CodePointBefore(rest, i, last)) {
        var j := n + i;
        assert !Spells(ks[j..], CodePointBefore(ks, j, previous));
      }
    } else if !Spells(ks, previous) {
      var j: nat :| j < |ks| && Spells(ks[j..], CodePointBefore(ks, j, previous));
      assert j >= n;
      var i := j - n;
      assert Spells(rest[i..], CodePointBefore(rest, i, last));
    }
  }

  /** Inside a join no other one begins. */
  lemma JoinIsWhole(ks: seq<Token>)
    requires Joins(ks)
    ensures forall i: nat | 1 <= i < Announced(ks) :: !Joins(ks[i..])
    ensures ks[Announced(ks) - 1].codePoint == UNKNOWN_CODE_POINT && Joined(ks).codePoint != UNKNOWN_CODE_POINT
  {
    forall i: nat | 1 <= i < Announced(ks) ensures !Joins(ks[i..]) {
      assert BrokenContinuation(ks[i]) && ks[i..][0] == ks[i];
    }
    assert BrokenContinuation(ks[Announced(ks) - 1]);
    JoinDecodes(ks);
    UnknownIsOneByte(Flatten(ks));
  }

  /**
   Behind a kept code point, or behind a join that put `previous` there, the tokens put together are
   clean exactly when nothing in the channel is spelled.
   */
  lemma {:induction false} CleanIff(ks: seq<Token>, before: int, previous: int)
    requires Clean(ks, before) && (before == previous || before == UNKNOWN_CODE_POINT)
    ensures Clean(Rejoin(ks), previous) <==>
              && NowhereSpells(ks, before)
              && (before == previous || !IsAsciiAlphanumeric(previous) || !IsVariationSelector(Leading(ks)))
    decreases |ks|
  {
    assert !IsAsciiAlphanumeric(UNKNOWN_CODE_POINT) && !IsVariationSelector(UNKNOWN_CODE_POINT);
    hide IsAsciiAlphanumeric, IsVariationSelector, Joins, Joined, Announced;
    if ks != [] {
      if Joins(ks) {
        JoinLength(ks);
        var n := Announced(ks);
        var t := Joined(ks);
        JoinIsWhole(ks);
        CleanRest(ks, n, before);
        NowhereInRest(ks, n, before);
        CleanIff(ks[n..], UNKNOWN_CODE_POINT, t.codePoint);
      } else {
        NowhereInRest(ks, 1, before);
        CleanIff(ks[1..], ks[0].codePoint, ks[0].codePoint);
      }
    }
  }

  /**
   For arbitrary bytes, one pass is enough if and only if nowhere among the kept tokens a broken lead
   byte has got behind it the continuation bytes it announces so that they spell U+200B, a variation
   selector behind a letter or digit, or a letter or digit in front of a variation selector.
   */
  lemma StableIff(content: seq<byte>)
    ensures Canonical(Canonical(content)) == Canonical(content)
            <==> NowhereSpells(Keep(Scan(content), UNKNOWN_CODE_POINT), UNKNOWN_CODE_POINT)
  {
    hide IsMarkChannel, Decode, Clean, NowhereSpells, Rejoin, Leading;
    var kept := Keep(Scan(content), UNKNOWN_CODE_POINT);
    ScanAtoms(content);
    KeptAtoms(Scan(content), UNKNOWN_CODE_POINT);
    ScanKept(kept);
    OwnCanonicalForm(Canonical(content));
    KeepsAllIff(Rejoin(kept), UNKNOWN_CODE_POINT);
    KeepIdempotent(Scan(content), UNKNOWN_CODE_POINT);
    KeepsAllIff(kept, UNKNOWN_CODE_POINT);
    CleanIff(kept, UNKNOWN_CODE_POINT, UNKNOWN_CODE_POINT);
  }

  /** No undecodable byte of the text could begin a code point. */
  predicate NoBrokenLead(ts: seq<Token>) {
    forall t | t in ts :: t.codePoint == UNKNOWN_CODE_POINT ==> t.bytes != [] && LeadLength(t.bytes[0]) == 0
  }

  /**
   So a text whose undecodable bytes are all stray continuation bytes or bytes that never occur is stable:
   valid text, and FF.
   */
  lemma StableWithoutBrokenLead(content: seq<byte>)
    requires NoBrokenLead(Scan(content))
    ensures Canonical(Canonical(content)) == Canonical(content)
  {
    hide IsMarkChannel, Decode;
    var kept := Keep(Scan(content), UNKNOWN_CODE_POINT);
    StableIff(content);
    KeepSelects(Scan(content), UNKNOWN_CODE_POINT);
    forall i: nat | i < |kept| ensures !Joins(kept[i..]) {
      assert kept[i] in kept && kept[i..][0] == kept[i];
    }
  }
}
