/**
 The canonical form and the marked form of a text, scalar value by scalar value and with every code point
 written out. Removed is U+200B, and a variation selector whose predecessor among what stays is an ASCII
 letter or digit; written is U+200B.
 */
module ByScalar {
  import opened Bytes
  import opened Utf8
  import opened CanonicalForm
  import opened CanonicalStability
  import opened MarkCodec
  import opened MarkChannel

  /** The code point that stayed last. */
  function LastKept(kept: seq<Token>, previous: int): int {
    if kept == [] then previous else kept[|kept| - 1].codePoint
  }

  /** An ASCII digit, a capital or a small letter. */
  predicate LetterOrDigit(c: int) {
    0x30 <= c <= 0x39 || 0x41 <= c <= 0x5A || 0x61 <= c <= 0x7A
  }

  /** U+200B, or one of the two blocks of variation selectors behind a letter or digit. */
  predicate Removed(c: int, previous: int) {
    c == 0x200B || ((0xFE00 <= c <= 0xFE0F || 0xE0100 <= c <= 0xE01EF) && LetterOrDigit(previous))
  }

  lemma RemovedIff(t: Token, previous: int)
    ensures Removed(t.codePoint, previous) <==>
              t.codePoint != UNKNOWN_CODE_POINT && IsMarkChannel(t.codePoint, previous)
  {
  }

  /** One more token, of any bytes at all, is judged by the one that stayed last, and changes nothing before it. */
  lemma {:induction false} KeepAppended(ts: seq<Token>, t: Token, previous: int)
    ensures var kept := Keep(ts, previous);
            Keep(ts + [t], previous) == kept + if Removed(t.codePoint, LastKept(kept, previous)) then [] else [t]
  {
    hide IsMarkChannel, Removed;
    if ts == [] {
      assert ts + [t] == [t] && [t][1..] == [];
      RemovedIff(t, previous);
    } else {
      assert (ts + [t])[1..] == ts[1..] + [t];
      KeepAppended(ts[1..], t, previous);
      KeepAppended(ts[1..], t, ts[0].codePoint);
    }
  }

  lemma EncodedStart(v: Scalar)
    ensures Encode(v) != [] && !Continuation(Encode(v)[0])
  {
  }

  /** A code point appended to any bytes completes nothing in front of it. */
  lemma DecodeBefore(s: seq<byte>, v: Scalar)
    requires s != []
    ensures Decode(s + Encode(v)) == Decode(s)
  {
    var e := Encode(v);
    var u := s + e;
    EncodedStart(v);
    if Decodable(s) {
      var t := Decode(s);
      DecodesAlone(s, s[|t.bytes|..] + e);
      assert t.bytes + (s[|t.bytes|..] + e) == u;
    } else {
      assert !Decodable(u) by {
        var n := LeadLength(s[0]);
        if n > |s| {
          assert u[|s|] == e[0];
        } else if n != 0 {
          var i :| 1 <= i < n && !Continuation(s[i]);
          assert u[i] == s[i];
        }
      }
      assert u[..1] == s[..1];
    }
  }

  lemma ScanOne(v: Scalar)
    ensures Scan(Encode(v)) == [Token(v, Encode(v))]
  {
    DecodeEncoded(v, []);
    EncodedStart(v);
    assert Encode(v) + [] == Encode(v);
    assert Encode(v)[|Encode(v)|..] == [];
    hide Encode, Decode;
  }

  lemma RestAppended(s: seq<byte>, more: seq<byte>, n: nat)
    requires n <= |s|
    ensures (s + more)[n..] == s[n..] + more
  {
  }

  lemma {:induction false} ScanAppended(s: seq<byte>, v: Scalar)
    ensures Scan(s + Encode(v)) == Scan(s) + [Token(v, Encode(v))]
    decreases |s|
  {
    hide Decode, Encode;
    if s == [] {
      ScanOne(v);
      assert s + Encode(v) == Encode(v);
    } else {
      DecodeBefore(s, v);
      var t := Decode(s);
      RestAppended(s, Encode(v), |t.bytes|);
      ScanAppended(s[|t.bytes|..], v);
      ScanTakes(s);
      ScanTakes(s + Encode(v));
      hide Scan;
    }
  }

  lemma ScanTakes(s: seq<byte>)
    requires s != []
    ensures Scan(s) == [Decode(s)] + Scan(s[|Decode(s).bytes|..])
  {
    hide Decode;
  }

  // ----- the canonical form of valid text, without a scan -----

  /** The scalar values that stay. */
  function Kept(cs: seq<Scalar>): seq<Scalar> {
    if cs == [] then []
    else
      var kept, v := Kept(cs[..|cs| - 1]), cs[|cs| - 1];
      if v == 0x200B then kept
      else if (0xFE00 <= v <= 0xFE0F || 0xE0100 <= v <= 0xE01EF) && kept != [] && LetterOrDigit(kept[|kept| - 1]) then
        kept
      else kept + [v]
  }

  function TokensOf(cs: seq<Scalar>): seq<Token> {
    seq(|cs|, i requires 0 <= i < |cs| => Token(cs[i], Encode(cs[i])))
  }

  lemma TokensAppended(cs: seq<Scalar>, v: Scalar)
    ensures TokensOf(cs + [v]) == TokensOf(cs) + [Token(v, Encode(v))]
  {
  }

  lemma {:induction false} EncodeAppended(cs: seq<Scalar>, v: Scalar)
    ensures EncodeAll(cs + [v]) == EncodeAll(cs) + Encode(v)
  {
    hide Encode;
    if cs == [] {
      assert cs + [v] == [v] && [v][1..] == [];
      assert EncodeAll([]) == [];
      assert EncodeAll([v]) == Encode(v) + EncodeAll([]);
    } else {
      assert (cs + [v])[1..] == cs[1..] + [v];
      EncodeAppended(cs[1..], v);
    }
  }

  lemma {:induction false} FlattenTokens(cs: seq<Scalar>)
    ensures Flatten(TokensOf(cs)) == EncodeAll(cs)
  {
    hide Encode;
    if cs != [] {
      assert TokensOf(cs)[1..] == TokensOf(cs[1..]);
      FlattenTokens(cs[1..]);
    }
  }

  lemma {:induction false} ScanScalars(cs: seq<Scalar>)
    ensures Scan(EncodeAll(cs)) == TokensOf(cs)
  {
    if cs == [] {
      assert EncodeAll(cs) == [];
    } else {
      var front, v := cs[..|cs| - 1], cs[|cs| - 1];
      assert cs == front + [v];
      hide Encode, EncodeAll, Scan, TokensOf;
      ScanScalars(front);
      EncodeAppended(front, v);
      ScanAppended(EncodeAll(front), v);
      TokensAppended(front, v);
    }
  }

  lemma {:induction false} KeepScalars(cs: seq<Scalar>)
    ensures Keep(TokensOf(cs), UNKNOWN_CODE_POINT) == TokensOf(Kept(cs))
  {
    if cs == [] {
      assert TokensOf(cs) == [];
    } else {
      var front, v := cs[..|cs| - 1], cs[|cs| - 1];
      assert cs == front + [v];
      hide Encode, Keep;
      KeepScalars(front);
      TokensAppended(front, v);
      KeepAppended(TokensOf(front), Token(v, Encode(v)), UNKNOWN_CODE_POINT);
      TokensAppended(Kept(front), v);
    }
  }

  /** The canonical form of the encoding of any scalar values is the encoding of those that stay. */
  lemma CanonicalScalars(cs: seq<Scalar>)
    ensures Canonical(EncodeAll(cs)) == EncodeAll(Kept(cs))
  {
    hide Encode, Scan, Keep, TokensOf, Kept;
    ScanScalars(cs);
    KeepScalars(cs);
    FlattenTokens(Kept(cs));
  }

  /**
   One more code point behind any bytes at all: it is dropped exactly when it is U+200B, or a variation
   selector and the code point that stayed last is an ASCII letter or digit.
   */
  lemma CanonicalAppended(content: seq<byte>, v: Scalar)
    ensures var last := LastKept(Keep(Scan(content), UNKNOWN_CODE_POINT), UNKNOWN_CODE_POINT);
            Canonical(content + Encode(v)) ==
            if || v == 0x200B
               || ((0xFE00 <= v <= 0xFE0F || 0xE0100 <= v <= 0xE01EF)
                   && (0x30 <= last <= 0x39 || 0x41 <= last <= 0x5A || 0x61 <= last <= 0x7A))
            then Canonical(content)
            else Canonical(content) + Encode(v)
  {
    hide Encode, Scan, Keep, Flatten;
    var t := Token(v, Encode(v));
    ScanAppended(content, v);
    KeepAppended(Scan(content), t, UNKNOWN_CODE_POINT);
    var kept := Keep(Scan(content), UNKNOWN_CODE_POINT);
    FlattenAppend(kept, [t]);
    assert kept + [] == kept;
    assert Flatten([t]) == t.bytes by { OneToken(t); }
  }

  lemma OneToken(t: Token)
    ensures Flatten([t]) == t.bytes
  {
    assert [t][1..] == [];
  }

  /** On valid text what stayed last is the last scalar value of the canonical form. */
  lemma CanonicalAppendedToText(text: seq<byte>, kept: seq<Scalar>, v: Scalar)
    requires ValidText(text) && EncodeAll(kept) == Canonical(text)
    ensures Canonical(text + Encode(v)) ==
            if || v == 0x200B
               || ((0xFE00 <= v <= 0xFE0F || 0xE0100 <= v <= 0xE01EF) && kept != []
                   && var last := kept[|kept| - 1];
                      0x30 <= last <= 0x39 || 0x41 <= last <= 0x5A || 0x61 <= last <= 0x7A)
            then Canonical(text)
            else Canonical(text) + Encode(v)
    ensures Canonical(text) != Canonical(text) + Encode(v)
  {
    EncodedStart(v);
    hide Encode, Scan, Keep, EncodeAll, ValidText, TokensOf, Canonical;
    CanonicalAppended(text, v);
    KeptAre(text, kept);
    LastToken(kept);
  }

  lemma LastToken(cs: seq<Scalar>)
    ensures |TokensOf(cs)| == |cs| && (cs != [] ==> TokensOf(cs)[|cs| - 1].codePoint == cs[|cs| - 1])
  {
  }

  lemma KeptAre(text: seq<byte>, kept: seq<Scalar>)
    requires ValidText(text) && EncodeAll(kept) == Canonical(text)
    ensures Keep(Scan(text), UNKNOWN_CODE_POINT) == TokensOf(kept)
  {
    ValidIffProper(text);
    KeepProper(Scan(text), UNKNOWN_CODE_POINT);
    ProperIsValid(Keep(Scan(text), UNKNOWN_CODE_POINT));
    ScanScalars(kept);
    hide Scan, Keep, EncodeAll, TokensOf;
  }

  // ----- the marked form -----

  /** U+200B behind every other code point whose bit of the frame, repeated from `k` on, is 1. */
  function Marked(cs: seq<Scalar>, frame: Frame, k: nat): seq<Scalar> {
    if cs == [] then []
    else if cs[0] == 0x200B then [cs[0]] + Marked(cs[1..], frame, k)
    else [cs[0]] + (if frame[k % 136] == 1 then [0x200B] else []) + Marked(cs[1..], frame, k + 1)
  }

  /** How many code points are not U+200B. */
  function Others(cs: seq<Scalar>): nat {
    if cs == [] then 0 else (if cs[0] == 0x200B then 0 else 1) + Others(cs[1..])
  }

  lemma MarkIsScalar()
    ensures MARK_TOKEN == Token(0x200B, Encode(0x200B))
  {
  }

  lemma TokensJoined(a: seq<Scalar>, b: seq<Scalar>)
    ensures TokensOf(a + b) == TokensOf(a) + TokensOf(b)
  {
  }

  lemma FirstToken(cs: seq<Scalar>)
    requires cs != []
    ensures TokensOf(cs) == [Token(cs[0], Encode(cs[0]))] + TokensOf(cs[1..])
    ensures TokensOf(cs)[1..] == TokensOf(cs[1..]) && TokensOf([cs[0]]) == [Token(cs[0], Encode(cs[0]))]
  {
  }

  lemma WrittenScalar(frame: Frame, k: nat)
    ensures Written(frame, k) == TokensOf(if frame[k % 136] == 1 then [0x200B] else [])
  {
    MarkIsScalar();
    hide Encode;
  }

  lemma {:induction false} EmbedScalars(cs: seq<Scalar>, frame: Frame, k: nat)
    ensures Embed(TokensOf(cs), frame, k) == TokensOf(Marked(cs, frame, k))
  {
    hide Encode, TokensOf, Written;
    if cs == [] {
      assert TokensOf([]) == [] by { NoTokens(); }
    } else {
      FirstToken(cs);
      var first, rest := [cs[0]], cs[1..];
      if cs[0] == 0x200B {
        EmbedScalars(rest, frame, k);
        TokensJoined(first, Marked(rest, frame, k));
      } else {
        var mark: seq<Scalar> := if frame[k % 136] == 1 then [0x200B] else [];
        EmbedScalars(rest, frame, k + 1);
        WrittenScalar(frame, k);
        TokensJoined(first + mark, Marked(rest, frame, k + 1));
        TokensJoined(first, mark);
      }
    }
  }

  lemma NoTokens()
    ensures TokensOf([]) == []
  {
  }

  lemma {:induction false} OthersAreSignificant(cs: seq<Scalar>)
    ensures Significant(TokensOf(cs)) == Others(cs)
  {
    if cs == [] {
      NoTokens();
    } else {
      FirstToken(cs);
      OthersAreSignificant(cs[1..]);
      hide Encode, TokensOf;
    }
  }

  /** Text of scalar values is marked exactly when at least 136 of them are not U+200B, and then like this. */
  lemma EmbeddedExactly(cs: seq<Scalar>, mark: Mark)
    ensures Embedded(EncodeAll(cs), mark) ==
            if Others(cs) >= 136 then Some(EncodeAll(Marked(cs, FrameOf(mark), 0))) else None
  {
    hide Encode, Scan, TokensOf, Embed, FrameOf, EncodeAll, Marked, Significant;
    assert ValidText(EncodeAll(cs));
    ScanScalars(cs);
    OthersAreSignificant(cs);
    EmbedScalars(cs, FrameOf(mark), 0);
    FlattenTokens(Marked(cs, FrameOf(mark), 0));
  }
}
