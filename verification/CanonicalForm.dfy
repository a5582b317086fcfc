/**
 The canonical form of a text: the text without the channel of the watermark. Identity, duplicate
 detection and the stored content are all computed from it.
 */
module CanonicalForm {
  import opened Bytes
  import opened Utf8

  /** U+200B, the code point the watermark is written with. */
  const MARK_CODE_POINT := 0x200B

  const VARIATION_SELECTOR_FIRST := 0xFE00
  const VARIATION_SELECTOR_LAST := 0xFE0F
  const SUPPLEMENTARY_VARIATION_SELECTOR_FIRST := 0xE0100
  const SUPPLEMENTARY_VARIATION_SELECTOR_LAST := 0xE01EF

  predicate IsAsciiAlphanumeric(codePoint: int) {
    || 'a' as int <= codePoint <= 'z' as int
    || 'A' as int <= codePoint <= 'Z' as int
    || '0' as int <= codePoint <= '9' as int
  }

  predicate IsVariationSelector(codePoint: int) {
    || VARIATION_SELECTOR_FIRST <= codePoint <= VARIATION_SELECTOR_LAST
    || SUPPLEMENTARY_VARIATION_SELECTOR_FIRST <= codePoint <= SUPPLEMENTARY_VARIATION_SELECTOR_LAST
  }

  predicate IsMarkChannel(codePoint: int, previous: int) {
    codePoint == MARK_CODE_POINT || (IsVariationSelector(codePoint) && IsAsciiAlphanumeric(previous))
  }

  predicate IsMark(t: Token) {
    t.codePoint == MARK_CODE_POINT
  }

  predicate HasNoMark(ts: seq<Token>) {
    forall i | 0 <= i < |ts| :: !IsMark(ts[i])
  }

  /** The tokens that stay; `previous` is the code point before them that stayed. */
  function Keep(ts: seq<Token>, previous: int): seq<Token> {
    if ts == [] then []
    else if ts[0].codePoint != UNKNOWN_CODE_POINT && IsMarkChannel(ts[0].codePoint, previous) then
      Keep(ts[1..], previous)
    else [ts[0]] + Keep(ts[1..], ts[0].codePoint)
  }

  function Canonical(content: seq<byte>): seq<byte> {
    Flatten(Keep(Scan(content), UNKNOWN_CODE_POINT))
  }

  /** The canonical form of the rest of a text, given the code point that last stayed. */
  function CanonicalFrom(rest: seq<byte>, previous: int): seq<byte> {
    Flatten(Keep(Scan(rest), previous))
  }

  lemma CanonicalStep(rest: seq<byte>, previous: int)
    requires rest != []
    ensures var t := Decode(rest);
            var after := rest[|t.bytes|..];
            CanonicalFrom(rest, previous) ==
            if t.codePoint != UNKNOWN_CODE_POINT && IsMarkChannel(t.codePoint, previous) then
              CanonicalFrom(after, previous)
            else t.bytes + CanonicalFrom(after, t.codePoint)
  {
    var t := Decode(rest);
    assert Scan(rest)[1..] == Scan(rest[|t.bytes|..]);
    var kept := Keep(Scan(rest)[1..], t.codePoint);
    assert ([t] + kept)[1..] == kept;
  }

  /** `result` is the canonical form of what lies before `offset`, which ends with `previous`. */
  predicate CanonicalUpTo(content: seq<byte>, offset: nat, previous: int, result: seq<byte>)
    requires offset <= |content|
  {
    Canonical(content) == result + CanonicalFrom(content[offset..], previous)
  }

  lemma CanonicalStart(content: seq<byte>)
    ensures CanonicalUpTo(content, 0, UNKNOWN_CODE_POINT, [])
  {
    assert content[0..] == content;
  }

  lemma CanonicalAdvance(content: seq<byte>, offset: nat, previous: int, result: seq<byte>)
    requires offset < |content| && CanonicalUpTo(content, offset, previous, result)
    ensures var t := Decode(content[offset..]);
            var after := offset + |t.bytes|;
            && (t.codePoint == UNKNOWN_CODE_POINT ==> |t.bytes| == 1)
            && t.bytes == content[offset..after]
            && if t.codePoint != UNKNOWN_CODE_POINT && IsMarkChannel(t.codePoint, previous) then
                 CanonicalUpTo(content, after, previous, result)
               else CanonicalUpTo(content, after, t.codePoint, result + t.bytes)
  {
    hide CanonicalFrom, Canonical, IsMarkChannel;
    var rest := content[offset..];
    var t := Decode(rest);
    CanonicalStep(rest, previous);
    UnknownIsOneByte(rest);
    assert t.bytes == rest[..|t.bytes|];
    hide Decode;
    assert rest[|t.bytes|..] == content[offset + |t.bytes|..];
    var tail := CanonicalFrom(content[offset + |t.bytes|..], t.codePoint);
    assert result + (t.bytes + tail) == (result + t.bytes) + tail;
  }

  lemma CanonicalEnd(content: seq<byte>, previous: int, result: seq<byte>)
    requires CanonicalUpTo(content, |content|, previous, result)
    ensures result == Canonical(content)
  {
    assert result + [] == result;
  }

  method ComputeCanonicalForm(content: seq<byte>) returns (result: seq<byte>)
    ensures result == Canonical(content)
  {
    hide Decode, CanonicalUpTo, Canonical, IsMarkChannel;
    result := [];
    var previous := UNKNOWN_CODE_POINT;
    var offset: nat := 0;
    CanonicalStart(content);
    while offset < |content|
      invariant offset <= |content| && CanonicalUpTo(content, offset, previous, result)
    {
      CanonicalAdvance(content, offset, previous, result);
      var codePoint, length := DecodeUtf8(content, offset);
      if codePoint == UNKNOWN_CODE_POINT {
        assert content[offset..offset + length] == [content[offset]];
        result := result + [content[offset]];
        previous := UNKNOWN_CODE_POINT;
        offset := offset + 1;
        continue;
      }
      if !IsMarkChannel(codePoint, previous) {
        result := result + content[offset..offset + length];
        previous := codePoint;
      }
      offset := offset + length;
    }
    CanonicalEnd(content, previous, result);
  }

  // ----- what the canonical form promises -----

  lemma {:induction false} KeepSelects(ts: seq<Token>, previous: int)
    ensures |Keep(ts, previous)| <= |ts|
    ensures forall t | t in Keep(ts, previous) :: t in ts && (t.codePoint == UNKNOWN_CODE_POINT || !IsMark(t))
  {
    if ts != [] {
      KeepSelects(ts[1..], previous);
      KeepSelects(ts[1..], ts[0].codePoint);
    }
  }

  /** Once the channel is gone there is nothing left to remove. */
  lemma {:induction false} KeepIdempotent(ts: seq<Token>, previous: int)
    ensures Keep(Keep(ts, previous), previous) == Keep(ts, previous)
  {
    if ts != [] {
      KeepIdempotent(ts[1..], previous);
      KeepIdempotent(ts[1..], ts[0].codePoint);
    }
  }

  lemma KeepProper(ts: seq<Token>, previous: int)
    requires Proper(ts)
    ensures Proper(Keep(ts, previous))
  {
    KeepSelects(ts, previous);
    forall i | 0 <= i < |Keep(ts, previous)| ensures ProperToken(Keep(ts, previous)[i]) {
      var t := Keep(ts, previous)[i];
      var k :| 0 <= k < |ts| && ts[k] == t;
    }
  }

  /** On valid text the canonical form is valid, free of U+200B, and its own canonical form. */
  lemma CanonicalIsStable(content: seq<byte>)
    requires ValidText(content)
    ensures ValidText(Canonical(content))
    ensures HasNoMark(Scan(Canonical(content)))
    ensures Canonical(Canonical(content)) == Canonical(content)
  {
    ValidIffProper(content);
    var kept := Keep(Scan(content), UNKNOWN_CODE_POINT);
    KeepProper(Scan(content), UNKNOWN_CODE_POINT);
    KeepSelects(Scan(content), UNKNOWN_CODE_POINT);
    ProperIsValid(kept);
    KeepIdempotent(Scan(content), UNKNOWN_CODE_POINT);
  }

  lemma {:induction false} KeepShortens(ts: seq<Token>, previous: int)
    requires forall t | t in ts :: t.bytes != []
    ensures |Flatten(Keep(ts, previous))| <= |Flatten(ts)|
    ensures |Flatten(Keep(ts, previous))| == |Flatten(ts)| ==> Keep(ts, previous) == ts
  {
    if ts != [] {
      KeepShortens(ts[1..], previous);
      KeepShortens(ts[1..], ts[0].codePoint);
      assert ts == [ts[0]] + ts[1..];
    }
  }

  lemma {:induction false} ScanTokensNonempty(s: seq<byte>)
    ensures forall t | t in Scan(s) :: t.bytes != []
  {
    if s != [] {
      ScanTokensNonempty(s[|Decode(s).bytes|..]);
    }
  }

  /** Canonicalisation never lengthens a text, valid or not. */
  lemma CanonicalNeverLonger(content: seq<byte>)
    ensures |Canonical(content)| <= |content|
  {
    ScanTokensNonempty(content);
    KeepShortens(Scan(content), UNKNOWN_CODE_POINT);
    FlattenScan(content);
  }

  /** For arbitrary bytes: a text is its own canonical form exactly when no token of it is in the channel. */
  lemma OwnCanonicalForm(content: seq<byte>)
    ensures Canonical(content) == content <==> Keep(Scan(content), UNKNOWN_CODE_POINT) == Scan(content)
  {
    ScanTokensNonempty(content);
    KeepShortens(Scan(content), UNKNOWN_CODE_POINT);
    FlattenScan(content);
  }

  /** E2 80 E2 80 8B 8B: removing the inner U+200B brings an outer one together. */
  const UNSTABLE: seq<byte> := [0xE2, 0x80, 0xE2, 0x80, 0x8B, 0x8B]

  /** An undecodable byte. */
  function Stray(b: byte): Token {
    Token(UNKNOWN_CODE_POINT, [b])
  }

  const INNER: Token := Token(MARK_CODE_POINT, [0xE2, 0x80, 0x8B])

  lemma MarkBytes()
    ensures Encode(MARK_CODE_POINT) == INNER.bytes
  {
  }

  lemma ScanUnstable()
    ensures Scan(UNSTABLE) == [Stray(0xE2), Stray(0x80), INNER, Stray(0x8B)]
    ensures Scan(INNER.bytes) == [INNER]
  {
    MarkBytes();
    var tail := UNSTABLE[2..];
    assert tail == Encode(MARK_CODE_POINT) + [0x8B] && tail[3..] == [0x8B];
    DecodeEncoded(MARK_CODE_POINT, [0x8B]);
    assert Decode([0x8B]) == Stray(0x8B) && [0x8B][1..] == [];
    assert UNSTABLE[1..][1..] == tail;
    assert Decode(UNSTABLE[1..]) == Stray(0x80);
    assert Decode(UNSTABLE) == Stray(0xE2) by {
      assert !Continuation(UNSTABLE[2]);
    }
    DecodeEncoded(MARK_CODE_POINT, []);
    assert INNER.bytes + [] == INNER.bytes && INNER.bytes[3..] == [];
    hide Decode, Encode;
    assert Scan([0x8B]) == [Stray(0x8B)];
    assert Scan(tail) == [INNER, Stray(0x8B)];
    assert Scan(UNSTABLE[1..]) == [Stray(0x80), INNER, Stray(0x8B)];
  }

  lemma KeepUnstable()
    ensures var kept := Keep([Stray(0xE2), Stray(0x80), INNER, Stray(0x8B)], UNKNOWN_CODE_POINT);
            Flatten(kept) == INNER.bytes
    ensures Keep([INNER], UNKNOWN_CODE_POINT) == []
  {
    var a, b, c, u := Stray(0xE2), Stray(0x80), Stray(0x8B), UNKNOWN_CODE_POINT;
    assert [a, b, INNER, c][1..] == [b, INNER, c] && [b, INNER, c][1..] == [INNER, c] && [INNER, c][1..] == [c];
    assert [c][1..] == [] && Keep([c], u) == [c];
    assert Keep([INNER, c], u) == [c];
    assert Keep([b, INNER, c], u) == [b, c];
    assert Keep([a, b, INNER, c], u) == [a, b, c];
    assert [a, b, c][1..] == [b, c] && [b, c][1..] == [c];
    assert Flatten([c]) == [0x8B];
    assert Flatten([b, c]) == [0x80, 0x8B];
  }

  /** Outside valid text one pass need not be enough. */
  lemma CanonicalUnstableOutsideUtf8()
    ensures Canonical(UNSTABLE) == [0xE2, 0x80, 0x8B]
    ensures Canonical(Canonical(UNSTABLE)) == []
  {
    ScanUnstable();
    KeepUnstable();
    assert Flatten([]) == [];
  }
}
