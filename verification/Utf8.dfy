/**
 The two UTF-8 decoders of the core library: a lenient one that marks undecodable bytes,
 and a strict validator. Sections 3 and 4 of RFC 3629 supply the independent definition both
 are measured against: a text is valid when it is the encoding of some scalar values.
 */
module Utf8 {
  import opened Bytes

  const UNKNOWN_CODE_POINT := 0xFFFF_FFFF
  const MAX_CODE_POINT := 0x10FFFF

  /** Unicode scalar values: every code point that is not a surrogate. */
  type Scalar = c: int | 0 <= c < 0xD800 || 0xDFFF < c <= 0x10FFFF

  /** The table of section 3 of RFC 3629. */
  function Encode(c: Scalar): seq<byte> {
    var high := c / 64;
    var higher := high / 64;
    if c < 0x80 then [c]
    else if c < 0x800 then [0xC0 + high, 0x80 + c % 64]
    else if c < 0x10000 then [0xE0 + higher, 0x80 + high % 64, 0x80 + c % 64]
    else [0xF0 + higher / 64, 0x80 + higher % 64, 0x80 + high % 64, 0x80 + c % 64]
  }

  function EncodeAll(cs: seq<Scalar>): seq<byte> {
    if cs == [] then [] else Encode(cs[0]) + EncodeAll(cs[1..])
  }

  ghost predicate ValidText(s: seq<byte>) {
    exists cs: seq<Scalar> :: EncodeAll(cs) == s
  }

  // ----- the lenient decoder, as a function on the bytes from the offset on -----

  /** One step of a scan: what was decoded, and the bytes it was decoded from. */
  datatype Token = Token(codePoint: int, bytes: seq<byte>)

  predicate Continuation(b: byte) {
    0x80 <= b < 0xC0
  }

  /** Length announced by a lead byte; zero when the byte cannot lead. */
  function LeadLength(b: byte): nat {
    if b < 0x80 then 1
    else if 0xC0 <= b < 0xE0 then 2
    else if 0xE0 <= b < 0xF0 then 3
    else if 0xF0 <= b < 0xF8 then 4
    else 0
  }

  function LeadBits(b: byte): nat {
    if b < 0x80 then b
    else if 0xC0 <= b < 0xE0 then b - 0xC0
    else if 0xE0 <= b < 0xF0 then b - 0xE0
    else if 0xF0 <= b < 0xF8 then b - 0xF0
    else 0
  }

  /** The code point accumulated from the first `k` bytes. */
  function Accumulated(s: seq<byte>, k: nat): int
    requires 1 <= k <= |s|
  {
    if k == 1 then LeadBits(s[0]) else Accumulated(s, k - 1) * 64 + s[k - 1] - 0x80
  }

  predicate Decodable(s: seq<byte>)
    requires s != []
  {
    var n := LeadLength(s[0]);
    n != 0 && n <= |s| && forall i | 1 <= i < n :: Continuation(s[i])
  }

  function Decode(s: seq<byte>): (t: Token)
    requires s != []
    ensures 1 <= |t.bytes| <= |s| && t.bytes == s[..|t.bytes|]
  {
    if Decodable(s) then Token(Accumulated(s, LeadLength(s[0])), s[..LeadLength(s[0])])
    else Token(UNKNOWN_CODE_POINT, s[..1])
  }

  function Scan(s: seq<byte>): seq<Token> {
    if s == [] then [] else var t := Decode(s); [t] + Scan(s[|t.bytes|..])
  }

  function Flatten(ts: seq<Token>): seq<byte> {
    if ts == [] then [] else ts[0].bytes + Flatten(ts[1..])
  }

  /** A token that is the encoding of the scalar value it reports. */
  predicate ProperToken(t: Token) {
    (0 <= t.codePoint < 0xD800 || 0xDFFF < t.codePoint <= MAX_CODE_POINT) && t.bytes == Encode(t.codePoint)
  }

  predicate Proper(ts: seq<Token>) {
    forall i | 0 <= i < |ts| :: ProperToken(ts[i])
  }

  // ----- the decoders of the library -----

  method DecodeUtf8(content: seq<byte>, offset: nat) returns (codePoint: int, length: nat)
    requires offset < |content|
    ensures 1 <= length <= |content| - offset
    ensures Decode(content[offset..]) == Token(codePoint, content[offset..offset + length])
  {
    ghost var s := content[offset..];
    var lead := content[offset];
    length := 1;
    if lead < 0x80 {
      codePoint := lead;
    } else if lead / 32 == 6 {
      length, codePoint := 2, lead % 32;
    } else if lead / 16 == 14 {
      length, codePoint := 3, lead % 16;
    } else if lead / 8 == 30 {
      length, codePoint := 4, lead % 8;
    } else {
      return UNKNOWN_CODE_POINT, 1;
    }
    if offset + length > |content| {
      return UNKNOWN_CODE_POINT, 1;
    }
    var index := 1;
    while index < length
      invariant 1 <= index <= length == LeadLength(s[0]) <= |s|
      invariant forall i | 1 <= i < index :: Continuation(s[i])
      invariant codePoint == Accumulated(s, index)
    {
      var b := content[offset + index];
      assert b == s[index];
      if b / 64 != 2 {
        return UNKNOWN_CODE_POINT, 1;
      }
      codePoint := codePoint * 64 + b % 64;
      index := index + 1;
    }
  }

  method IsValidUtf8(content: seq<byte>) returns (valid: bool)
    ensures valid <==> ValidText(content)
  {
    hide ValidText;
    var offset := 0;
    while offset < |content|
      invariant 0 <= offset <= |content|
      invariant ValidText(content) <==> ValidText(content[offset..])
    {
      ghost var s := content[offset..];
      StrictStep(s);
      var lead := content[offset];
      var length := 0;
      var codePoint := 0;
      if lead < 0x80 {
        length, codePoint := 1, lead;
      } else if 0xC2 <= lead <= 0xDF {
        length, codePoint := 2, lead % 32;
      } else if 0xE0 <= lead <= 0xEF {
        length, codePoint := 3, lead % 16;
      } else if 0xF0 <= lead <= 0xF4 {
        length, codePoint := 4, lead % 8;
      } else {
        return false;
      }
      if offset + length > |content| {
        return false;
      }
      var index := 1;
      while index < length
        invariant 1 <= index <= length == LeadLength(s[0]) <= |s|
        invariant forall i | 1 <= i < index :: Continuation(s[i])
        invariant codePoint == Accumulated(s, index)
      {
        var b := content[offset + index];
        assert b == s[index];
        if b / 64 != 2 {
          return false;
        }
        codePoint := codePoint * 64 + b % 64;
        index := index + 1;
      }
      var least := if length <= 1 then 0 else if length == 2 then 0x80 else if length == 3 then 0x800 else 0x10000;
      var overlong := codePoint < least;
      var surrogate := 0xD800 <= codePoint <= 0xDFFF;
      if overlong || surrogate || codePoint > MAX_CODE_POINT {
        return false;
      }
      assert s[length..] == content[offset + length..];
      offset := offset + length;
    }
    EmptyIsValid();
    assert content[offset..] == [];
    return true;
  }

  // ----- one code point -----

  lemma AccumulatedValues(s: seq<byte>)
    requires s != []
    ensures Accumulated(s, 1) == LeadBits(s[0])
    ensures |s| >= 2 ==> Accumulated(s, 2) == LeadBits(s[0]) * 64 + s[1] - 0x80
    ensures |s| >= 3 ==> Accumulated(s, 3) == (LeadBits(s[0]) * 64 + s[1] - 0x80) * 64 + s[2] - 0x80
    ensures |s| >= 4 ==>
            Accumulated(s, 4) == ((LeadBits(s[0]) * 64 + s[1] - 0x80) * 64 + s[2] - 0x80) * 64 + s[3] - 0x80
  {
  }

  function TwoBytes(a: int, b: int): int {
    (a - 0xC0) * 0x40 + (b - 0x80)
  }

  function ThreeBytes(a: int, b: int, c: int): int {
    (a - 0xE0) * 0x1000 + (b - 0x80) * 0x40 + (c - 0x80)
  }

  function FourBytes(a: int, b: int, c: int, d: int): int {
    (a - 0xF0) * 0x4_0000 + (b - 0x80) * 0x1000 + (c - 0x80) * 0x40 + (d - 0x80)
  }

  predicate Tail(s: seq<byte>, n: nat) {
    n <= |s| && forall i | 1 <= i < n :: 0x80 <= s[i] <= 0xBF
  }

  /**
   What the lenient decoder makes of any bytes: up to four forms by the lead byte, overlong encodings,
   surrogates and values beyond the last code point included; anything else is a single unknown byte.
   */
  lemma LenientForms(s: seq<byte>)
    requires s != []
    ensures var t := Decode(s);
            if s[0] <= 0x7F then t == Token(s[0], [s[0]])
            else if 0xC0 <= s[0] <= 0xDF && Tail(s, 2) then
              t == Token(TwoBytes(s[0], s[1]), s[..2])
            else if 0xE0 <= s[0] <= 0xEF && Tail(s, 3) then
              t == Token(ThreeBytes(s[0], s[1], s[2]), s[..3])
            else if 0xF0 <= s[0] <= 0xF7 && Tail(s, 4) then
              t == Token(FourBytes(s[0], s[1], s[2], s[3]), s[..4])
            else t == Token(UNKNOWN_CODE_POINT, [s[0]])
  {
    AccumulatedValues(s);
    hide Accumulated;
  }

  /** The unknown marker always stands for a single byte. */
  lemma UnknownIsOneByte(s: seq<byte>)
    requires s != []
    ensures Decode(s).codePoint == UNKNOWN_CODE_POINT <==> !Decodable(s)
    ensures Decode(s).codePoint == UNKNOWN_CODE_POINT ==> |Decode(s).bytes| == 1
  {
    AccumulatedValues(s);
  }

  /** Reading two continuation bytes and splitting the value again are inverse steps. */
  lemma Digits(p: nat, b: byte)
    requires Continuation(b)
    ensures (p * 64 + (b - 0x80)) / 64 == p && (p * 64 + (b - 0x80)) % 64 == b - 0x80
  {
  }

  /** The lenient decoder reads back the scalar value at the front of an encoded text. */
  lemma DecodeEncoded(c: Scalar, rest: seq<byte>)
    ensures Decode(Encode(c) + rest) == Token(c, Encode(c))
  {
    var s := Encode(c) + rest;
    var n := |Encode(c)|;
    EncodedLead(c);
    assert s[..n] == Encode(c);
    assert forall i | 0 <= i < n :: s[i] == Encode(c)[i];
    AccumulatedValues(s);
    AccumulatedValues(Encode(c));
    assert Accumulated(s, n) == Accumulated(Encode(c), n);
  }

  lemma EncodedLead(c: Scalar)
    ensures LeadLength(Encode(c)[0]) == |Encode(c)| && Decodable(Encode(c))
    ensures Accumulated(Encode(c), |Encode(c)|) == c
  {
    AccumulatedValues(Encode(c));
  }

  /** What the strict validator asks of one code point. */
  predicate Strict(s: seq<byte>)
    requires s != []
  {
    && Decodable(s)
    && (s[0] < 0x80 || 0xC2 <= s[0] <= 0xF4)
    && var n := LeadLength(s[0]);
    && var c := Accumulated(s, n);
    && c >= (if n == 1 then 0 else if n == 2 then 0x80 else if n == 3 then 0x800 else 0x10000)
    && !(0xD800 <= c <= 0xDFFF)
    && c <= MAX_CODE_POINT
  }

  /** The conditions of the strict validator single out the tokens that encode a scalar value. */
  lemma StrictIsProper(s: seq<byte>)
    requires s != []
    ensures ProperToken(Decode(s)) <==> Strict(s)
  {
    if Strict(s) {
      StrictEncodes(s);
    }
    if ProperToken(Decode(s)) {
      var c: Scalar := Decode(s).codePoint;
      var rest := s[|Encode(c)|..];
      assert s == Encode(c) + rest;
      EncodedLead(c);
      DecodeEncoded(c, rest);
      EncodedIsStrict(c);
    }
  }

  lemma EncodedIsStrict(c: Scalar)
    ensures Encode(c)[0] < 0x80 || 0xC2 <= Encode(c)[0] <= 0xF4
    ensures |Encode(c)| == 2 ==> c >= 0x80
    ensures |Encode(c)| == 3 ==> c >= 0x800
    ensures |Encode(c)| == 4 ==> c >= 0x10000
  {
  }

  lemma StrictOne(s: seq<byte>)
    requires s != [] && LeadLength(s[0]) == 1 && Strict(s)
    ensures ProperToken(Decode(s))
  {
    assert s[..1] == [s[0]];
  }

  lemma StrictTwo(s: seq<byte>)
    requires s != [] && LeadLength(s[0]) == 2 && Strict(s)
    ensures ProperToken(Decode(s))
  {
    AccumulatedValues(s);
    var c: Scalar := Accumulated(s, 2);
    hide Accumulated;
    Digits(LeadBits(s[0]), s[1]);
    assert s[..2] == [s[0], s[1]] == Encode(c);
  }

  lemma StrictThree(s: seq<byte>)
    requires s != [] && LeadLength(s[0]) == 3 && Strict(s)
    ensures ProperToken(Decode(s))
  {
    AccumulatedValues(s);
    var c: Scalar := Accumulated(s, 3);
    var p := Accumulated(s, 2);
    hide Accumulated;
    Digits(LeadBits(s[0]), s[1]);
    Digits(p, s[2]);
    assert s[..3] == [s[0], s[1], s[2]] == Encode(c);
  }

  lemma StrictFour(s: seq<byte>)
    requires s != [] && LeadLength(s[0]) == 4 && Strict(s)
    ensures ProperToken(Decode(s))
  {
    AccumulatedValues(s);
    var c: Scalar := Accumulated(s, 4);
    var p, q := Accumulated(s, 2), Accumulated(s, 3);
    hide Accumulated;
    Digits(LeadBits(s[0]), s[1]);
    Digits(p, s[2]);
    Digits(q, s[3]);
    assert s[..4] == [s[0], s[1], s[2], s[3]] == Encode(c);
  }

  lemma StrictEncodes(s: seq<byte>)
    requires s != [] && Strict(s)
    ensures ProperToken(Decode(s))
  {
    hide Accumulated, Decode, Encode, ProperToken;
    match LeadLength(s[0])
    case 1 => StrictOne(s);
    case 2 => StrictTwo(s);
    case 3 => StrictThree(s);
    case _ => StrictFour(s);
  }

  lemma ValidStep(s: seq<byte>)
    requires s != []
    ensures ValidText(s) <==> ProperToken(Decode(s)) && ValidText(s[|Decode(s).bytes|..])
  {
    hide Decode, Encode;
    var t := Decode(s);
    if ValidText(s) {
      var cs: seq<Scalar> :| EncodeAll(cs) == s;
      DecodeEncoded(cs[0], EncodeAll(cs[1..]));
      assert s[|t.bytes|..] == EncodeAll(cs[1..]);
    }
    if ProperToken(t) && ValidText(s[|t.bytes|..]) {
      var rest: seq<Scalar> :| EncodeAll(rest) == s[|t.bytes|..];
      var cs: seq<Scalar> := [t.codePoint] + rest;
      assert cs[1..] == rest;
      assert EncodeAll(cs) == s;
    }
  }

  lemma StrictStep(s: seq<byte>)
    requires s != []
    ensures ValidText(s) <==> Strict(s) && ValidText(s[LeadLength(s[0])..])
  {
    ValidStep(s);
    StrictIsProper(s);
  }

  lemma EmptyIsValid()
    ensures ValidText([])
  {
    assert EncodeAll([]) == [];
  }

  // ----- whole texts -----

  lemma {:induction false} ScanFlatten(ts: seq<Token>)
    requires Proper(ts)
    ensures Scan(Flatten(ts)) == ts
  {
    if ts != [] {
      DecodeEncoded(ts[0].codePoint, Flatten(ts[1..]));
      assert Flatten(ts)[|ts[0].bytes|..] == Flatten(ts[1..]);
      ScanFlatten(ts[1..]);
    }
  }

  lemma {:induction false} FlattenScan(s: seq<byte>)
    ensures Flatten(Scan(s)) == s
  {
    if s != [] {
      FlattenScan(s[|Decode(s).bytes|..]);
      assert Scan(s)[1..] == Scan(s[|Decode(s).bytes|..]);
    }
  }

  /** A text is valid exactly when the lenient scan finds nothing but encoded scalar values. */
  lemma {:induction false} ValidIffProper(s: seq<byte>)
    ensures ValidText(s) <==> Proper(Scan(s))
  {
    if s == [] {
      assert EncodeAll([]) == s;
    } else {
      var t := Decode(s);
      var rest := s[|t.bytes|..];
      ValidStep(s);
      ValidIffProper(rest);
      assert Scan(s) == [t] + Scan(rest);
      assert Proper(Scan(s)) ==> Scan(s)[0] == t && Proper(Scan(s)[1..]);
    }
  }

  lemma ProperIsValid(ts: seq<Token>)
    requires Proper(ts)
    ensures ValidText(Flatten(ts)) && Scan(Flatten(ts)) == ts
  {
    ScanFlatten(ts);
    ValidIffProper(Flatten(ts));
  }

  /** Scanning in two parts. */
  lemma {:induction false} FlattenAppend(a: seq<Token>, b: seq<Token>)
    ensures Flatten(a + b) == Flatten(a) + Flatten(b)
  {
    if a == [] {
      assert a + b == b;
    } else {
      assert (a + b)[1..] == a[1..] + b;
      FlattenAppend(a[1..], b);
    }
  }

  /**
   On valid text the two decoders agree: at the boundary before the k-th scalar value the lenient
   decoder returns that value and its length, never the unknown marker.
   */
  lemma {:induction false} DecodersAgree(cs: seq<Scalar>, k: nat)
    requires k < |cs|
    ensures var s := EncodeAll(cs);
            var offset := |EncodeAll(cs[..k])|;
            offset < |s| && Decode(s[offset..]) == Token(cs[k], Encode(cs[k]))
  {
    if k == 0 {
      assert cs[..0] == [];
      DecodeEncoded(cs[0], EncodeAll(cs[1..]));
      assert EncodeAll(cs)[0..] == EncodeAll(cs);
    } else {
      DecodersAgree(cs[1..], k - 1);
      assert cs[1..][..k - 1] == cs[..k][1..];
      var offset := |EncodeAll(cs[..k])|;
      assert offset == |Encode(cs[0])| + |EncodeAll(cs[1..][..k - 1])|;
      assert EncodeAll(cs)[offset..] == EncodeAll(cs[1..])[offset - |Encode(cs[0])|..];
    }
  }
}
