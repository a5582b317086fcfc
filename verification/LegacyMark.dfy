/**
 The legacy frame: 72 bits of payload guarded by a 16-bit checksum. The library computes the
 checksum on 16-bit integers; here that computation is tied to a linear feedback register over
 single bits, where its error detection can be proved.
 */
module LegacyMark {
  import opened Bytes
  import opened MarkCodec

  const LEGACY_VERSION := 1
  const LEGACY_PAYLOAD_SIZE := 9
  const LEGACY_PAYLOAD_BIT_COUNT := LEGACY_PAYLOAD_SIZE * BITS_PER_BYTE
  const LEGACY_CHECKSUM_BIT_COUNT := 16
  const LEGACY_BIT_COUNT := LEGACY_PAYLOAD_BIT_COUNT + LEGACY_CHECKSUM_BIT_COUNT

  const CRC_POLYNOMIAL := 0x1021
  const CRC_INITIAL := 0xFFFF
  const CRC_HIGH_BIT := 0x8000

  // ----- the register over bits -----

  type Register = s: seq<bit> | |s| == 16 witness Zeros(16)

  /** The bits of the polynomial 0x1021. */
  function Polynomial(): Register {
    seq(16, i => if i == 3 || i == 10 || i == 15 then 1 else 0)
  }

  function XorBit(a: bit, b: bit): bit {
    if a == b then 0 else 1
  }

  function Xor(a: seq<bit>, b: seq<bit>): (s: seq<bit>)
    requires |a| == |b|
    ensures |s| == |a|
    ensures forall i | 0 <= i < |a| :: s[i] == XorBit(a[i], b[i])
  {
    seq(|a|, i requires 0 <= i < |a| => XorBit(a[i], b[i]))
  }

  function ShiftLeft(r: Register): Register {
    r[1..] + [0]
  }

  function Step(r: Register): Register {
    if r[0] == 1 then Xor(ShiftLeft(r), Polynomial()) else ShiftLeft(r)
  }

  function Steps(r: Register, n: nat): Register {
    if n == 0 then r else Step(Steps(r, n - 1))
  }

  /** `bits` at the top of a register. */
  function AtTop(bits: seq<bit>): Register
    requires |bits| <= 16
  {
    bits + Zeros(16 - |bits|)
  }

  /** The register after feeding a bit string, one bit at a time. */
  function Feed(r: Register, bits: seq<bit>): Register {
    if bits == [] then r else Step(Xor(Feed(r, bits[..|bits| - 1]), AtTop([bits[|bits| - 1]])))
  }

  function Ones(): Register {
    seq(16, i => 1)
  }

  /** A frame is legacy when it carries version 1 and the checksum of its payload. */
  predicate IsLegacy(frame: seq<bit>)
    requires |frame| >= LEGACY_BIT_COUNT
  {
    && ValueOf(frame[..VERSION_BIT_COUNT]) == LEGACY_VERSION
    && frame[LEGACY_PAYLOAD_BIT_COUNT..LEGACY_BIT_COUNT] == Feed(Ones(), frame[..LEGACY_PAYLOAD_BIT_COUNT])
  }

  // ----- linearity -----

  lemma StepAt(r: Register, i: nat)
    requires i < 16
    ensures Step(r)[i] == XorBit(if i < 15 then r[i + 1] else 0, if r[0] == 1 then Polynomial()[i] else 0)
  {
  }

  lemma StepLinear(a: Register, b: Register)
    ensures Step(Xor(a, b)) == Xor(Step(a), Step(b))
  {
    forall i | 0 <= i < 16 ensures Step(Xor(a, b))[i] == Xor(Step(a), Step(b))[i] {
      StepAt(Xor(a, b), i);
      StepAt(a, i);
      StepAt(b, i);
    }
  }

  lemma {:induction false} StepsLinear(a: Register, b: Register, n: nat)
    ensures Steps(Xor(a, b), n) == Xor(Steps(a, n), Steps(b, n))
  {
    if n > 0 {
      StepsLinear(a, b, n - 1);
      StepLinear(Steps(a, n - 1), Steps(b, n - 1));
    }
  }

  lemma XorRearrange(a: seq<bit>, b: seq<bit>, c: seq<bit>, d: seq<bit>)
    requires |a| == |b| == |c| == |d|
    ensures Xor(Xor(a, b), Xor(c, d)) == Xor(Xor(a, c), Xor(b, d))
  {
  }

  /** Feeding the sum of two bit strings gives the sum of the registers. */
  lemma {:induction false} FeedLinear(a: Register, b: Register, u: seq<bit>, v: seq<bit>)
    requires |u| == |v|
    ensures Feed(Xor(a, b), Xor(u, v)) == Xor(Feed(a, u), Feed(b, v))
  {
    if u != [] {
      var n := |u| - 1;
      FeedLinear(a, b, u[..n], v[..n]);
      XorSlice(u, v, n);
      var fu, fv := Feed(a, u[..n]), Feed(b, v[..n]);
      var tu, tv := AtTop([u[n]]), AtTop([v[n]]);
      assert AtTop([Xor(u, v)[n]]) == Xor(tu, tv);
      XorRearrange(fu, fv, tu, tv);
      StepLinear(Xor(fu, tu), Xor(fv, tv));
    }
  }

  /** The step loses nothing: only the zero register steps to zero. */
  lemma StepInvertible(r: Register)
    ensures Step(r) == Zeros(16) ==> r == Zeros(16)
  {
    if Step(r) == Zeros(16) {
      StepAt(r, 15);
      assert r[0] == 0;
      forall i | 1 <= i < 16 ensures r[i] == 0 {
        StepAt(r, i - 1);
        assert Step(r)[i - 1] == 0;
      }
      assert forall i | 0 <= i < 16 :: r[i] == 0;
      assert r == Zeros(16);
    }
  }

  lemma {:induction false} StepsInvertible(r: Register, n: nat)
    ensures Steps(r, n) == Zeros(16) ==> r == Zeros(16)
  {
    if n > 0 {
      StepInvertible(Steps(r, n - 1));
      StepsInvertible(r, n - 1);
    }
  }

  lemma {:induction false} StepsOfZero(n: nat)
    ensures Steps(Zeros(16), n) == Zeros(16)
  {
    if n > 0 {
      StepsOfZero(n - 1);
      assert Step(Zeros(16)) == Zeros(16);
    }
  }

  // ----- feeding words -----

  lemma FeedLast(r: Register, bits: seq<bit>, last: bit)
    ensures Feed(r, bits + [last]) == Step(Xor(Feed(r, bits), AtTop([last])))
  {
    assert (bits + [last])[..|bits|] == bits;
  }

  lemma {:induction false} FeedAppend(r: Register, u: seq<bit>, v: seq<bit>)
    ensures Feed(r, u + v) == Feed(Feed(r, u), v)
  {
    if v == [] {
      assert u + v == u;
    } else {
      var front, last := v[..|v| - 1], v[|v| - 1];
      FeedAppend(r, u, front);
      FeedLast(r, u + front, last);
      FeedLast(Feed(r, u), front, last);
      assert u + v == u + front + [last];
      assert v == front + [last];
    }
  }

  lemma {:induction false} FeedZeros(r: Register, n: nat)
    ensures Feed(r, Zeros(n)) == Steps(r, n)
  {
    hide Xor, AtTop, Step;
    if n > 0 {
      FeedZeros(r, n - 1);
      assert Zeros(n)[..n - 1] == Zeros(n - 1);
      NothingAdded(Steps(r, n - 1));
      assert Zeros(n)[n - 1] == 0;
    }
  }

  lemma NothingAdded(r: Register)
    ensures Xor(r, AtTop([0])) == r
  {
  }

  lemma ShiftTop(last: bit, k: nat)
    requires k < 15
    ensures Step(Zeros(k + 1) + [last] + Zeros(14 - k)) == Zeros(k) + [last] + Zeros(15 - k)
  {
  }

  /** A single bit placed `k` positions down reaches the top after `k` steps. */
  lemma {:induction false} StepsToTop(last: bit, k: nat)
    requires k < 16
    ensures Steps(Zeros(k) + [last] + Zeros(15 - k), k) == AtTop([last])
  {
    if k == 0 {
      assert Zeros(0) + [last] + Zeros(15) == AtTop([last]);
    } else {
      StepsShift(Zeros(k) + [last] + Zeros(15 - k), k - 1);
      ShiftTop(last, k - 1);
      StepsToTop(last, k - 1);
    }
  }

  lemma {:induction false} StepsShift(r: Register, n: nat)
    ensures Steps(r, n + 1) == Steps(Step(r), n)
  {
    if n > 0 {
      StepsShift(r, n - 1);
    }
  }

  /** Feeding up to sixteen bits is adding them at the top and stepping as often. */
  lemma {:induction false} FeedWord(r: Register, bits: seq<bit>)
    requires |bits| <= 16
    ensures Feed(r, bits) == Steps(Xor(r, AtTop(bits)), |bits|)
  {
    if bits == [] {
      assert Xor(r, AtTop([])) == r;
    } else {
      var n := |bits| - 1;
      var last := bits[n];
      FeedWord(r, bits[..n]);
      var low: Register := Zeros(n) + [last] + Zeros(15 - n);
      assert Xor(Xor(r, AtTop(bits[..n])), low) == Xor(r, AtTop(bits));
      StepsLinear(Xor(r, AtTop(bits[..n])), low, n);
      StepsToTop(last, n);
    }
  }

  // ----- burst errors -----

  /** The register after the whole legacy frame, checksum included. */
  function Residue(frame: seq<bit>): Register
    requires |frame| >= LEGACY_BIT_COUNT
  {
    Feed(Ones(), frame[..LEGACY_BIT_COUNT])
  }

  lemma LegacyResidue(frame: seq<bit>)
    requires |frame| >= LEGACY_BIT_COUNT && IsLegacy(frame)
    ensures Residue(frame) == Zeros(16)
  {
    var payload := frame[..LEGACY_PAYLOAD_BIT_COUNT];
    var checksum := frame[LEGACY_PAYLOAD_BIT_COUNT..LEGACY_BIT_COUNT];
    assert frame[..LEGACY_BIT_COUNT] == payload + checksum;
    FeedAppend(Ones(), payload, checksum);
    FeedWord(checksum, checksum);
    assert AtTop(checksum) == checksum;
    XorZero(checksum);
    StepsOfZero(16);
  }

  /** An error pattern that is zero outside the sixteen bits from `start`. */
  predicate Burst(error: seq<bit>, start: nat) {
    forall i | 0 <= i < |error| && !(start <= i < start + 16) :: error[i] == 0
  }

  lemma BurstResidue(error: seq<bit>, start: nat)
    requires |error| == LEGACY_BIT_COUNT && start + 16 <= LEGACY_BIT_COUNT && Burst(error, start)
    requires error != Zeros(LEGACY_BIT_COUNT)
    ensures Feed(Zeros(16), error) != Zeros(16)
  {
    var word := error[start..start + 16];
    var rest := LEGACY_BIT_COUNT - start - 16;
    assert error == Zeros(start) + word + Zeros(rest);
    FeedAppend(Zeros(16), Zeros(start) + word, Zeros(rest));
    FeedAppend(Zeros(16), Zeros(start), word);
    FeedZeros(Zeros(16), start);
    StepsOfZero(start);
    FeedWord(Zeros(16), word);
    assert AtTop(word) == word;
    XorZero(word);
    FeedZeros(Steps(word, 16), rest);
    StepsInvertible(Steps(word, 16), rest);
    StepsInvertible(word, 16);
    ZerosAppend(start, 16);
    ZerosAppend(start + 16, rest);
  }

  lemma ZerosAppend(a: nat, b: nat)
    ensures Zeros(a) + Zeros(b) == Zeros(a + b)
  {
  }

  lemma DamagedResidue(frame: Frame, error: Frame, start: nat)
    requires Residue(frame) == Zeros(16)
    requires start + 16 <= LEGACY_BIT_COUNT && Burst(error, start) && error != Zeros(MARK_BIT_COUNT)
    ensures Residue(Xor(frame, error)) != Zeros(16)
  {
    var e := error[..LEGACY_BIT_COUNT];
    ZeroError(error, start);
    BurstResidue(e, start);
    FeedLinear(Ones(), Zeros(16), frame[..LEGACY_BIT_COUNT], e);
    XorZero(Ones());
    XorZero(Feed(Zeros(16), e));
    XorSlice(frame, error, LEGACY_BIT_COUNT);
  }

  lemma ZeroError(error: Frame, start: nat)
    requires start + 16 <= LEGACY_BIT_COUNT && Burst(error, start)
    ensures error[..LEGACY_BIT_COUNT] == Zeros(LEGACY_BIT_COUNT) ==> error == Zeros(MARK_BIT_COUNT)
  {
    assert forall i | 0 <= i < LEGACY_BIT_COUNT :: error[i] == error[..LEGACY_BIT_COUNT][i];
  }

  lemma XorZero(r: Register)
    ensures Xor(r, Zeros(16)) == r && Xor(Zeros(16), r) == r && Xor(r, r) == Zeros(16)
  {
  }

  lemma XorSlice(a: seq<bit>, b: seq<bit>, n: nat)
    requires n <= |a| == |b|
    ensures Xor(a, b)[..n] == Xor(a[..n], b[..n])
  {
  }

  /**
   Every nonzero error confined to sixteen consecutive bits of the legacy frame turns an accepted
   frame into a rejected one.
   */
  lemma BurstDetected(frame: Frame, error: Frame, start: nat)
    requires IsLegacy(frame)
    requires start + 16 <= LEGACY_BIT_COUNT && Burst(error, start) && error != Zeros(MARK_BIT_COUNT)
    ensures !IsLegacy(Xor(frame, error))
  {
    LegacyResidue(frame);
    DamagedResidue(frame, error, start);
    if IsLegacy(Xor(frame, error)) {
      LegacyResidue(Xor(frame, error));
    }
  }

  // ----- which frames are accepted -----

  /**
   The register bit by bit: one more input bit shifts it by one place, and when the bit that falls out
   differs from the input bit, the bits 12, 5 and 0 are flipped.
   */
  lemma FeedTaps(r: Register, bits: seq<bit>, b: bit)
    ensures Feed(r, []) == r && forall i | 0 <= i < 16 :: Ones()[i] == 1
    ensures var before, after := Feed(r, bits), Feed(r, bits + [b]);
            forall i | 0 <= i < 16 ::
              after[i] == XorBit(if i < 15 then before[i + 1] else 0,
                                 if before[0] != b && (15 - i == 12 || 15 - i == 5 || 15 - i == 0) then 1 else 0)
  {
    FeedLast(r, bits, b);
    var mixed := Xor(Feed(r, bits), AtTop([b]));
    forall i | 0 <= i < 16 ensures Step(mixed)[i] == Feed(r, bits + [b])[i] {
      StepAt(mixed, i);
    }
  }

  lemma OneInBits()
    ensures BitsOf(1, 8) == [0, 0, 0, 0, 0, 0, 0, 1]
  {
    hide BitsOf;
    NoBits(0);
    Nibble(1, 4);
    Nibble(0, 0);
  }

  lemma VersionOne(bits: seq<bit>)
    requires |bits| == 8
    ensures ValueOf(bits) == 1 <==> bits == [0, 0, 0, 0, 0, 0, 0, 1]
  {
    OneInBits();
    BitsOfValueOf(bits);
    Pow2Word();
    ValueOfBitsOf(1, 8);
    hide ValueOf, BitsOf, Pow2;
  }

  /** Exactly those frames are legacy whose first byte is 1 and whose bits 72 to 87 are the checksum of the first 72. */
  lemma LegacyIff(frame: Frame)
    ensures IsLegacy(frame) <==>
              frame[..8] == [0, 0, 0, 0, 0, 0, 0, 1] && frame[72..88] == Feed(Ones(), frame[..72])
  {
    VersionOne(frame[..8]);
  }

  lemma PayloadStart(payload: seq<byte>)
    requires |payload| == 9 && payload[0] == 1
    ensures CodeBits(payload)[..8] == [0, 0, 0, 0, 0, 0, 0, 1]
  {
    CodeByteBits(payload, 0);
    OneInBits();
    hide CodeBits, BitsOf;
    FromZero(CodeBits(payload), 8);
  }

  lemma FromZero(bits: seq<bit>, n: nat)
    requires n <= |bits|
    ensures bits[0..n] == bits[..n]
  {
  }

  lemma FrameParts(payload: seq<bit>, checksum: seq<bit>, rest: seq<bit>)
    requires |payload| == 72 && |checksum| == 16 && |rest| == 48
    ensures var frame := payload + checksum + rest;
            && |frame| == MARK_BIT_COUNT && frame[..72] == payload && frame[72..88] == checksum
            && frame[..8] == payload[..8]
  {
  }

  /** Nine bytes that start with 1, their checksum, and any six bytes are a legacy frame. */
  lemma LegacyFrame(payload: seq<byte>, rest: seq<bit>)
    requires |payload| == 9 && payload[0] == 1 && |rest| == 48
    ensures IsLegacy(CodeBits(payload) + Feed(Ones(), CodeBits(payload)) + rest)
  {
    var bits := CodeBits(payload);
    var checksum: seq<bit> := Feed(Ones(), bits);
    var frame := bits + checksum + rest;
    PayloadStart(payload);
    FrameParts(bits, checksum, rest);
    LegacyIff(frame);
    hide CodeBits, Feed, IsLegacy, Ones;
  }

  // ----- the checksum as the library computes it -----

  /** Exclusive or of two 16-bit integers. */
  function Xor16(a: nat, b: nat): nat {
    ValueOf(Xor(BitsOf(a, 16), BitsOf(b, 16)))
  }

  lemma {:induction false} FrontBit(bits: seq<bit>)
    requires bits != []
    ensures ValueOf(bits) == bits[0] * Pow2(|bits| - 1) + ValueOf(bits[1..])
  {
    var n := |bits| - 1;
    if n > 0 {
      FrontBit(bits[..n]);
      assert bits[..n][1..] == bits[1..][..n - 1];
      assert ValueOf(bits) == ValueOf(bits[..n]) * 2 + bits[n];
      assert ValueOf(bits[1..]) == ValueOf(bits[1..][..n - 1]) * 2 + bits[n];
      assert Pow2(n) == 2 * Pow2(n - 1);
      hide ValueOf, Pow2;
      Doubled(bits[0], Pow2(n - 1));
    } else {
      assert bits[..0] == [] && bits[1..] == [];
    }
  }

  lemma Doubled(a: nat, b: nat)
    ensures a * (2 * b) == 2 * (a * b)
  {
  }

  lemma {:induction false} TrailingZeros(bits: seq<bit>, n: nat)
    ensures ValueOf(bits + Zeros(n)) == ValueOf(bits) * Pow2(n)
  {
    if n == 0 {
      assert bits + Zeros(0) == bits;
    } else {
      TrailingZeros(bits, n - 1);
      assert (bits + Zeros(n))[..|bits| + n - 1] == bits + Zeros(n - 1);
      Doubled(ValueOf(bits), Pow2(n - 1));
    }
  }

  lemma Xor16Registers(a: Register, b: Register)
    ensures Xor16(ValueOf(a), ValueOf(b)) == ValueOf(Xor(a, b))
  {
    BitsOfValueOf(a);
    BitsOfValueOf(b);
  }

  lemma Pow2Word()
    ensures Pow2(8) == 0x100 && Pow2(15) == 0x8000 && Pow2(16) == 0x10000
  {
    Pow2Widths();
    Pow2Sum(8, 8);
  }

  lemma LastBit(value: nat, width: nat)
    ensures BitsOf(value, width + 1) == BitsOf(value / 2, width) + [value % 2]
  {
  }

  /** The last four bits of a number are its value modulo 16. */
  lemma Nibble(value: nat, width: nat)
    ensures BitsOf(value, width + 4) ==
            BitsOf(value / 16, width) + [value / 8 % 2, value / 4 % 2, value / 2 % 2, value % 2]
  {
    hide BitsOf;
    LastBit(value, width + 3);
    LastBit(value / 2, width + 2);
    assert value / 2 / 2 == value / 4 && value / 4 / 2 == value / 8 && value / 8 / 2 == value / 16;
    LastBit(value / 4, width + 1);
    LastBit(value / 8, width);
  }

  lemma NoBits(value: nat)
    ensures BitsOf(value, 0) == []
  {
  }

  lemma PolynomialValue()
    ensures ValueOf(Polynomial()) == CRC_POLYNOMIAL
  {
    hide BitsOf, ValueOf;
    Pow2Word();
    NoBits(0);
    Nibble(0x1, 0);
    Nibble(0x10, 4);
    Nibble(0x102, 8);
    Nibble(CRC_POLYNOMIAL, 12);
    assert BitsOf(CRC_POLYNOMIAL, 16) == Polynomial();
    ValueOfBitsOf(CRC_POLYNOMIAL, 16);
  }

  lemma InitialValue()
    ensures ValueOf(Ones()) == CRC_INITIAL
  {
    hide BitsOf, ValueOf;
    Pow2Word();
    NoBits(0);
    Nibble(0xF, 0);
    Nibble(0xFF, 4);
    Nibble(0xFFF, 8);
    Nibble(CRC_INITIAL, 12);
    assert BitsOf(CRC_INITIAL, 16) == Ones();
    ValueOfBitsOf(CRC_INITIAL, 16);
  }

  /** One round of the integer loop is one step of the register. */
  lemma StepWord(r: Register)
    ensures var crc := ValueOf(r);
            var shifted := crc * 2 % 0x10000;
            ValueOf(Step(r)) == if crc >= CRC_HIGH_BIT then Xor16(shifted, CRC_POLYNOMIAL) else shifted
  {
    hide ValueOf, BitsOf, Pow2, Polynomial, ShiftLeft;
    ShiftedValue(r);
    PolynomialValue();
    Xor16Registers(ShiftLeft(r), Polynomial());
  }

  /** Shifting doubles the value; the bit that falls out is the one that counts 0x8000. */
  lemma ShiftedValue(r: Register)
    ensures ValueOf(ShiftLeft(r)) == ValueOf(r) * 2 % 0x10000
    ensures r[0] == 1 <==> ValueOf(r) >= CRC_HIGH_BIT
  {
    var low := r[1..];
    Pow2Word();
    FrontBit(r);
    TrailingZeros(low, 1);
    assert Pow2(1) == 2;
    assert ShiftLeft(r) == low + Zeros(1);
    hide ValueOf, Pow2, ShiftLeft;
  }

  lemma ByteAtTop(b: byte)
    ensures ValueOf(AtTop(BitsOf(b, 8))) == 256 * (b as nat)
  {
    Pow2Word();
    ValueOfBitsOf(b, 8);
    TrailingZeros(BitsOf(b, 8), 8);
  }

  /** Adding a byte to the high half and stepping eight times feeds its bits. */
  lemma ByteFed(payload: seq<byte>, index: nat)
    requires index < |payload|
    ensures var r := Feed(Ones(), CodeBits(payload[..index]));
            Feed(Ones(), CodeBits(payload[..index + 1])) == Steps(Xor(r, AtTop(BitsOf(payload[index], 8))), 8)
  {
    var bits := BitsOf(payload[index], 8);
    assert payload[..index + 1][..index] == payload[..index];
    FeedWord(Feed(Ones(), CodeBits(payload[..index])), bits);
    FeedAppend(Ones(), CodeBits(payload[..index]), bits);
  }

  /** The inner loop of the checksum: eight rounds over one byte already added to the high half. */
  method CrcRounds(start: nat, ghost r: Register) returns (crc: nat)
    requires start == ValueOf(r)
    ensures crc == ValueOf(Steps(r, BITS_PER_BYTE))
  {
    crc := start;
    var round := 0;
    while round < BITS_PER_BYTE
      invariant 0 <= round <= BITS_PER_BYTE
      invariant crc == ValueOf(Steps(r, round))
    {
      StepWord(Steps(r, round));
      var carry := crc >= CRC_HIGH_BIT;
      crc := crc * 2 % 0x10000;
      if carry {
        crc := Xor16(crc, CRC_POLYNOMIAL);
      }
      round := round + 1;
    }
  }

  method Crc16(payload: seq<byte>) returns (crc: nat)
    ensures crc == ValueOf(Feed(Ones(), CodeBits(payload)))
  {
    InitialValue();
    crc := CRC_INITIAL;
    var index := 0;
    while index < |payload|
      invariant 0 <= index <= |payload|
      invariant crc == ValueOf(Feed(Ones(), CodeBits(payload[..index])))
    {
      var value: nat := payload[index];
      ghost var r := Feed(Ones(), CodeBits(payload[..index]));
      ByteAtTop(payload[index]);
      Xor16Registers(r, AtTop(BitsOf(value, 8)));
      ByteFed(payload, index);
      crc := CrcRounds(Xor16(crc, 256 * value), Xor(r, AtTop(BitsOf(value, 8))));
      index := index + 1;
    }
    assert payload[..|payload|] == payload;
  }

  lemma ByteAppended(payload: seq<byte>, value: byte)
    ensures CodeBits(payload + [value]) == CodeBits(payload) + BitsOf(value, BITS_PER_BYTE)
  {
    assert (payload + [value])[..|payload|] == payload;
  }

  lemma PayloadStep(bits: seq<bit>, payload: seq<byte>, offset: nat)
    requires offset + BITS_PER_BYTE <= |bits| && CodeBits(payload) == bits[..offset]
    ensures var value := ValueOf(bits[offset..offset + BITS_PER_BYTE]);
            value < 256 && CodeBits(payload + [value]) == bits[..offset + BITS_PER_BYTE]
  {
    hide CodeBits, ValueOf, BitsOf;
    var read := bits[offset..offset + BITS_PER_BYTE];
    ByteValue(read);
    BitsOfValueOf(read);
    ByteAppended(payload, ValueOf(read));
    assert bits[..offset] + read == bits[..offset + BITS_PER_BYTE];
  }

  /** The bits of the payload so far are the first ones of the frame. */
  predicate PayloadUpTo(bits: seq<bit>, payload: seq<byte>, index: nat) {
    && |payload| == index && index * BITS_PER_BYTE <= |bits|
    && CodeBits(payload) == bits[..index * BITS_PER_BYTE]
  }

  lemma PayloadAdvance(bits: seq<bit>, payload: seq<byte>, index: nat, value: nat)
    requires PayloadUpTo(bits, payload, index) && (index + 1) * BITS_PER_BYTE <= |bits|
    requires value == ValueOf(bits[index * BITS_PER_BYTE..index * BITS_PER_BYTE + BITS_PER_BYTE])
    ensures value < 256 && PayloadUpTo(bits, payload + [value], index + 1)
  {
    hide CodeBits, ValueOf;
    PayloadStep(bits, payload, index * BITS_PER_BYTE);
  }

  method ToLegacyPayload(bits: Frame) returns (payload: seq<byte>)
    ensures |payload| == LEGACY_PAYLOAD_SIZE && CodeBits(payload) == bits[..LEGACY_PAYLOAD_BIT_COUNT]
  {
    payload := [];
    var index := 0;
    assert PayloadUpTo(bits, payload, 0);
    while index < LEGACY_PAYLOAD_SIZE
      invariant 0 <= index <= LEGACY_PAYLOAD_SIZE && PayloadUpTo(bits, payload, index)
    {
      hide PayloadUpTo, CodeBits, ValueOf;
      var value := ReadBits(bits, index * BITS_PER_BYTE, BITS_PER_BYTE);
      PayloadAdvance(bits, payload, index, value);
      payload := payload + [value];
      index := index + 1;
    }
  }

  method IsLegacyMark(bits: Frame) returns (legacy: bool)
    ensures legacy <==> IsLegacy(bits)
  {
    var version := ReadBits(bits, 0, VERSION_BIT_COUNT);
    assert bits[0..VERSION_BIT_COUNT] == bits[..VERSION_BIT_COUNT];
    if version != LEGACY_VERSION {
      return false;
    }
    var checksum := ReadBits(bits, LEGACY_PAYLOAD_BIT_COUNT, LEGACY_CHECKSUM_BIT_COUNT);
    var payload := ToLegacyPayload(bits);
    var crc := Crc16(payload);
    BitsOfValueOf(bits[LEGACY_PAYLOAD_BIT_COUNT..LEGACY_BIT_COUNT]);
    BitsOfValueOf(Feed(Ones(), bits[..LEGACY_PAYLOAD_BIT_COUNT]));
    return checksum == crc;
  }
}
