/** Packing a mark into its 136-bit frame and back, bit by bit. */
module MarkCodec {
  import opened Bytes

  const BITS_PER_BYTE := 8
  const VERSION_BIT_COUNT := 8
  const ID_BIT_COUNT := 64
  const ID_BIT_OFFSET := VERSION_BIT_COUNT
  const CODE_BIT_OFFSET := ID_BIT_OFFSET + ID_BIT_COUNT
  const MARK_CODE_SIZE := 8
  const MARK_BIT_COUNT := 136
  const MARK_VERSION := 2

  type MarkCode = s: seq<byte> | |s| == MARK_CODE_SIZE witness [0, 0, 0, 0, 0, 0, 0, 0]

  datatype Mark = Mark(purchaseId: uint64, code: MarkCode, version: byte)

  type Frame = s: seq<bit> | |s| == MARK_BIT_COUNT witness Zeros(MARK_BIT_COUNT)

  // ----- numbers and their bits, most significant bit first -----

  function Pow2(n: nat): nat {
    if n == 0 then 1 else 2 * Pow2(n - 1)
  }

  function Zeros(n: nat): (s: seq<bit>)
    ensures |s| == n
  {
    seq(n, i => 0)
  }

  /** The logical right shift. */
  function Shifted(value: nat, shift: nat): nat {
    if shift == 0 then value else Shifted(value, shift - 1) / 2
  }

  function BitsOf(value: nat, width: nat): (s: seq<bit>)
    ensures |s| == width
  {
    if width == 0 then [] else BitsOf(value / 2, width - 1) + [value % 2]
  }

  function ValueOf(bits: seq<bit>): (value: nat)
    ensures value < Pow2(|bits|)
  {
    if bits == [] then 0 else ValueOf(bits[..|bits| - 1]) * 2 + bits[|bits| - 1]
  }

  lemma {:induction false} ValueOfBitsOf(value: nat, width: nat)
    requires value < Pow2(width)
    ensures ValueOf(BitsOf(value, width)) == value
  {
    if width > 0 {
      ValueOfBitsOf(value / 2, width - 1);
      assert BitsOf(value, width)[..width - 1] == BitsOf(value / 2, width - 1);
    }
  }

  lemma {:induction false} BitsOfValueOf(bits: seq<bit>)
    ensures BitsOf(ValueOf(bits), |bits|) == bits
  {
    if bits != [] {
      BitsOfValueOf(bits[..|bits| - 1]);
    }
  }

  lemma {:induction false} ShiftedHalves(value: nat, shift: nat)
    ensures Shifted(value, shift + 1) == Shifted(value / 2, shift)
  {
    if shift > 0 {
      ShiftedHalves(value, shift - 1);
    }
  }

  lemma {:induction false} BitAt(value: nat, width: nat, index: nat)
    requires index < width
    ensures BitsOf(value, width)[index] == Shifted(value, width - 1 - index) % 2
  {
    if index < width - 1 {
      BitAt(value / 2, width - 1, index);
      ShiftedHalves(value, width - 2 - index);
    }
  }

  method WriteBits(bits: array<bit>, offset: nat, value: nat, width: nat)
    requires offset + width <= bits.Length
    modifies bits
    ensures bits[..] == old(bits[..offset]) + BitsOf(value, width) + old(bits[offset + width..])
  {
    var index := 0;
    while index < width
      invariant 0 <= index <= width
      invariant bits[..offset] == old(bits[..offset])
      invariant bits[offset..offset + index] == BitsOf(value, width)[..index]
      invariant bits[offset + width..] == old(bits[offset + width..])
    {
      var shift := width - 1 - index;
      BitAt(value, width, index);
      bits[offset + index] := Shifted(value, shift) % 2;
      index := index + 1;
    }
  }

  method ReadBits(bits: seq<bit>, offset: nat, width: nat) returns (value: nat)
    requires offset + width <= |bits|
    ensures value == ValueOf(bits[offset..offset + width])
  {
    value := 0;
    var index := 0;
    while index < width
      invariant 0 <= index <= width
      invariant value == ValueOf(bits[offset..offset + index])
    {
      assert bits[offset..offset + index + 1][..index] == bits[offset..offset + index];
      value := value * 2 + bits[offset + index];
      index := index + 1;
    }
  }

  // ----- frames -----

  function CodeBits(code: seq<byte>): (s: seq<bit>)
    ensures |s| == BITS_PER_BYTE * |code|
  {
    if code == [] then [] else CodeBits(code[..|code| - 1]) + BitsOf(code[|code| - 1], BITS_PER_BYTE)
  }

  function FrameOf(mark: Mark): Frame {
    BitsOf(mark.version, VERSION_BIT_COUNT) + BitsOf(mark.purchaseId, ID_BIT_COUNT) + CodeBits(mark.code)
  }

  function ByteAt(bits: seq<bit>, offset: nat): byte
    requires offset + BITS_PER_BYTE <= |bits|
  {
    ByteValue(bits[offset..offset + BITS_PER_BYTE]);
    ValueOf(bits[offset..offset + BITS_PER_BYTE])
  }

  function MarkOf(frame: Frame): Mark {
    IdValue(frame[ID_BIT_OFFSET..CODE_BIT_OFFSET]);
    Mark(ValueOf(frame[ID_BIT_OFFSET..CODE_BIT_OFFSET]),
         seq(MARK_CODE_SIZE, i requires 0 <= i < MARK_CODE_SIZE => ByteAt(frame, CODE_BIT_OFFSET + i * BITS_PER_BYTE)),
         ByteAt(frame, 0))
  }

  lemma {:induction false} Pow2Sum(a: nat, b: nat)
    ensures Pow2(a + b) == Pow2(a) * Pow2(b)
  {
    if a > 0 {
      Pow2Sum(a - 1, b);
    }
  }

  lemma Pow2Widths()
    ensures Pow2(8) == 0x100 && Pow2(64) == 0x1_0000_0000_0000_0000
  {
    assert Pow2(8) == 0x100;
    Pow2Sum(8, 8);
    Pow2Sum(16, 16);
    Pow2Sum(32, 32);
  }

  lemma ByteValue(bits: seq<bit>)
    requires |bits| == BITS_PER_BYTE
    ensures ValueOf(bits) < 256
  {
    Pow2Widths();
  }

  lemma IdValue(bits: seq<bit>)
    requires |bits| == ID_BIT_COUNT
    ensures ValueOf(bits) < 0x1_0000_0000_0000_0000
  {
    Pow2Widths();
  }

  lemma CodeStep(head: seq<bit>, code: seq<byte>, index: nat)
    requires index < |code|
    ensures head + CodeBits(code[..index + 1]) == head + CodeBits(code[..index]) + BitsOf(code[index], BITS_PER_BYTE)
  {
    assert code[..index + 1][..index] == code[..index];
  }

  /** What is in front of a written range stays, and the range follows it. */
  lemma WrittenPrefix(before: seq<bit>, written: seq<bit>, after: seq<bit>)
    ensures (before + written + after)[..|before| + |written|] == before + written
  {
  }

  method EncodeMark(mark: Mark) returns (bits: array<bit>)
    ensures fresh(bits) && bits[..] == FrameOf(mark)
  {
    bits := new bit[MARK_BIT_COUNT](_ => 0);
    WriteBits(bits, 0, mark.version, VERSION_BIT_COUNT);
    WriteBits(bits, ID_BIT_OFFSET, mark.purchaseId, ID_BIT_COUNT);
    ghost var head := BitsOf(mark.version, VERSION_BIT_COUNT) + BitsOf(mark.purchaseId, ID_BIT_COUNT);
    assert bits[..CODE_BIT_OFFSET] == head;
    var index := 0;
    while index < MARK_CODE_SIZE
      invariant 0 <= index <= MARK_CODE_SIZE
      invariant bits[..CODE_BIT_OFFSET + index * BITS_PER_BYTE] == head + CodeBits(mark.code[..index])
    {
      hide BitsOf, CodeBits;
      CodeStep(head, mark.code, index);
      var offset := CODE_BIT_OFFSET + index * BITS_PER_BYTE;
      ghost var before := bits[..];
      WriteBits(bits, offset, mark.code[index], BITS_PER_BYTE);
      WrittenPrefix(before[..offset], BitsOf(mark.code[index], BITS_PER_BYTE), before[offset + BITS_PER_BYTE..]);
      index := index + 1;
    }
    assert mark.code[..MARK_CODE_SIZE] == mark.code;
    assert bits[..] == bits[..MARK_BIT_COUNT];
  }

  method DecodeMark(bits: Frame) returns (mark: Mark)
    ensures mark == MarkOf(bits)
  {
    var purchaseId := ReadBits(bits, ID_BIT_OFFSET, ID_BIT_COUNT);
    IdValue(bits[ID_BIT_OFFSET..CODE_BIT_OFFSET]);
    var version := ReadBits(bits, 0, VERSION_BIT_COUNT);
    ByteValue(bits[0..VERSION_BIT_COUNT]);
    var code: seq<byte> := [];
    var index := 0;
    while index < MARK_CODE_SIZE
      invariant 0 <= index <= MARK_CODE_SIZE == |MarkOf(bits).code|
      invariant code == MarkOf(bits).code[..index]
    {
      var value := ReadBits(bits, CODE_BIT_OFFSET + index * BITS_PER_BYTE, BITS_PER_BYTE);
      ByteValue(bits[CODE_BIT_OFFSET + index * BITS_PER_BYTE..CODE_BIT_OFFSET + (index + 1) * BITS_PER_BYTE]);
      code := code + [value];
      index := index + 1;
    }
    mark := Mark(purchaseId, code, version);
  }

  lemma {:induction false} CodeByteBits(code: seq<byte>, i: nat)
    requires i < |code|
    ensures CodeBits(code)[i * BITS_PER_BYTE..(i + 1) * BITS_PER_BYTE] == BitsOf(code[i], BITS_PER_BYTE)
  {
    if i < |code| - 1 {
      CodeByteBits(code[..|code| - 1], i);
      assert CodeBits(code)[i * BITS_PER_BYTE..(i + 1) * BITS_PER_BYTE]
          == CodeBits(code[..|code| - 1])[i * BITS_PER_BYTE..(i + 1) * BITS_PER_BYTE];
    }
  }

  /** The fields of a mark at their places in its frame. */
  lemma FrameFields(mark: Mark, i: nat)
    requires i < 8
    ensures FrameOf(mark)[0..8] == BitsOf(mark.version, 8) && FrameOf(mark)[8..72] == BitsOf(mark.purchaseId, 64)
    ensures FrameOf(mark)[72 + 8 * i..80 + 8 * i] == BitsOf(mark.code[i], 8)
  {
    CodeByteBits(mark.code, i);
    hide BitsOf, CodeBits;
    assert FrameOf(mark)[72 + 8 * i..80 + 8 * i] == CodeBits(mark.code)[i * 8..(i + 1) * 8];
  }

  /** Every mark is recovered from its frame. */
  lemma MarkOfFrameOf(mark: Mark)
    ensures MarkOf(FrameOf(mark)) == mark
  {
    var frame := FrameOf(mark);
    Pow2Widths();
    hide Pow2, BitsOf, ValueOf, CodeBits;
    assert frame[0..VERSION_BIT_COUNT] == BitsOf(mark.version, VERSION_BIT_COUNT);
    ValueOfBitsOf(mark.version, VERSION_BIT_COUNT);
    assert frame[ID_BIT_OFFSET..CODE_BIT_OFFSET] == BitsOf(mark.purchaseId, ID_BIT_COUNT);
    ValueOfBitsOf(mark.purchaseId, ID_BIT_COUNT);
    forall i | 0 <= i < MARK_CODE_SIZE
      ensures MarkOf(frame).code[i] == mark.code[i]
    {
      CodeByteBits(mark.code, i);
      assert frame[CODE_BIT_OFFSET + i * BITS_PER_BYTE..CODE_BIT_OFFSET + (i + 1) * BITS_PER_BYTE]
          == CodeBits(mark.code)[i * BITS_PER_BYTE..(i + 1) * BITS_PER_BYTE];
      ValueOfBitsOf(mark.code[i], BITS_PER_BYTE);
    }
  }

  lemma CodeBitsSplit(bits: seq<bit>, code: seq<byte>)
    requires code != [] && |bits| == BITS_PER_BYTE * |code|
    requires var n := |code| - 1;
             && CodeBits(code[..n]) == bits[..n * BITS_PER_BYTE]
             && BitsOf(code[n], BITS_PER_BYTE) == bits[n * BITS_PER_BYTE..]
    ensures CodeBits(code) == bits
  {
    hide BitsOf;
  }

  lemma ByteBits(bits: seq<bit>, offset: nat)
    requires offset + BITS_PER_BYTE <= |bits|
    ensures BitsOf(ByteAt(bits, offset), BITS_PER_BYTE) == bits[offset..offset + BITS_PER_BYTE]
  {
    BitsOfValueOf(bits[offset..offset + BITS_PER_BYTE]);
  }

  lemma ByteAtFront(bits: seq<bit>, length: nat, offset: nat)
    requires offset + BITS_PER_BYTE <= length <= |bits|
    ensures ByteAt(bits[..length], offset) == ByteAt(bits, offset)
  {
    assert bits[..length][offset..offset + BITS_PER_BYTE] == bits[offset..offset + BITS_PER_BYTE];
  }

  lemma {:induction false} CodeBitsOf(bits: seq<bit>, code: seq<byte>)
    requires |bits| == BITS_PER_BYTE * |code|
    requires forall i | 0 <= i < |code| :: code[i] == ByteAt(bits, i * BITS_PER_BYTE)
    ensures CodeBits(code) == bits
  {
    hide CodeBits, BitsOf, ByteAt;
    if code != [] {
      var n := |code| - 1;
      var front := bits[..n * BITS_PER_BYTE];
      forall i | 0 <= i < n ensures code[..n][i] == ByteAt(front, i * BITS_PER_BYTE) {
        ByteAtFront(bits, n * BITS_PER_BYTE, i * BITS_PER_BYTE);
      }
      CodeBitsOf(front, code[..n]);
      ByteBits(bits, n * BITS_PER_BYTE);
      CodeBitsSplit(bits, code);
    }
  }

  lemma FrameParts(frame: Frame)
    ensures frame == frame[0..VERSION_BIT_COUNT] + frame[ID_BIT_OFFSET..CODE_BIT_OFFSET] + frame[CODE_BIT_OFFSET..]
  {
  }

  lemma CodeOfFrame(frame: Frame)
    ensures CodeBits(MarkOf(frame).code) == frame[CODE_BIT_OFFSET..]
  {
    var code, tail := MarkOf(frame).code, frame[CODE_BIT_OFFSET..];
    hide ValueOf;
    forall i | 0 <= i < |code| ensures code[i] == ByteAt(tail, i * BITS_PER_BYTE) {
      SameByte(frame, i * BITS_PER_BYTE);
    }
    CodeBitsOf(tail, code);
  }

  lemma SameByte(frame: Frame, offset: nat)
    requires CODE_BIT_OFFSET + offset + BITS_PER_BYTE <= MARK_BIT_COUNT
    ensures ByteAt(frame[CODE_BIT_OFFSET..], offset) == ByteAt(frame, CODE_BIT_OFFSET + offset)
  {
    var from := CODE_BIT_OFFSET + offset;
    assert frame[CODE_BIT_OFFSET..][offset..offset + BITS_PER_BYTE] == frame[from..from + BITS_PER_BYTE];
  }

  /** Every frame is the frame of the mark it decodes to: decoding loses nothing. */
  lemma FrameOfMarkOf(frame: Frame)
    ensures FrameOf(MarkOf(frame)) == frame
  {
    BitsOfValueOf(frame[0..VERSION_BIT_COUNT]);
    BitsOfValueOf(frame[ID_BIT_OFFSET..CODE_BIT_OFFSET]);
    CodeOfFrame(frame);
    hide BitsOf, ValueOf, CodeBits;
    FrameParts(frame);
  }
}
