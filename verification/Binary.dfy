/** The binary codec: big-endian integers and byte runs, appended to a buffer and taken by a reader. */
module Binary {
  import opened Bytes

  const INTEGER_SIZE := 8
  const LENGTH_SIZE := 4

  /** One more than the largest integer of `width` bytes. */
  function Range(width: nat): nat {
    if width == 0 then 1 else 256 * Range(width - 1)
  }

  function BigEndian(value: nat, width: nat): (s: seq<byte>)
    ensures |s| == width
  {
    if width == 0 then [] else BigEndian(value / 256, width - 1) + [value % 256]
  }

  function FromBigEndian(s: seq<byte>): nat {
    if s == [] then 0 else FromBigEndian(s[..|s| - 1]) * 256 + s[|s| - 1]
  }

  lemma {:induction false} FromBigEndianBound(s: seq<byte>)
    ensures FromBigEndian(s) < Range(|s|)
  {
    if s != [] {
      FromBigEndianBound(s[..|s| - 1]);
    }
  }

  lemma Ranges()
    ensures Range(1) == 0x100 && Range(4) == 0x1_0000_0000 && Range(8) == 0x1_0000_0000_0000_0000
  {
    assert Range(4) == 256 * Range(3);
    assert Range(8) == 256 * Range(7);
  }

  lemma {:induction false} RangeGrows(a: nat, b: nat)
    requires a <= b
    ensures Range(a) <= Range(b)
  {
    if a < b {
      RangeGrows(a, b - 1);
    }
  }

  lemma {:induction false} FromBigEndianOf(value: nat, width: nat)
    requires value < Range(width)
    ensures FromBigEndian(BigEndian(value, width)) == value
  {
    if width > 0 {
      FromBigEndianOf(value / 256, width - 1);
    }
  }

  lemma {:induction false} BigEndianOf(s: seq<byte>)
    ensures BigEndian(FromBigEndian(s), |s|) == s
  {
    if s != [] {
      BigEndianOf(s[..|s| - 1]);
    }
  }

  // ----- taking from the front -----

  function TakeBytes(s: seq<byte>, size: nat): Option<(seq<byte>, seq<byte>)> {
    if size > |s| then None else Some((s[..size], s[size..]))
  }

  function TakeInteger(s: seq<byte>, width: nat): Option<(uint64, seq<byte>)> {
    if width > INTEGER_SIZE || width > |s| then None
    else
      FromBigEndianBound(s[..width]);
      RangeGrows(width, 8);
      Ranges();
      Some((FromBigEndian(s[..width]), s[width..]))
  }

  lemma TakeAppended(bytes: seq<byte>, rest: seq<byte>)
    ensures TakeBytes(bytes + rest, |bytes|) == Some((bytes, rest))
  {
  }

  lemma TakeAppendedInteger(value: nat, width: nat, rest: seq<byte>)
    requires width <= INTEGER_SIZE && value < Range(width)
    ensures TakeInteger(BigEndian(value, width) + rest, width) == Some((value, rest))
  {
    hide BigEndian, FromBigEndian;
    FromBigEndianOf(value, width);
    assert (BigEndian(value, width) + rest)[..width] == BigEndian(value, width);
    assert (BigEndian(value, width) + rest)[width..] == rest;
  }

  lemma TakenBytes(s: seq<byte>, size: nat)
    ensures TakeBytes(s, size).Some? ==>
              var (bytes, rest) := TakeBytes(s, size).value;
              |bytes| == size && s == bytes + rest
  {
  }

  lemma TakenInteger(s: seq<byte>, width: nat)
    ensures TakeInteger(s, width).Some? ==>
              var (value, rest) := TakeInteger(s, width).value;
              value < Range(width) && s == BigEndian(value, width) + rest
  {
    hide BigEndian, FromBigEndian;
    if width <= |s| {
      BigEndianOf(s[..width]);
      FromBigEndianBound(s[..width]);
      assert s == s[..width] + s[width..];
    }
  }

  // ----- the buffer and the reader -----

  /** `value` shifted right by `count` bytes. */
  function ShiftedBytes(value: nat, count: nat): nat {
    if count == 0 then value else ShiftedBytes(value, count - 1) / 256
  }

  class Buffer {
    var data: seq<byte>

    constructor ()
      ensures data == []
    {
      data := [];
    }

    method AppendInteger(value: uint64, width: nat)
      modifies this
      ensures data == old(data) + BigEndian(value, if width < INTEGER_SIZE then width else INTEGER_SIZE)
    {
      var size := if width < INTEGER_SIZE then width else INTEGER_SIZE;
      var index := 0;
      while index < size
        invariant 0 <= index <= size
        invariant data == old(data) + BigEndian(ShiftedBytes(value, size - index), index)
      {
        data := data + [ShiftedBytes(value, size - 1 - index) % 256];
        index := index + 1;
      }
    }

    method AppendBytes(bytes: seq<byte>)
      modifies this
      ensures data == old(data) + bytes
    {
      data := data + bytes;
    }
  }

  class Reader {
    const data: seq<byte>
    var offset: nat

    ghost predicate Valid()
      reads this
    {
      offset <= |data|
    }

    function Rest(): seq<byte>
      requires Valid()
      reads this
    {
      data[offset..]
    }

    constructor (data: seq<byte>)
      ensures Valid() && Rest() == data
    {
      this.data := data;
      offset := 0;
    }

    method ReadByte() returns (r: Option<byte>)
      requires Valid()
      modifies this
      ensures Valid()
      ensures old(Rest()) == [] ==> r.None? && Rest() == []
      ensures old(Rest()) != [] ==> r == Some(old(Rest())[0]) && Rest() == old(Rest())[1..]
    {
      if offset == |data| {
        return None;
      }
      r := Some(data[offset]);
      offset := offset + 1;
    }

    /** Takes an integer from the front; a failed read takes nothing. */
    method ReadInteger(width: nat) returns (r: Option<uint64>)
      requires Valid()
      modifies this
      ensures Valid()
      ensures TakeInteger(old(Rest()), width) == if r.Some? then Some((r.value, Rest())) else None
      ensures r.None? ==> Rest() == old(Rest())
    {
      if width > INTEGER_SIZE || width > |data| - offset {
        return None;
      }
      ghost var before := Rest();
      var value: uint64 := 0;
      var index := 0;
      while index < width
        invariant Valid() && 0 <= index <= width
        invariant Rest() == before[index..] && value == FromBigEndian(before[..index])
      {
        var next := ReadByte();
        assert before[..index + 1][..index] == before[..index];
        FromBigEndianBound(before[..index + 1]);
        RangeGrows(index + 1, 8);
        Ranges();
        value := value * 256 + next.value;
        index := index + 1;
      }
      return Some(value);
    }

    method ReadBytes(size: nat) returns (r: Option<seq<byte>>)
      requires Valid()
      modifies this
      ensures Valid()
      ensures TakeBytes(old(Rest()), size) == if r.Some? then Some((r.value, Rest())) else None
      ensures r.None? ==> Rest() == old(Rest())
    {
      if size > |data| - offset {
        return None;
      }
      r := Some(data[offset..offset + size]);
      assert data[offset..][..size] == data[offset..offset + size] && data[offset..][size..] == data[offset + size..];
      offset := offset + size;
    }

    method Empty() returns (r: bool)
      requires Valid()
      ensures r <==> Rest() == []
    {
      return offset == |data|;
    }
  }
}
