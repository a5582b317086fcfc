/** Sealed content as bytes: algorithm, nonce, a length in four bytes, ciphertext, tag. */
module SealedContentCodec {
  import opened Bytes
  import opened Errors
  import opened Binary

  const NONCE_SIZE := 12
  const TAG_SIZE := 16
  const MAX_LENGTH := 0xFFFF_FFFF

  /** The fixed-size byte arrays of the program are sequences whose length is part of `Formed`. */
  datatype SealedContent = SealedContent(algorithm: byte, nonce: seq<byte>, ciphertext: seq<byte>, tag: seq<byte>) {
    predicate Formed() {
      |nonce| == NONCE_SIZE && |tag| == TAG_SIZE
    }
  }

  function Layout(sealed: SealedContent): seq<byte> {
    BigEndian(sealed.algorithm, 1)
    + (sealed.nonce + (BigEndian(|sealed.ciphertext|, LENGTH_SIZE) + (sealed.ciphertext + sealed.tag)))
  }

  function Parse(data: seq<byte>): Result<SealedContent, CoreError> {
    var algorithm := TakeInteger(data, 1);
    if algorithm.None? then Err(SealedContentMalformed)
    else
      var nonce := TakeBytes(algorithm.value.1, NONCE_SIZE);
      if nonce.None? then Err(SealedContentMalformed)
      else
        var length := TakeInteger(nonce.value.1, LENGTH_SIZE);
        if length.None? then Err(SealedContentMalformed)
        else
          var ciphertext := TakeBytes(length.value.1, length.value.0);
          if ciphertext.None? then Err(SealedContentMalformed)
          else
            var tag := TakeBytes(ciphertext.value.1, TAG_SIZE);
            if tag.None? || tag.value.1 != [] then Err(SealedContentMalformed)
            else
              TakenInteger(data, 1);
              Ranges();
              Ok(SealedContent(algorithm.value.0, nonce.value.0, ciphertext.value.0, tag.value.0))
  }

  method Encode(sealed: SealedContent) returns (r: Result<seq<byte>, CoreError>)
    ensures r == if |sealed.ciphertext| > MAX_LENGTH then Err(SealedContentMalformed) else Ok(Layout(sealed))
  {
    if |sealed.ciphertext| > MAX_LENGTH {
      return Err(SealedContentMalformed);
    }
    hide BigEndian;
    var buffer := new Buffer();
    buffer.AppendInteger(sealed.algorithm, 1);
    buffer.AppendBytes(sealed.nonce);
    buffer.AppendInteger(|sealed.ciphertext|, LENGTH_SIZE);
    buffer.AppendBytes(sealed.ciphertext);
    buffer.AppendBytes(sealed.tag);
    assert buffer.data == Layout(sealed);
    return Ok(buffer.data);
  }

  method Decode(data: seq<byte>) returns (r: Result<SealedContent, CoreError>)
    ensures r == Parse(data)
  {
    hide TakeInteger, TakeBytes;
    var reader := new Reader(data);
    TakenInteger(data, 1);
    Ranges();
    var algorithm := reader.ReadInteger(1);
    if algorithm.None? {
      return Err(SealedContentMalformed);
    }
    var nonce := reader.ReadBytes(NONCE_SIZE);
    if nonce.None? {
      return Err(SealedContentMalformed);
    }
    var length := reader.ReadInteger(LENGTH_SIZE);
    if length.None? {
      return Err(SealedContentMalformed);
    }
    var ciphertext := reader.ReadBytes(length.value);
    if ciphertext.None? {
      return Err(SealedContentMalformed);
    }
    var tag := reader.ReadBytes(TAG_SIZE);
    if tag.None? {
      return Err(SealedContentMalformed);
    }
    var empty := reader.Empty();
    if !empty {
      return Err(SealedContentMalformed);
    }
    return Ok(SealedContent(algorithm.value, nonce.value, ciphertext.value, tag.value));
  }

  /** What is encoded decodes to itself, and with anything after it to nothing. */
  lemma ParseLayout(sealed: SealedContent, more: seq<byte>)
    requires sealed.Formed() && |sealed.ciphertext| <= MAX_LENGTH
    ensures Parse(Layout(sealed) + more) == if more == [] then Ok(sealed) else Err(SealedContentMalformed)
  {
    hide TakeInteger, TakeBytes, BigEndian;
    Ranges();
    var algorithm, length := BigEndian(sealed.algorithm, 1), BigEndian(|sealed.ciphertext|, LENGTH_SIZE);
    var e := sealed.tag + more;
    var d := sealed.ciphertext + e;
    var c := length + d;
    var b := sealed.nonce + c;
    assert Layout(sealed) + more == algorithm + b;
    TakeAppendedInteger(sealed.algorithm, 1, b);
    TakeAppended(sealed.nonce, c);
    TakeAppendedInteger(|sealed.ciphertext|, LENGTH_SIZE, d);
    TakeAppended(sealed.ciphertext, e);
    TakeAppended(sealed.tag, more);
  }

  /** What is accepted is the encoding of what it decodes to. */
  lemma LayoutParse(data: seq<byte>)
    requires Parse(data).Ok?
    ensures var sealed := Parse(data).value;
            sealed.Formed() && |sealed.ciphertext| <= MAX_LENGTH && Layout(sealed) == data
  {
    hide TakeInteger, TakeBytes, BigEndian;
    Ranges();
    TakenInteger(data, 1);
    var (_, b) := TakeInteger(data, 1).value;
    TakenBytes(b, NONCE_SIZE);
    var (_, c) := TakeBytes(b, NONCE_SIZE).value;
    TakenInteger(c, LENGTH_SIZE);
    var (length, d) := TakeInteger(c, LENGTH_SIZE).value;
    TakenBytes(d, length);
    var (_, e) := TakeBytes(d, length).value;
    TakenBytes(e, TAG_SIZE);
    var (tag, _) := TakeBytes(e, TAG_SIZE).value;
    assert tag + [] == tag;
  }

  /** No accepted string is a proper prefix of another. */
  lemma PrefixFree(data: seq<byte>, more: seq<byte>)
    requires Parse(data).Ok? && Parse(data + more).Ok?
    ensures more == []
  {
    hide Parse, Layout;
    LayoutParse(data);
    ParseLayout(Parse(data).value, more);
  }
}
