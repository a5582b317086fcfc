/** Receipts as bytes: the header, the ephemeral key of the envelope, the sealed key. */
module ReceiptCodec {
  import opened Bytes
  import opened Errors
  import opened Binary
  import S = SealedContentCodec

  const USER_ID_SIZE := 16
  const DEVICE_KEY_SIZE := 32
  const RECEIPT_VERSION := 1

  type int64 = x: int | -0x8000_0000_0000_0000 <= x < 0x8000_0000_0000_0000

  /** The casts between signed and unsigned 64-bit integers. */
  function Unsigned(x: int64): uint64 {
    if x < 0 then x + 0x1_0000_0000_0000_0000 else x
  }

  function Signed(x: uint64): int64 {
    if x >= 0x8000_0000_0000_0000 then x - 0x1_0000_0000_0000_0000 else x
  }

  datatype Header = Header(version: byte, purchaseId: uint64, userId: seq<byte>, purchasedAt: int64, issuedAt: int64) {
    predicate Formed() {
      |userId| == USER_ID_SIZE
    }
  }

  datatype Envelope = Envelope(ephemeralKey: seq<byte>, wrapped: S.SealedContent) {
    predicate Formed() {
      |ephemeralKey| == DEVICE_KEY_SIZE && wrapped.Formed()
    }
  }

  datatype Receipt = Receipt(header: Header, wrappedKey: Envelope) {
    predicate Formed() {
      header.Formed() && wrappedKey.Formed()
    }

    predicate Encodable() {
      |wrappedKey.wrapped.ciphertext| <= S.MAX_LENGTH
    }
  }

  /** The header as the associated data its key is sealed with. */
  function AssociatedData(h: Header): seq<byte> {
    BigEndian(h.version, 1)
    + (BigEndian(h.purchaseId, INTEGER_SIZE)
       + (h.userId
          + (BigEndian(Unsigned(h.purchasedAt), INTEGER_SIZE) + BigEndian(Unsigned(h.issuedAt), INTEGER_SIZE))))
  }

  function Layout(receipt: Receipt): seq<byte> {
    AssociatedData(receipt.header) + (receipt.wrappedKey.ephemeralKey + S.Layout(receipt.wrappedKey.wrapped))
  }

  function ParseHeader(data: seq<byte>): Result<(Header, seq<byte>), CoreError> {
    var version := TakeInteger(data, 1);
    if version.None? then Err(ReceiptMalformed)
    else if version.value.0 != RECEIPT_VERSION then Err(ReceiptVersionUnsupported)
    else
      var purchaseId := TakeInteger(version.value.1, INTEGER_SIZE);
      if purchaseId.None? then Err(ReceiptMalformed)
      else
        var userId := TakeBytes(purchaseId.value.1, USER_ID_SIZE);
        if userId.None? then Err(ReceiptMalformed)
        else
          var purchasedAt := TakeInteger(userId.value.1, INTEGER_SIZE);
          if purchasedAt.None? then Err(ReceiptMalformed)
          else
            var issuedAt := TakeInteger(purchasedAt.value.1, INTEGER_SIZE);
            if issuedAt.None? then Err(ReceiptMalformed)
            else
              Ok((Header(version.value.0, purchaseId.value.0, userId.value.0, Signed(purchasedAt.value.0),
                         Signed(issuedAt.value.0)), issuedAt.value.1))
  }

  function Parse(data: seq<byte>): Result<Receipt, CoreError> {
    match ParseHeader(data)
    case Err(e) => Err(e)
    case Ok((header, rest)) =>
      var key := TakeBytes(rest, DEVICE_KEY_SIZE);
      if key.None? then Err(ReceiptMalformed)
      else
        match S.Parse(key.value.1)
        case Err(_) => Err(ReceiptMalformed)
        case Ok(wrapped) => Ok(Receipt(header, Envelope(key.value.0, wrapped)))
  }

  method EncodeHeader(h: Header) returns (data: seq<byte>)
    ensures data == AssociatedData(h)
  {
    hide BigEndian;
    var buffer := new Buffer();
    buffer.AppendInteger(h.version, 1);
    buffer.AppendInteger(h.purchaseId, INTEGER_SIZE);
    buffer.AppendBytes(h.userId);
    buffer.AppendInteger(Unsigned(h.purchasedAt), INTEGER_SIZE);
    buffer.AppendInteger(Unsigned(h.issuedAt), INTEGER_SIZE);
    assert buffer.data == AssociatedData(h);
    return buffer.data;
  }

  method Encode(receipt: Receipt) returns (r: Result<seq<byte>, CoreError>)
    ensures r == if receipt.Encodable() then Ok(Layout(receipt)) else Err(ReceiptMalformed)
  {
    var sealed := S.Encode(receipt.wrappedKey.wrapped);
    if sealed.Err? {
      return Err(ReceiptMalformed);
    }
    var data := EncodeHeader(receipt.header);
    data := data + receipt.wrappedKey.ephemeralKey;
    data := data + sealed.value;
    assert data == Layout(receipt);
    return Ok(data);
  }

  method DecodeHeader(reader: Reader) returns (r: Result<Header, CoreError>)
    requires reader.Valid()
    modifies reader
    ensures reader.Valid()
    ensures match ParseHeader(old(reader.Rest()))
            case Ok((header, rest)) => r == Ok(header) && reader.Rest() == rest
            case Err(e) => r == Err(e)
  {
    hide TakeInteger, TakeBytes;
    var version := reader.ReadInteger(1);
    if version.None? {
      return Err(ReceiptMalformed);
    }
    if version.value != RECEIPT_VERSION {
      return Err(ReceiptVersionUnsupported);
    }
    var purchaseId := reader.ReadInteger(INTEGER_SIZE);
    if purchaseId.None? {
      return Err(ReceiptMalformed);
    }
    var userId := reader.ReadBytes(USER_ID_SIZE);
    if userId.None? {
      return Err(ReceiptMalformed);
    }
    var purchasedAt := reader.ReadInteger(INTEGER_SIZE);
    if purchasedAt.None? {
      return Err(ReceiptMalformed);
    }
    var issuedAt := reader.ReadInteger(INTEGER_SIZE);
    if issuedAt.None? {
      return Err(ReceiptMalformed);
    }
    return Ok(Header(version.value, purchaseId.value, userId.value, Signed(purchasedAt.value), Signed(issuedAt.value)));
  }

  method Decode(data: seq<byte>) returns (r: Result<Receipt, CoreError>)
    ensures r == Parse(data)
  {
    hide TakeInteger, TakeBytes, ParseHeader;
    var reader := new Reader(data);
    var header := DecodeHeader(reader);
    if header.Err? {
      return Err(header.error);
    }
    var key := reader.ReadBytes(DEVICE_KEY_SIZE);
    if key.None? {
      return Err(ReceiptMalformed);
    }
    var sealed := S.Decode(reader.Rest());
    if sealed.Err? {
      return Err(ReceiptMalformed);
    }
    return Ok(Receipt(header.value, Envelope(key.value, sealed.value)));
  }

  // ----- exact inverses -----

  lemma ParseAssociatedData(h: Header, rest: seq<byte>)
    requires h.Formed()
    ensures ParseHeader(AssociatedData(h) + rest)
            == if h.version == RECEIPT_VERSION then Ok((h, rest)) else Err(ReceiptVersionUnsupported)
  {
    hide TakeInteger, TakeBytes, BigEndian;
    Ranges();
    var issued := BigEndian(Unsigned(h.issuedAt), INTEGER_SIZE) + rest;
    var purchased := BigEndian(Unsigned(h.purchasedAt), INTEGER_SIZE) + issued;
    var user := h.userId + purchased;
    var purchase := BigEndian(h.purchaseId, INTEGER_SIZE) + user;
    assert AssociatedData(h) + rest == BigEndian(h.version, 1) + purchase;
    TakeAppendedInteger(h.version, 1, purchase);
    TakeAppendedInteger(h.purchaseId, INTEGER_SIZE, user);
    TakeAppended(h.userId, purchased);
    TakeAppendedInteger(Unsigned(h.purchasedAt), INTEGER_SIZE, issued);
    TakeAppendedInteger(Unsigned(h.issuedAt), INTEGER_SIZE, rest);
  }

  lemma AssociatedDataParse(data: seq<byte>)
    requires ParseHeader(data).Ok?
    ensures var (h, rest) := ParseHeader(data).value;
            h.Formed() && h.version == RECEIPT_VERSION && data == AssociatedData(h) + rest
  {
    hide TakeInteger, TakeBytes, BigEndian;
    TakenInteger(data, 1);
    var (_, a) := TakeInteger(data, 1).value;
    TakenInteger(a, INTEGER_SIZE);
    var (_, b) := TakeInteger(a, INTEGER_SIZE).value;
    TakenBytes(b, USER_ID_SIZE);
    var (_, c) := TakeBytes(b, USER_ID_SIZE).value;
    TakenInteger(c, INTEGER_SIZE);
    var (_, d) := TakeInteger(c, INTEGER_SIZE).value;
    TakenInteger(d, INTEGER_SIZE);
  }

  /**
   Two headers with the same associated data are the same header, whatever their versions and the signs of
   their times.
   */
  lemma AssociatedDataInjective(a: Header, b: Header)
    requires a.Formed() && b.Formed() && AssociatedData(a) == AssociatedData(b)
    ensures a == b
  {
    hide BigEndian;
    Ranges();
    assert AssociatedData(a) + [] == AssociatedData(a) && AssociatedData(b) + [] == AssociatedData(b);
    var x, y := a.(version := RECEIPT_VERSION), b.(version := RECEIPT_VERSION);
    assert BigEndian(a.version, 1) == AssociatedData(a)[..1] == AssociatedData(b)[..1] == BigEndian(b.version, 1);
    FromBigEndianOf(a.version, 1);
    FromBigEndianOf(b.version, 1);
    assert AssociatedData(x) + [] == AssociatedData(y) + [];
    ParseAssociatedData(x, []);
    ParseAssociatedData(y, []);
  }

  /**
   A receipt of the current version decodes to itself, and with anything after it to nothing; another
   version never decodes.
   */
  lemma ParseLayout(receipt: Receipt, more: seq<byte>)
    requires receipt.Formed() && receipt.Encodable()
    ensures Parse(Layout(receipt) + more) ==
            if receipt.header.version != RECEIPT_VERSION then Err(ReceiptVersionUnsupported)
            else if more == [] then Ok(receipt)
            else Err(ReceiptMalformed)
  {
    hide TakeInteger, TakeBytes, AssociatedData, ParseHeader;
    var envelope := receipt.wrappedKey;
    var sealed := S.Layout(envelope.wrapped) + more;
    var rest := envelope.ephemeralKey + sealed;
    assert Layout(receipt) + more == AssociatedData(receipt.header) + rest;
    ParseAssociatedData(receipt.header, rest);
    TakeAppended(envelope.ephemeralKey, sealed);
    S.ParseLayout(envelope.wrapped, more);
  }

  lemma LayoutParse(data: seq<byte>)
    requires Parse(data).Ok?
    ensures var receipt := Parse(data).value;
            && receipt.Formed() && receipt.Encodable() && receipt.header.version == RECEIPT_VERSION
            && Layout(receipt) == data
  {
    hide TakeInteger, TakeBytes, AssociatedData, ParseHeader;
    AssociatedDataParse(data);
    var (_, rest) := ParseHeader(data).value;
    TakenBytes(rest, DEVICE_KEY_SIZE);
    S.LayoutParse(TakeBytes(rest, DEVICE_KEY_SIZE).value.1);
  }

  /** No accepted string is a proper prefix of another. */
  lemma PrefixFree(data: seq<byte>, more: seq<byte>)
    requires Parse(data).Ok? && Parse(data + more).Ok?
    ensures more == []
  {
    hide Parse, Layout;
    LayoutParse(data);
    ParseLayout(Parse(data).value, more);
  }
}
