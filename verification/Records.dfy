/** The records of the metadata registry as bytes: publications, purchases, stored receipts. */
module Records {
  import opened Bytes
  import opened Errors
  import opened Binary
  import S = SealedContentCodec
  import R = ReceiptCodec

  const IDENTITY_SIZE := 32
  const AUTHOR_KEY_SIZE := 32
  const SIGNATURE_SIZE := 64

  /** A text in memory. Its length is written in four bytes all the same. */
  type Text = s: seq<byte> | |s| < 0x1_0000_0000_0000_0000 witness []

  // ----- texts -----

  function TextLayout(text: Text): seq<byte> {
    BigEndian(|text|, LENGTH_SIZE) + text
  }

  function TakeText(s: seq<byte>): Option<(Text, seq<byte>)> {
    var size := TakeInteger(s, LENGTH_SIZE);
    if size.None? then None else TakeBytes(size.value.1, size.value.0)
  }

  method AppendText(buffer: Buffer, text: Text)
    modifies buffer
    ensures buffer.data == old(buffer.data) + TextLayout(text)
  {
    hide BigEndian;
    buffer.AppendInteger(|text|, LENGTH_SIZE);
    buffer.AppendBytes(text);
  }

  method ReadText(reader: Reader) returns (r: Option<Text>)
    requires reader.Valid()
    modifies reader
    ensures reader.Valid()
    ensures TakeText(old(reader.Rest())) == if r.Some? then Some((r.value, reader.Rest())) else None
  {
    var size := reader.ReadInteger(LENGTH_SIZE);
    if size.None? {
      return None;
    }
    r := reader.ReadBytes(size.value);
  }

  predicate Short(text: Text) {
    |text| <= S.MAX_LENGTH
  }

  lemma TakeAppendedText(text: Text, rest: seq<byte>)
    requires Short(text)
    ensures TakeText(TextLayout(text) + rest) == Some((text, rest))
  {
    hide TakeInteger, TakeBytes, BigEndian;
    Ranges();
    assert TextLayout(text) + rest == BigEndian(|text|, LENGTH_SIZE) + (text + rest);
    TakeAppendedInteger(|text|, LENGTH_SIZE, text + rest);
    TakeAppended(text, rest);
  }

  lemma TakenText(s: seq<byte>)
    ensures TakeText(s).Some? ==> var (text, rest) := TakeText(s).value; Short(text) && s == TextLayout(text) + rest
  {
    hide TakeInteger, TakeBytes, BigEndian;
    Ranges();
    TakenInteger(s, LENGTH_SIZE);
    if TakeInteger(s, LENGTH_SIZE).Some? {
      var (size, rest) := TakeInteger(s, LENGTH_SIZE).value;
      TakenBytes(rest, size);
    }
  }

  // ----- publications -----

  /** What a publication record begins with: the texts are the only parts of varying length. */
  datatype Names = Names(publicationId: uint64, authorId: seq<byte>, authorName: Text, title: Text, fileName: Text)

  datatype Publication = Publication(
    names: Names, size: uint64, publishedAt: R.int64, identity: seq<byte>, authorKey: seq<byte>, algorithm: byte,
    signature: seq<byte>)
  {
    predicate Formed() {
      && |names.authorId| == R.USER_ID_SIZE && |identity| == IDENTITY_SIZE && |authorKey| == AUTHOR_KEY_SIZE
      && |signature| == SIGNATURE_SIZE
    }

    predicate Encodable() {
      Short(names.authorName) && Short(names.title) && Short(names.fileName)
    }
  }

  function NamesLayout(n: Names): seq<byte> {
    BigEndian(n.publicationId, INTEGER_SIZE)
    + (n.authorId + (TextLayout(n.authorName) + (TextLayout(n.title) + TextLayout(n.fileName))))
  }

  function RestLayout(p: Publication): seq<byte> {
    BigEndian(p.size, INTEGER_SIZE)
    + (BigEndian(R.Unsigned(p.publishedAt), INTEGER_SIZE)
       + (p.identity + (p.authorKey + (BigEndian(p.algorithm, 1) + p.signature))))
  }

  function PublicationLayout(p: Publication): seq<byte> {
    NamesLayout(p.names) + RestLayout(p)
  }

  function ParseNames(data: seq<byte>): Option<(Names, seq<byte>)> {
    var id := TakeInteger(data, INTEGER_SIZE);
    if id.None? then None
    else
      var author := TakeBytes(id.value.1, R.USER_ID_SIZE);
      if author.None? then None
      else
        var name := TakeText(author.value.1);
        if name.None? then None
        else
          var title := TakeText(name.value.1);
          if title.None? then None
          else
            var file := TakeText(title.value.1);
            if file.None? then None
            else Some((Names(id.value.0, author.value.0, name.value.0, title.value.0, file.value.0), file.value.1))
  }

  function ParseRest(names: Names, data: seq<byte>): Option<Publication> {
    var size := TakeInteger(data, INTEGER_SIZE);
    if size.None? then None
    else
      var published := TakeInteger(size.value.1, INTEGER_SIZE);
      if published.None? then None
      else
        var identity := TakeBytes(published.value.1, IDENTITY_SIZE);
        if identity.None? then None
        else
          var key := TakeBytes(identity.value.1, AUTHOR_KEY_SIZE);
          if key.None? then None
          else
            var algorithm := TakeInteger(key.value.1, 1);
            if algorithm.None? then None
            else
              var signature := TakeBytes(algorithm.value.1, SIGNATURE_SIZE);
              if signature.None? || signature.value.1 != [] then None
              else
                TakenInteger(key.value.1, 1);
                Ranges();
                Some(Publication(names, size.value.0, R.Signed(published.value.0), identity.value.0, key.value.0,
                                 algorithm.value.0, signature.value.0))
  }

  function ParsePublication(data: seq<byte>): Result<Publication, CoreError> {
    var names := ParseNames(data);
    if names.None? then Err(StorageFailed)
    else
      var publication := ParseRest(names.value.0, names.value.1);
      if publication.None? then Err(StorageFailed) else Ok(publication.value)
  }

  method EncodePublication(p: Publication) returns (data: seq<byte>)
    ensures data == PublicationLayout(p)
  {
    hide BigEndian, TextLayout;
    var buffer := new Buffer();
    buffer.AppendInteger(p.names.publicationId, INTEGER_SIZE);
    buffer.AppendBytes(p.names.authorId);
    AppendText(buffer, p.names.authorName);
    AppendText(buffer, p.names.title);
    AppendText(buffer, p.names.fileName);
    assert buffer.data == NamesLayout(p.names);
    hide NamesLayout;
    buffer.AppendInteger(p.size, INTEGER_SIZE);
    buffer.AppendInteger(R.Unsigned(p.publishedAt), INTEGER_SIZE);
    buffer.AppendBytes(p.identity);
    buffer.AppendBytes(p.authorKey);
    buffer.AppendInteger(p.algorithm, 1);
    buffer.AppendBytes(p.signature);
    assert buffer.data == PublicationLayout(p);
    return buffer.data;
  }

  method DecodeNames(reader: Reader) returns (r: Option<Names>)
    requires reader.Valid()
    modifies reader
    ensures reader.Valid()
    ensures ParseNames(old(reader.Rest())) == if r.Some? then Some((r.value, reader.Rest())) else None
  {
    hide TakeInteger, TakeBytes, TakeText;
    var id := reader.ReadInteger(INTEGER_SIZE);
    if id.None? {
      return None;
    }
    var author := reader.ReadBytes(R.USER_ID_SIZE);
    if author.None? {
      return None;
    }
    var name := ReadText(reader);
    if name.None? {
      return None;
    }
    var title := ReadText(reader);
    if title.None? {
      return None;
    }
    var file := ReadText(reader);
    if file.None? {
      return None;
    }
    return Some(Names(id.value, author.value, name.value, title.value, file.value));
  }

  method DecodePublication(data: seq<byte>) returns (r: Result<Publication, CoreError>)
    ensures r == ParsePublication(data)
  {
    hide TakeInteger, TakeBytes, ParseNames;
    var reader := new Reader(data);
    var names := DecodeNames(reader);
    if names.None? {
      return Err(StorageFailed);
    }
    var size := reader.ReadInteger(INTEGER_SIZE);
    if size.None? {
      return Err(StorageFailed);
    }
    var published := reader.ReadInteger(INTEGER_SIZE);
    if published.None? {
      return Err(StorageFailed);
    }
    var identity := reader.ReadBytes(IDENTITY_SIZE);
    if identity.None? {
      return Err(StorageFailed);
    }
    var key := reader.ReadBytes(AUTHOR_KEY_SIZE);
    if key.None? {
      return Err(StorageFailed);
    }
    TakenInteger(reader.Rest(), 1);
    Ranges();
    var algorithm := reader.ReadInteger(1);
    if algorithm.None? {
      return Err(StorageFailed);
    }
    var signature := reader.ReadBytes(SIGNATURE_SIZE);
    if signature.None? {
      return Err(StorageFailed);
    }
    var empty := reader.Empty();
    if !empty {
      return Err(StorageFailed);
    }
    return Ok(Publication(names.value, size.value, R.Signed(published.value), identity.value, key.value,
                          algorithm.value, signature.value));
  }

  lemma ParseNamesLayout(n: Names, rest: seq<byte>)
    requires |n.authorId| == R.USER_ID_SIZE && Short(n.authorName) && Short(n.title) && Short(n.fileName)
    ensures ParseNames(NamesLayout(n) + rest) == Some((n, rest))
  {
    hide TakeInteger, TakeBytes, TakeText, BigEndian, TextLayout;
    Ranges();
    var file := TextLayout(n.fileName) + rest;
    var title := TextLayout(n.title) + file;
    var name := TextLayout(n.authorName) + title;
    var author := n.authorId + name;
    assert NamesLayout(n) + rest == BigEndian(n.publicationId, INTEGER_SIZE) + author;
    TakeAppendedInteger(n.publicationId, INTEGER_SIZE, author);
    TakeAppended(n.authorId, name);
    TakeAppendedText(n.authorName, title);
    TakeAppendedText(n.title, file);
    TakeAppendedText(n.fileName, rest);
  }

  lemma ParseRestLayout(p: Publication, more: seq<byte>)
    requires p.Formed()
    ensures ParseRest(p.names, RestLayout(p) + more) == if more == [] then Some(p) else None
  {
    hide TakeInteger, TakeBytes, BigEndian;
    Ranges();
    var signature := p.signature + more;
    var algorithm := BigEndian(p.algorithm, 1) + signature;
    var key := p.authorKey + algorithm;
    var identity := p.identity + key;
    var published := BigEndian(R.Unsigned(p.publishedAt), INTEGER_SIZE) + identity;
    assert RestLayout(p) + more == BigEndian(p.size, INTEGER_SIZE) + published;
    TakeAppendedInteger(p.size, INTEGER_SIZE, published);
    TakeAppendedInteger(R.Unsigned(p.publishedAt), INTEGER_SIZE, identity);
    TakeAppended(p.identity, key);
    TakeAppended(p.authorKey, algorithm);
    TakeAppendedInteger(p.algorithm, 1, signature);
    TakeAppended(p.signature, more);
  }

  /**
   A publication decodes to itself, and with anything after it to nothing, while its texts are shorter than
   2^32 bytes.
   */
  lemma ParsePublicationLayout(p: Publication, more: seq<byte>)
    requires p.Formed() && p.Encodable()
    ensures ParsePublication(PublicationLayout(p) + more) == if more == [] then Ok(p) else Err(StorageFailed)
  {
    hide ParseNames, ParseRest, NamesLayout, RestLayout;
    assert PublicationLayout(p) + more == NamesLayout(p.names) + (RestLayout(p) + more);
    ParseNamesLayout(p.names, RestLayout(p) + more);
    ParseRestLayout(p, more);
  }

  lemma NamesLayoutParse(data: seq<byte>)
    requires ParseNames(data).Some?
    ensures var (n, rest) := ParseNames(data).value;
            && |n.authorId| == R.USER_ID_SIZE && Short(n.authorName) && Short(n.title) && Short(n.fileName)
            && data == NamesLayout(n) + rest
  {
    hide TakeInteger, TakeBytes, TakeText, BigEndian, TextLayout;
    TakenInteger(data, INTEGER_SIZE);
    var (_, a) := TakeInteger(data, INTEGER_SIZE).value;
    TakenBytes(a, R.USER_ID_SIZE);
    var (_, b) := TakeBytes(a, R.USER_ID_SIZE).value;
    TakenText(b);
    var (_, c) := TakeText(b).value;
    TakenText(c);
    var (_, d) := TakeText(c).value;
    TakenText(d);
  }

  lemma RestLayoutParse(names: Names, data: seq<byte>)
    requires ParseRest(names, data).Some? && |names.authorId| == R.USER_ID_SIZE
    ensures var p := ParseRest(names, data).value;
            p.Formed() && p.names == names && data == RestLayout(p)
  {
    hide TakeInteger, TakeBytes, BigEndian;
    TakenInteger(data, INTEGER_SIZE);
    var (_, a) := TakeInteger(data, INTEGER_SIZE).value;
    TakenInteger(a, INTEGER_SIZE);
    var (_, b) := TakeInteger(a, INTEGER_SIZE).value;
    TakenBytes(b, IDENTITY_SIZE);
    var (_, c) := TakeBytes(b, IDENTITY_SIZE).value;
    TakenBytes(c, AUTHOR_KEY_SIZE);
    var (_, d) := TakeBytes(c, AUTHOR_KEY_SIZE).value;
    TakenInteger(d, 1);
    var (_, e) := TakeInteger(d, 1).value;
    TakenBytes(e, SIGNATURE_SIZE);
    var (signature, _) := TakeBytes(e, SIGNATURE_SIZE).value;
    assert signature + [] == signature;
  }

  lemma PublicationLayoutParse(data: seq<byte>)
    requires ParsePublication(data).Ok?
    ensures var p := ParsePublication(data).value;
            p.Formed() && p.Encodable() && PublicationLayout(p) == data
  {
    hide ParseNames, ParseRest, NamesLayout, RestLayout;
    NamesLayoutParse(data);
    var (names, rest) := ParseNames(data).value;
    RestLayoutParse(names, rest);
  }

  /** The round trip of a publication holds exactly while every text is shorter than 2^32 bytes. */
  lemma PublicationRoundTripIff(p: Publication)
    requires p.Formed()
    ensures ParsePublication(PublicationLayout(p)) == Ok(p) <==> p.Encodable()
  {
    hide ParsePublication, PublicationLayout;
    var data := PublicationLayout(p);
    assert data + [] == data;
    if p.Encodable() {
      ParsePublicationLayout(p, []);
    } else if ParsePublication(data).Ok? {
      PublicationLayoutParse(data);
    }
  }

  // ----- purchases -----

  datatype Purchase = Purchase(purchaseId: uint64, userId: seq<byte>, publicationId: uint64, purchasedAt: R.int64)

  function PurchaseLayout(p: Purchase): seq<byte> {
    BigEndian(p.purchaseId, INTEGER_SIZE)
    + (p.userId + (BigEndian(p.publicationId, INTEGER_SIZE) + BigEndian(R.Unsigned(p.purchasedAt), INTEGER_SIZE)))
  }

  function ParsePurchase(data: seq<byte>): Result<Purchase, CoreError> {
    var id := TakeInteger(data, INTEGER_SIZE);
    if id.None? then Err(StorageFailed)
    else
      var user := TakeBytes(id.value.1, R.USER_ID_SIZE);
      if user.None? then Err(StorageFailed)
      else
        var publication := TakeInteger(user.value.1, INTEGER_SIZE);
        if publication.None? then Err(StorageFailed)
        else
          var purchased := TakeInteger(publication.value.1, INTEGER_SIZE);
          if purchased.None? || purchased.value.1 != [] then Err(StorageFailed)
          else Ok(Purchase(id.value.0, user.value.0, publication.value.0, R.Signed(purchased.value.0)))
  }

  method EncodePurchase(p: Purchase) returns (data: seq<byte>)
    ensures data == PurchaseLayout(p)
  {
    hide BigEndian;
    var buffer := new Buffer();
    buffer.AppendInteger(p.purchaseId, INTEGER_SIZE);
    buffer.AppendBytes(p.userId);
    buffer.AppendInteger(p.publicationId, INTEGER_SIZE);
    buffer.AppendInteger(R.Unsigned(p.purchasedAt), INTEGER_SIZE);
    assert buffer.data == PurchaseLayout(p);
    return buffer.data;
  }

  method DecodePurchase(data: seq<byte>) returns (r: Result<Purchase, CoreError>)
    ensures r == ParsePurchase(data)
  {
    hide TakeInteger, TakeBytes;
    var reader := new Reader(data);
    var id := reader.ReadInteger(INTEGER_SIZE);
    if id.None? {
      return Err(StorageFailed);
    }
    var user := reader.ReadBytes(R.USER_ID_SIZE);
    if user.None? {
      return Err(StorageFailed);
    }
    var publication := reader.ReadInteger(INTEGER_SIZE);
    if publication.None? {
      return Err(StorageFailed);
    }
    var purchased := reader.ReadInteger(INTEGER_SIZE);
    if purchased.None? {
      return Err(StorageFailed);
    }
    var empty := reader.Empty();
    if !empty {
      return Err(StorageFailed);
    }
    return Ok(Purchase(id.value, user.value, publication.value, R.Signed(purchased.value)));
  }

  lemma ParsePurchaseLayout(p: Purchase, more: seq<byte>)
    requires |p.userId| == R.USER_ID_SIZE
    ensures ParsePurchase(PurchaseLayout(p) + more) == if more == [] then Ok(p) else Err(StorageFailed)
  {
    hide TakeInteger, TakeBytes, BigEndian;
    Ranges();
    var purchased := BigEndian(R.Unsigned(p.purchasedAt), INTEGER_SIZE) + more;
    var publication := BigEndian(p.publicationId, INTEGER_SIZE) + purchased;
    var user := p.userId + publication;
    assert PurchaseLayout(p) + more == BigEndian(p.purchaseId, INTEGER_SIZE) + user;
    TakeAppendedInteger(p.purchaseId, INTEGER_SIZE, user);
    TakeAppended(p.userId, publication);
    TakeAppendedInteger(p.publicationId, INTEGER_SIZE, purchased);
    TakeAppendedInteger(R.Unsigned(p.purchasedAt), INTEGER_SIZE, more);
  }

  lemma PurchaseLayoutParse(data: seq<byte>)
    requires ParsePurchase(data).Ok?
    ensures var p := ParsePurchase(data).value; |p.userId| == R.USER_ID_SIZE && PurchaseLayout(p) == data
  {
    hide TakeInteger, TakeBytes, BigEndian;
    TakenInteger(data, INTEGER_SIZE);
    var (_, a) := TakeInteger(data, INTEGER_SIZE).value;
    TakenBytes(a, R.USER_ID_SIZE);
    var (_, b) := TakeBytes(a, R.USER_ID_SIZE).value;
    TakenInteger(b, INTEGER_SIZE);
    var (_, c) := TakeInteger(b, INTEGER_SIZE).value;
    TakenInteger(c, INTEGER_SIZE);
  }

  // ----- stored receipts -----

  datatype StoredReceipt = StoredReceipt(deviceKey: seq<byte>, wrappedBlobKey: S.SealedContent, receipt: R.Receipt) {
    predicate Formed() {
      |deviceKey| == R.DEVICE_KEY_SIZE && wrappedBlobKey.Formed() && receipt.Formed()
    }

    predicate Encodable() {
      |wrappedBlobKey.ciphertext| <= S.MAX_LENGTH && receipt.Encodable()
    }
  }

  /** The receipt's length is written in four bytes, whatever it is. */
  function StoredLayout(record: StoredReceipt): seq<byte> {
    var receipt := R.Layout(record.receipt);
    record.deviceKey + (BigEndian(|receipt|, LENGTH_SIZE) + (receipt + S.Layout(record.wrappedBlobKey)))
  }

  function ParseStored(data: seq<byte>): Result<StoredReceipt, CoreError> {
    var device := TakeBytes(data, R.DEVICE_KEY_SIZE);
    if device.None? then Err(StorageFailed)
    else
      var length := TakeInteger(device.value.1, LENGTH_SIZE);
      if length.None? then Err(StorageFailed)
      else
        var bytes := TakeBytes(length.value.1, length.value.0);
        if bytes.None? then Err(StorageFailed)
        else
          var receipt := R.Parse(bytes.value.0);
          if receipt.Err? then Err(StorageFailed)
          else
            var wrapped := S.Parse(bytes.value.1);
            if wrapped.Err? then Err(StorageFailed)
            else Ok(StoredReceipt(device.value.0, wrapped.value, receipt.value))
  }

  lemma ReceiptSize(receipt: R.Receipt)
    requires receipt.Formed()
    ensures |R.Layout(receipt)| == 106 + |receipt.wrappedKey.wrapped.ciphertext|
  {
    hide BigEndian;
  }

  lemma FourParts(a: seq<byte>, b: seq<byte>, c: seq<byte>, d: seq<byte>)
    ensures [] + a + b + c + d == a + (b + (c + d))
  {
  }

  method EncodeStored(record: StoredReceipt) returns (r: Result<seq<byte>, CoreError>)
    requires record.Formed()
    ensures r == if record.Encodable() then Ok(StoredLayout(record)) else Err(StorageFailed)
  {
    hide BigEndian, R.Layout, S.Layout;
    ReceiptSize(record.receipt);
    var receipt := R.Encode(record.receipt);
    if receipt.Err? {
      return Err(StorageFailed);
    }
    var wrapped := S.Encode(record.wrappedBlobKey);
    if wrapped.Err? {
      return Err(StorageFailed);
    }
    var buffer := new Buffer();
    buffer.AppendBytes(record.deviceKey);
    buffer.AppendInteger(|receipt.value|, LENGTH_SIZE);
    buffer.AppendBytes(receipt.value);
    buffer.AppendBytes(wrapped.value);
    FourParts(record.deviceKey, BigEndian(|receipt.value|, LENGTH_SIZE), receipt.value, wrapped.value);
    return Ok(buffer.data);
  }

  method DecodeStored(data: seq<byte>) returns (r: Result<StoredReceipt, CoreError>)
    ensures r == ParseStored(data)
  {
    hide TakeInteger, R.Parse, S.Parse;
    var reader := new Reader(data);
    var device := reader.ReadBytes(R.DEVICE_KEY_SIZE);
    if device.None? {
      return Err(StorageFailed);
    }
    var length := reader.ReadInteger(LENGTH_SIZE);
    if length.None? {
      return Err(StorageFailed);
    }
    var rest := reader.Rest();
    if length.value > |rest| {
      return Err(StorageFailed);
    }
    var receipt := R.Decode(rest[..length.value]);
    if receipt.Err? {
      return Err(StorageFailed);
    }
    var wrapped := S.Decode(rest[length.value..]);
    if wrapped.Err? {
      return Err(StorageFailed);
    }
    return Ok(StoredReceipt(device.value, wrapped.value, receipt.value));
  }

  lemma StoredLayoutParse(data: seq<byte>)
    requires ParseStored(data).Ok?
    ensures var record := ParseStored(data).value;
            && record.Formed() && record.Encodable() && record.receipt.header.version == R.RECEIPT_VERSION
            && StoredLayout(record) == data
  {
    hide TakeInteger, TakeBytes, BigEndian, R.Parse, R.Layout, S.Parse, S.Layout;
    TakenBytes(data, R.DEVICE_KEY_SIZE);
    var (_, a) := TakeBytes(data, R.DEVICE_KEY_SIZE).value;
    TakenInteger(a, LENGTH_SIZE);
    var (length, b) := TakeInteger(a, LENGTH_SIZE).value;
    TakenBytes(b, length);
    var (receipt, wrapped) := TakeBytes(b, length).value;
    R.LayoutParse(receipt);
    S.LayoutParse(wrapped);
  }

  /** No part of an encoded receipt short of the whole decodes. */
  lemma PartialReceiptFails(receipt: R.Receipt, part: seq<byte>, more: seq<byte>)
    requires receipt.Formed() && receipt.Encodable() && part + more == R.Layout(receipt) && more != []
    ensures R.Parse(part).Err?
  {
    hide R.Parse, R.Layout;
    R.ParseLayout(receipt, []);
    assert R.Layout(receipt) + [] == R.Layout(receipt);
    if R.Parse(part).Ok? {
      R.LayoutParse(part);
      R.ParseLayout(R.Parse(part).value, more);
    }
  }

  /** The four-byte length of a receipt of 2^32 bytes or more is too short. */
  lemma LengthWraps(size: nat, rest: seq<byte>)
    requires size > S.MAX_LENGTH
    ensures var taken := TakeInteger(BigEndian(size, LENGTH_SIZE) + rest, LENGTH_SIZE);
            taken.Some? && taken.value.0 < size && taken.value.1 == rest
  {
    Ranges();
    var data := BigEndian(size, LENGTH_SIZE) + rest;
    assert data[LENGTH_SIZE..] == rest;
    FromBigEndianBound(data[..LENGTH_SIZE]);
  }

  /**
   A stored receipt of the current version decodes to itself, and with anything after it to nothing,
   while the receipt is shorter than 2^32 bytes; otherwise it does not decode.
   */
  lemma ParseStoredLayout(record: StoredReceipt, more: seq<byte>)
    requires record.Formed() && record.Encodable()
    ensures ParseStored(StoredLayout(record) + more) ==
            if record.receipt.header.version == R.RECEIPT_VERSION && |R.Layout(record.receipt)| <= S.MAX_LENGTH
              && more == []
            then Ok(record) else Err(StorageFailed)
  {
    hide TakeInteger, BigEndian, R.Parse, R.Layout, S.Parse, S.Layout;
    Ranges();
    var receipt := R.Layout(record.receipt);
    var wrapped := S.Layout(record.wrappedBlobKey) + more;
    var rest := receipt + wrapped;
    var length := BigEndian(|receipt|, LENGTH_SIZE) + rest;
    assert StoredLayout(record) + more == record.deviceKey + length;
    TakeAppended(record.deviceKey, length);
    R.ParseLayout(record.receipt, []);
    assert receipt + [] == receipt;
    S.ParseLayout(record.wrappedBlobKey, more);
    if |receipt| <= S.MAX_LENGTH {
      TakeAppendedInteger(|receipt|, LENGTH_SIZE, rest);
      TakeAppended(receipt, wrapped);
    } else {
      LengthWraps(|receipt|, rest);
      var taken := TakeInteger(length, LENGTH_SIZE).value.0;
      assert rest[..taken] == receipt[..taken];
      PartialReceiptFails(record.receipt, receipt[..taken], receipt[taken..]);
    }
  }

  /** Of each kind of record, no accepted string is a proper prefix of another. */
  lemma PrefixFree(data: seq<byte>, more: seq<byte>)
    requires more != []
    ensures ParsePublication(data).Ok? ==> ParsePublication(data + more).Err?
    ensures ParsePurchase(data).Ok? ==> ParsePurchase(data + more).Err?
    ensures ParseStored(data).Ok? ==> ParseStored(data + more).Err?
  {
    hide ParsePublication, PublicationLayout, ParsePurchase, PurchaseLayout, ParseStored, StoredLayout;
    if ParsePublication(data).Ok? {
      PublicationLayoutParse(data);
      ParsePublicationLayout(ParsePublication(data).value, more);
    }
    if ParsePurchase(data).Ok? {
      PurchaseLayoutParse(data);
      ParsePurchaseLayout(ParsePurchase(data).value, more);
    }
    if ParseStored(data).Ok? {
      StoredLayoutParse(data);
      ParseStoredLayout(ParseStored(data).value, more);
    }
  }
}
