/** The byte formats field by field, at offsets and sizes written out. */
module Offsets {
  import opened Bytes
  import opened Binary
  import S = SealedContentCodec
  import R = ReceiptCodec
  import D = Records

  /** An integer without its last `k` bytes. */
  function WithoutBytes(value: nat, k: nat): nat {
    if k == 0 then value else WithoutBytes(value / 256, k - 1)
  }

  /** The bytes of an integer, the most significant one first. */
  lemma {:induction false} BigEndianAt(value: nat, width: nat, i: nat)
    requires i < width
    ensures BigEndian(value, width)[i] == WithoutBytes(value, width - 1 - i) % 256
  {
    if i < width - 1 {
      BigEndianAt(value / 256, width - 1, i);
    }
  }

  lemma SealedOffsets(s: S.SealedContent)
    requires s.Formed()
    ensures var d, n := S.Layout(s), |s.ciphertext|;
            && |d| == 33 + n && d[0] == s.algorithm && d[1..13] == s.nonce && d[13..17] == BigEndian(n, 4)
            && d[17..17 + n] == s.ciphertext && d[17 + n..] == s.tag
  {
  }

  lemma HeaderOffsets(h: R.Header)
    requires h.Formed()
    ensures var d := R.AssociatedData(h);
            && |d| == 41 && d[0] == h.version && d[1..9] == BigEndian(h.purchaseId, 8) && d[9..25] == h.userId
            && d[25..33] == BigEndian(R.Unsigned(h.purchasedAt), 8) && d[33..] == BigEndian(R.Unsigned(h.issuedAt), 8)
  {
    hide BigEndian;
    assert BigEndian(h.version, 1) == [h.version] by { OneByte(h.version); }
  }

  lemma OneByte(b: byte)
    ensures BigEndian(b, 1) == [b]
  {
  }

  lemma ReceiptOffsets(r: R.Receipt)
    requires r.Formed()
    ensures var d := R.Layout(r);
            && |d| >= 73 && d[..41] == R.AssociatedData(r.header) && d[41..73] == r.wrappedKey.ephemeralKey
            && d[73..] == S.Layout(r.wrappedKey.wrapped)
  {
    HeaderOffsets(r.header);
    hide S.Layout, R.AssociatedData;
  }

  lemma PurchaseOffsets(p: D.Purchase)
    requires |p.userId| == 16
    ensures var d := D.PurchaseLayout(p);
            && |d| == 40 && d[..8] == BigEndian(p.purchaseId, 8) && d[8..24] == p.userId
            && d[24..32] == BigEndian(p.publicationId, 8) && d[32..] == BigEndian(R.Unsigned(p.purchasedAt), 8)
  {
    hide BigEndian;
  }

  lemma TextOffsets(t: D.Text)
    ensures D.TextLayout(t)[..4] == BigEndian(|t|, 4) && D.TextLayout(t)[4..] == t
  {
    hide BigEndian;
  }

  /** A publication: its texts begin at byte 24, and 145 bytes of fixed size follow them. */
  lemma PublicationOffsets(p: D.Publication)
    requires p.Formed()
    ensures var d, texts := D.PublicationLayout(p),
                D.TextLayout(p.names.authorName) + D.TextLayout(p.names.title) + D.TextLayout(p.names.fileName);
            var n := 24 + |texts|;
            && |d| == n + 145 && d[..8] == BigEndian(p.names.publicationId, 8) && d[8..24] == p.names.authorId
            && d[24..n] == texts
            && d[n..n + 8] == BigEndian(p.size, 8) && d[n + 8..n + 16] == BigEndian(R.Unsigned(p.publishedAt), 8)
            && d[n + 16..n + 48] == p.identity && d[n + 48..n + 80] == p.authorKey && d[n + 80] == p.algorithm
            && d[n + 81..] == p.signature
  {
    assert BigEndian(p.algorithm, 1) == [p.algorithm] by { OneByte(p.algorithm); }
    hide BigEndian, D.TextLayout;
  }

  lemma Four(a: seq<byte>, b: seq<byte>, c: seq<byte>, d: seq<byte>)
    requires |a| == 32 && |b| == 4
    ensures var s, n := a + (b + (c + d)), |c|;
            && |s| == 36 + n + |d| && s[..32] == a && s[32..36] == b && s[36..36 + n] == c && s[36 + n..] == d
  {
  }

  lemma StoredOffsets(r: D.StoredReceipt)
    requires r.Formed()
    ensures var d, n := D.StoredLayout(r), |R.Layout(r.receipt)|;
            && |d| >= 36 + n && d[..32] == r.deviceKey && d[32..36] == BigEndian(n, 4)
            && d[36..36 + n] == R.Layout(r.receipt) && d[36 + n..] == S.Layout(r.wrappedBlobKey)
  {
    hide BigEndian, R.Layout, S.Layout;
    var receipt, wrapped := R.Layout(r.receipt), S.Layout(r.wrappedBlobKey);
    Four(r.deviceKey, BigEndian(|receipt|, 4), receipt, wrapped);
    assert D.StoredLayout(r) == r.deviceKey + (BigEndian(|receipt|, 4) + (receipt + wrapped));
    hide D.StoredLayout;
  }
}
