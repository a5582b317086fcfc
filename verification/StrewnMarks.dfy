/** Marks behind the tokens of a text, in any pattern: what is read from them, and what removing them leaves. */
module StrewnMarks {
  import opened Bytes
  import opened Utf8
  import opened CanonicalForm
  import opened MarkCodec
  import opened MarkChannel

  /** The tokens with a mark behind each whose bit is 1, whatever the bits are. */
  function Strewn(ts: seq<Token>, bits: seq<bit>): seq<Token>
    requires |ts| == |bits|
  {
    if ts == [] then [] else [ts[0]] + Behind(bits[0]) + Strewn(ts[1..], bits[1..])
  }

  function Behind(b: bit): seq<Token> {
    if b == 1 then [MARK_TOKEN] else []
  }

  /** The frame over and over, from position `k` of the text on. */
  function Repeated(frame: Frame, k: nat, n: nat): seq<bit> {
    seq(n, i requires 0 <= i < n => frame[(k + i) % MARK_BIT_COUNT])
  }

  lemma RepeatedStep(frame: Frame, k: nat, n: nat)
    requires n > 0
    ensures Repeated(frame, k, n) == [frame[k % MARK_BIT_COUNT]] + Repeated(frame, k + 1, n - 1)
  {
  }

  lemma RepeatedAppend(frame: Frame, k: nat, m: nat, n: nat)
    ensures Repeated(frame, k, m + n) == Repeated(frame, k, m) + Repeated(frame, k + m, n)
  {
  }

  /** A marked text has its frame strewn in, over and over. */
  lemma {:induction false} EmbedIsStrewn(ts: seq<Token>, frame: Frame, k: nat)
    requires HasNoMark(ts)
    ensures Embed(ts, frame, k) == Strewn(ts, Repeated(frame, k, |ts|))
  {
    if ts != [] {
      EmbedIsStrewn(ts[1..], frame, k + 1);
      RepeatedStep(frame, k, |ts|);
      assert !IsMark(ts[0]);
      hide Repeated;
      var bits := Repeated(frame, k, |ts|);
      assert bits[1..] == Repeated(frame, k + 1, |ts| - 1);
    }
  }

  lemma {:induction false} StrewnAppend(a: seq<Token>, u: seq<bit>, b: seq<Token>, v: seq<bit>)
    requires |a| == |u| && |b| == |v|
    ensures Strewn(a + b, u + v) == Strewn(a, u) + Strewn(b, v)
  {
    hide Behind;
    if a == [] {
      assert a + b == b && u + v == v;
    } else {
      assert (a + b)[1..] == a[1..] + b && (u + v)[1..] == u[1..] + v;
      StrewnAppend(a[1..], u[1..], b, v);
    }
  }

  /** The bit of a significant token: whether a mark follows it. */
  lemma FirstBit(t: Token, rest: seq<Token>)
    requires !IsMark(t)
    ensures SignificantBits([t] + rest) == [if rest != [] && IsMark(rest[0]) then 1 else 0] + SignificantBits(rest)
  {
    assert ([t] + rest)[1..] == rest;
  }

  lemma SkipMark(t: Token, rest: seq<Token>)
    requires IsMark(t)
    ensures SignificantBits([t] + rest) == SignificantBits(rest)
  {
    assert ([t] + rest)[1..] == rest;
  }

  lemma BehindBits(t: Token, b: bit, rest: seq<Token>)
    requires !IsMark(t) && (rest != [] ==> !IsMark(rest[0]))
    ensures SignificantBits([t] + Behind(b) + rest) == [b] + SignificantBits(rest)
  {
    hide SignificantBits;
    MarkTokenIsProper();
    FirstBit(t, Behind(b) + rest);
    SkipMark(MARK_TOKEN, rest);
    assert [t] + Behind(b) + rest == [t] + (Behind(b) + rest);
    assert [] + rest == rest;
  }

  /** The bits strewn in are the bits read. */
  lemma {:induction false} StrewnBits(ts: seq<Token>, bits: seq<bit>)
    requires HasNoMark(ts) && |ts| == |bits|
    ensures SignificantBits(Strewn(ts, bits)) == bits
    ensures if ts == [] then Strewn(ts, bits) == [] else Strewn(ts, bits) != [] && !IsMark(Strewn(ts, bits)[0])
  {
    if ts != [] {
      assert !IsMark(ts[0]) && HasNoMark(ts[1..]);
      hide SignificantBits, HasNoMark, Behind, IsMark;
      StrewnBits(ts[1..], bits[1..]);
      BehindBits(ts[0], bits[0], Strewn(ts[1..], bits[1..]));
      assert bits == [bits[0]] + bits[1..];
    }
  }

  lemma {:induction false} StrewnProper(ts: seq<Token>, bits: seq<bit>)
    requires Proper(ts) && |ts| == |bits|
    ensures Proper(Strewn(ts, bits))
  {
    if ts != [] {
      MarkTokenIsProper();
      StrewnProper(ts[1..], bits[1..]);
    }
  }

  lemma KeepBehind(b: bit, tail: seq<Token>, previous: int)
    ensures Keep(Behind(b) + tail, previous) == Keep(tail, previous)
  {
    if b == 1 {
      assert (Behind(b) + tail)[1..] == tail;
    } else {
      assert Behind(b) + tail == tail;
    }
  }

  /** Removing the channel removes whatever was strewn in. */
  lemma {:induction false} KeepStrewn(ts: seq<Token>, bits: seq<bit>, previous: int)
    requires Proper(ts) && |ts| == |bits|
    ensures Keep(Strewn(ts, bits), previous) == Keep(ts, previous)
  {
    if ts != [] {
      ProperFirst(ts);
      hide IsMarkChannel, Behind, Proper, ProperToken, Keep;
      var t, rest, tail := ts[0], ts[1..], Strewn(ts[1..], bits[1..]);
      var stays := if IsMarkChannel(t.codePoint, previous) then previous else t.codePoint;
      KeepStrewn(rest, bits[1..], stays);
      KeepFirst(t, rest, previous);
      KeepFirst(t, Behind(bits[0]) + tail, previous);
      KeepBehind(bits[0], tail, stays);
      assert Strewn(ts, bits) == [t] + (Behind(bits[0]) + tail);
    }
  }

  /** A text with bits strewn in is valid, reads as these bits, and has the canonical form of the text. */
  lemma StrewnText(text: seq<byte>, bits: seq<bit>)
    requires ValidText(text) && HasNoMark(Scan(text)) && |bits| == |Scan(text)|
    ensures var marked := Flatten(Strewn(Scan(text), bits));
            && ValidText(marked) && Canonical(marked) == Canonical(text)
            && SignificantBits(Scan(marked)) == bits
  {
    hide Decode, SignificantBits, Strewn;
    ValidIffProper(text);
    StrewnProper(Scan(text), bits);
    ProperIsValid(Strewn(Scan(text), bits));
    KeepStrewn(Scan(text), bits, UNKNOWN_CODE_POINT);
    StrewnBits(Scan(text), bits);
  }
}
