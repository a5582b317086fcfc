/**
 Writing a mark into a text and reading marks back from one. A mark travels as the presence or
 absence of U+200B after each significant code point, its 136-bit frame repeated along the text.
 */
module MarkChannel {
  import opened Bytes
  import opened Errors
  import opened Utf8
  import opened CanonicalForm
  import opened MarkCodec
  import opened LegacyMark

  const MAX_CANDIDATES := 16
  const MARK_CONFIDENCE_THRESHOLD := 2

  /** The bytes E2 80 8B. */
  const MARK_BYTES: seq<byte> := [0xE2, 0x80, 0x8B]

  datatype Candidate = Candidate(mark: Mark, count: nat)

  // ----- embedding, on tokens -----

  const MARK_TOKEN := Token(MARK_CODE_POINT, MARK_BYTES)

  function Significant(ts: seq<Token>): nat {
    if ts == [] then 0 else (if IsMark(ts[0]) then 0 else 1) + Significant(ts[1..])
  }

  ghost predicate HasChannel(text: seq<byte>) {
    ValidText(text) && Significant(Scan(text)) >= MARK_BIT_COUNT
  }

  /** The marks written behind the significant token number `k`. */
  function Written(frame: Frame, k: nat): seq<Token> {
    if frame[k % MARK_BIT_COUNT] == 1 then [MARK_TOKEN] else []
  }

  function Embed(ts: seq<Token>, frame: Frame, k: nat): seq<Token> {
    if ts == [] then []
    else if IsMark(ts[0]) then [ts[0]] + Embed(ts[1..], frame, k)
    else [ts[0]] + Written(frame, k) + Embed(ts[1..], frame, k + 1)
  }

  ghost function Embedded(text: seq<byte>, mark: Mark): Option<seq<byte>> {
    if HasChannel(text) then Some(Flatten(Embed(Scan(text), FrameOf(mark), 0))) else None
  }

  /** `significant` counts the significant code points before `offset`. */
  ghost predicate CountedUpTo(text: seq<byte>, offset: nat, significant: nat)
    requires offset <= |text|
  {
    Significant(Scan(text)) == significant + Significant(Scan(text[offset..]))
  }

  lemma CountStep(text: seq<byte>, offset: nat, significant: nat, length: nat)
    requires offset < |text| && CountedUpTo(text, offset, significant)
    requires length == |Decode(text[offset..]).bytes|
    ensures CountedUpTo(text, offset + length, if IsMark(Decode(text[offset..])) then significant else significant + 1)
  {
    var rest := text[offset..];
    assert rest[length..] == text[offset + length..];
    assert Scan(rest)[1..] == Scan(rest[length..]);
  }

  lemma CountStart(text: seq<byte>)
    ensures CountedUpTo(text, 0, 0)
  {
    assert text[0..] == text;
  }

  lemma CountEnd(text: seq<byte>, significant: nat)
    requires CountedUpTo(text, |text|, significant)
    ensures significant == Significant(Scan(text))
  {
    assert text[|text|..] == [];
  }

  function CodePointLength(codePoint: int, length: nat): nat {
    if codePoint == UNKNOWN_CODE_POINT then 1 else length
  }

  /** Decoding one code point together with the length by which a walk over the text moves on. */
  method NextCodePoint(text: seq<byte>, offset: nat) returns (codePoint: int, length: nat)
    requires offset < |text|
    ensures offset + length <= |text| && length == |Decode(text[offset..]).bytes| > 0
    ensures codePoint == Decode(text[offset..]).codePoint
  {
    UnknownIsOneByte(text[offset..]);
    var decodedLength;
    codePoint, decodedLength := DecodeUtf8(text, offset);
    length := CodePointLength(codePoint, decodedLength);
  }

  method HasMarkChannel(text: seq<byte>) returns (present: bool)
    ensures present <==> HasChannel(text)
  {
    hide Decode, CountedUpTo, Scan, ValidText, Significant;
    var valid := IsValidUtf8(text);
    if !valid {
      return false;
    }
    var significant: nat := 0;
    var offset: nat := 0;
    CountStart(text);
    while offset < |text|
      invariant offset <= |text|
      invariant CountedUpTo(text, offset, significant)
    {
      var codePoint, length := NextCodePoint(text, offset);
      CountStep(text, offset, significant, length);
      if codePoint != MARK_CODE_POINT {
        significant := significant + 1;
      }
      offset := offset + length;
    }
    CountEnd(text, significant);
    return significant >= MARK_BIT_COUNT;
  }

  /** The embedded form of the rest of a text, from significant token number `k` on. */
  function EmbedFrom(rest: seq<byte>, frame: Frame, k: nat): seq<byte> {
    Flatten(Embed(Scan(rest), frame, k))
  }

  lemma EmbedStep(rest: seq<byte>, before: seq<byte>, frame: Frame, k: nat)
    requires rest != []
    ensures var t := Decode(rest);
            var after := rest[|t.bytes|..];
            before + EmbedFrom(rest, frame, k) ==
            if IsMark(t) then before + t.bytes + EmbedFrom(after, frame, k)
            else if frame[k % MARK_BIT_COUNT] == 1 then before + t.bytes + MARK_BYTES + EmbedFrom(after, frame, k + 1)
            else before + t.bytes + EmbedFrom(after, frame, k + 1)
  {
    var t := Decode(rest);
    var after := rest[|t.bytes|..];
    assert Scan(rest)[1..] == Scan(after);
    if IsMark(t) {
      var tail := Embed(Scan(after), frame, k);
      FlattenAppend([t], tail);
      FlattenOne(t);
    } else {
      var tail := Embed(Scan(after), frame, k + 1);
      FlattenAppend([t] + Written(frame, k), tail);
      FlattenAppend([t], Written(frame, k));
      FlattenOne(t);
      FlattenOne(MARK_TOKEN);
    }
  }

  lemma FlattenOne(t: Token)
    ensures Flatten([t]) == t.bytes
  {
    assert [t][1..] == [];
  }

  /** `marked` is the embedded form of what lies before `offset`. */
  ghost predicate EmbeddedUpTo(text: seq<byte>, offset: nat, frame: Frame, k: nat, marked: seq<byte>)
    requires offset <= |text|
  {
    EmbedFrom(text, frame, 0) == marked + EmbedFrom(text[offset..], frame, k)
  }

  lemma EmbedAdvance(text: seq<byte>, offset: nat, frame: Frame, k: nat, marked: seq<byte>, length: nat)
    requires offset < |text| && EmbeddedUpTo(text, offset, frame, k, marked)
    requires length == |Decode(text[offset..]).bytes|
    ensures var read := text[offset..offset + length];
            if IsMark(Decode(text[offset..])) then EmbeddedUpTo(text, offset + length, frame, k, marked + read)
            else if frame[k % MARK_BIT_COUNT] == 1 then
              EmbeddedUpTo(text, offset + length, frame, k + 1, marked + read + MARK_BYTES)
            else EmbeddedUpTo(text, offset + length, frame, k + 1, marked + read)
  {
    hide Decode, EmbedFrom;
    EmbedStep(text[offset..], marked, frame, k);
    assert text[offset..][length..] == text[offset + length..];
  }

  lemma EmbedStart(text: seq<byte>, frame: Frame)
    ensures EmbeddedUpTo(text, 0, frame, 0, [])
  {
    assert text[0..] == text;
  }

  lemma EmbedEnd(text: seq<byte>, frame: Frame, k: nat, marked: seq<byte>)
    requires EmbeddedUpTo(text, |text|, frame, k, marked)
    ensures marked == EmbedFrom(text, frame, 0)
  {
    assert marked + [] == marked;
  }

  method EmbedMark(text: seq<byte>, mark: Mark) returns (result: Option<seq<byte>>)
    ensures result == Embedded(text, mark)
  {
    hide Decode, Scan, EmbeddedUpTo, FrameOf, HasChannel, Flatten, Embed;
    var present := HasMarkChannel(text);
    if !present {
      return None;
    }
    var encoded := EncodeMark(mark);
    var bits: Frame := encoded[..];
    var marked: seq<byte> := [];
    var significant: nat := 0;
    var offset: nat := 0;
    EmbedStart(text, bits);
    while offset < |text|
      invariant offset <= |text|
      invariant EmbeddedUpTo(text, offset, bits, significant, marked)
    {
      var codePoint, length := NextCodePoint(text, offset);
      EmbedAdvance(text, offset, bits, significant, marked, length);
      marked := marked + text[offset..offset + length];
      if codePoint != MARK_CODE_POINT {
        if bits[significant % MARK_BIT_COUNT] == 1 {
          marked := marked + MARK_BYTES;
        }
        significant := significant + 1;
      }
      offset := offset + length;
    }
    EmbedEnd(text, bits, significant, marked);
    return Some(marked);
  }

  // ----- what embedding keeps -----

  lemma MarkTokenIsProper()
    ensures ProperToken(MARK_TOKEN) && IsMark(MARK_TOKEN)
  {
  }

  lemma {:induction false} EmbedProper(ts: seq<Token>, frame: Frame, k: nat)
    requires Proper(ts)
    ensures Proper(Embed(ts, frame, k))
  {
    if ts != [] {
      MarkTokenIsProper();
      EmbedProper(ts[1..], frame, k);
      EmbedProper(ts[1..], frame, k + 1);
    }
  }

  /** Removing the channel undoes the embedding, whatever marks the text already carried. */
  lemma {:induction false} KeepEmbedded(ts: seq<Token>, frame: Frame, k: nat, previous: int)
    requires Proper(ts)
    ensures Keep(Embed(ts, frame, k), previous) == Keep(ts, previous)
  {
    if ts != [] {
      ProperFirst(ts);
      hide IsMarkChannel, Written, Proper, ProperToken, Embed, Keep;
      var t, rest := ts[0], ts[1..];
      EmbedFirst(ts, frame, k);
      KeepFirst(t, rest, previous);
      if IsMark(t) {
        MarkIsChannel(t, previous);
        KeepEmbedded(rest, frame, k, previous);
        KeepFirst(t, Embed(rest, frame, k), previous);
      } else {
        var stays := if IsMarkChannel(t.codePoint, previous) then previous else t.codePoint;
        KeepEmbedded(rest, frame, k + 1, stays);
        KeepFirst(t, Written(frame, k) + Embed(rest, frame, k + 1), previous);
        KeepWritten(frame, k, Embed(rest, frame, k + 1), stays);
      }
    }
  }

  lemma ProperFirst(ts: seq<Token>)
    requires ts != [] && Proper(ts)
    ensures ts == [ts[0]] + ts[1..] && ts[0].codePoint != UNKNOWN_CODE_POINT && Proper(ts[1..])
  {
  }

  lemma EmbedFirst(ts: seq<Token>, frame: Frame, k: nat)
    requires ts != []
    ensures Embed(ts, frame, k) ==
            [ts[0]] + if IsMark(ts[0]) then Embed(ts[1..], frame, k)
                      else Written(frame, k) + Embed(ts[1..], frame, k + 1)
  {
    hide Written;
  }

  lemma KeepFirst(t: Token, rest: seq<Token>, previous: int)
    requires t.codePoint != UNKNOWN_CODE_POINT
    ensures Keep([t] + rest, previous) ==
            if IsMarkChannel(t.codePoint, previous) then Keep(rest, previous) else [t] + Keep(rest, t.codePoint)
  {
    hide IsMarkChannel;
    assert ([t] + rest)[1..] == rest;
  }

  lemma MarkIsChannel(t: Token, previous: int)
    requires IsMark(t)
    ensures t.codePoint != UNKNOWN_CODE_POINT && IsMarkChannel(t.codePoint, previous)
  {
  }

  lemma KeepWritten(frame: Frame, k: nat, tail: seq<Token>, previous: int)
    ensures Keep(Written(frame, k) + tail, previous) == Keep(tail, previous)
  {
    if frame[k % MARK_BIT_COUNT] == 1 {
      assert (Written(frame, k) + tail)[1..] == tail;
    } else {
      assert Written(frame, k) + tail == tail;
    }
  }

  /** A marked text is valid, scans to the embedded tokens, and has the canonical form of the original. */
  lemma MarkedText(text: seq<byte>, mark: Mark)
    requires HasChannel(text)
    ensures var marked := Embedded(text, mark).value;
            && ValidText(marked)
            && Scan(marked) == Embed(Scan(text), FrameOf(mark), 0)
            && Canonical(marked) == Canonical(text)
  {
    ValidIffProper(text);
    EmbedProper(Scan(text), FrameOf(mark), 0);
    ProperIsValid(Embed(Scan(text), FrameOf(mark), 0));
    KeepEmbedded(Scan(text), FrameOf(mark), 0, UNKNOWN_CODE_POINT);
  }

  /** Number of 1-bits emitted for the significant tokens numbered `k` and on. */
  function Emitted(ts: seq<Token>, frame: Frame, k: nat): nat {
    if ts == [] then 0
    else if IsMark(ts[0]) then Emitted(ts[1..], frame, k)
    else |Written(frame, k)| + Emitted(ts[1..], frame, k + 1)
  }

  lemma {:induction false} EmbedSize(ts: seq<Token>, frame: Frame, k: nat)
    requires forall t | t in ts :: t.bytes != []
    ensures |Flatten(Embed(ts, frame, k))| == |Flatten(ts)| + 3 * Emitted(ts, frame, k)
    ensures Emitted(ts, frame, k) <= Significant(ts) <= |Flatten(ts)|
  {
    if ts != [] {
      if IsMark(ts[0]) {
        EmbedSize(ts[1..], frame, k);
        FlattenAppend([ts[0]], Embed(ts[1..], frame, k));
        FlattenOne(ts[0]);
      } else {
        EmbedSize(ts[1..], frame, k + 1);
        FlattenAppend([ts[0]] + Written(frame, k), Embed(ts[1..], frame, k + 1));
        FlattenAppend([ts[0]], Written(frame, k));
        FlattenOne(ts[0]);
        FlattenOne(MARK_TOKEN);
      }
    }
  }

  const MAX_CONTENT_BYTES := 4 * 1024 * 1024
  const MAX_RESPONSE_BYTES := 8 * MAX_CONTENT_BYTES + 64 * 1024

  /**
   A marked text is at most four times as long as the original, so the hexadecimal form of the
   copy delivered for any content within the publishing limit leaves 64 KiB of a response free.
   */
  lemma MarkedSize(content: seq<byte>, mark: Mark)
    requires |content| <= 4_194_304
    requires HasChannel(Canonical(content))
    ensures var stored := Canonical(content);
            var delivered := Embedded(stored, mark).value;
            && |delivered| == |stored| + 3 * Emitted(Scan(stored), FrameOf(mark), 0)
            && |delivered| <= 4 * |stored|
            && 2 * |delivered| + 65_536 <= 33_619_968 == MAX_RESPONSE_BYTES
  {
    var stored := Canonical(content);
    CanonicalNeverLonger(content);
    ScanTokensNonempty(stored);
    EmbedSize(Scan(stored), FrameOf(mark), 0);
    FlattenScan(stored);
  }

  // ----- reading, on tokens -----

  /** One bit per significant token: whether a mark follows it. */
  function SignificantBits(ts: seq<Token>): seq<bit> {
    if ts == [] then []
    else if IsMark(ts[0]) then SignificantBits(ts[1..])
    else [if |ts| > 1 && IsMark(ts[1]) then 1 else 0] + SignificantBits(ts[1..])
  }

  /** The 136 bits that end before position `i`. */
  function Window(bits: seq<bit>, i: nat): Frame
    requires MARK_BIT_COUNT <= i <= |bits|
  {
    bits[i - MARK_BIT_COUNT..i]
  }

  predicate LegacyAt(bits: seq<bit>, i: nat)
    requires MARK_BIT_COUNT <= i <= |bits|
  {
    IsLegacy(Window(bits, i))
  }

  predicate LegacySeen(bits: seq<bit>) {
    exists i | MARK_BIT_COUNT <= i <= |bits| :: LegacyAt(bits, i)
  }

  /** What the window that ends with the last bit contributes. */
  function Vote(bits: seq<bit>): seq<Mark>
    requires |bits| >= MARK_BIT_COUNT
  {
    var frame := Window(bits, |bits|);
    if IsLegacy(frame) || MarkOf(frame).version != MARK_VERSION then [] else [MarkOf(frame)]
  }

  /** The marks of the current version that the windows show, in reading order. */
  function Votes(bits: seq<bit>): seq<Mark> {
    if |bits| < MARK_BIT_COUNT then [] else Votes(bits[..|bits| - 1]) + Vote(bits)
  }

  function IndexOf(cs: seq<Candidate>, mark: Mark): (i: nat)
    ensures i <= |cs|
    ensures i < |cs| ==> cs[i].mark == mark
    ensures forall j | 0 <= j < i :: cs[j].mark != mark
  {
    if cs == [] || cs[0].mark == mark then 0 else 1 + IndexOf(cs[1..], mark)
  }

  /** The candidate table after one more sighting; a full table takes no new mark. */
  function Counted(cs: seq<Candidate>, mark: Mark): seq<Candidate> {
    var i := IndexOf(cs, mark);
    if i < |cs| then cs[i := Candidate(mark, cs[i].count + 1)]
    else if |cs| < MAX_CANDIDATES then cs + [Candidate(mark, 1)]
    else cs
  }

  function Tally(marks: seq<Mark>): (cs: seq<Candidate>)
    ensures |cs| <= MAX_CANDIDATES
  {
    if marks == [] then [] else Counted(Tally(marks[..|marks| - 1]), marks[|marks| - 1])
  }

  function Confident(cs: seq<Candidate>): seq<Mark> {
    if cs == [] then []
    else
      var last := cs[|cs| - 1];
      Confident(cs[..|cs| - 1]) + if last.count >= MARK_CONFIDENCE_THRESHOLD then [last.mark] else []
  }

  /** What reading a text finds, in terms of the windows of its significant bits. */
  function Marks(text: seq<byte>): Result<seq<Mark>, CoreError> {
    var bits := SignificantBits(Scan(text));
    var confident := Confident(Tally(Votes(bits)));
    if LegacySeen(bits) then Err(MarkVersionUnsupported)
    else if confident != [] then Ok(confident)
    else if HasNoMark(Scan(text)) then Err(MarkNotFound)
    else Err(MarkNotConfident)
  }

  // ----- reading, as the library does it -----

  /** A shift register of 136 bits; index 0 is the most recent bit. */
  function Shift(window: Frame): Frame {
    [0] + window[..MARK_BIT_COUNT - 1]
  }

  /** The register read oldest bit first. */
  function ToBits(window: Frame): Frame {
    seq(MARK_BIT_COUNT, i requires 0 <= i < MARK_BIT_COUNT => window[MARK_BIT_COUNT - 1 - i])
  }

  /** The last 136 bits, with zeros where there are not yet enough. */
  function Recent(bits: seq<bit>): Frame {
    (Zeros(MARK_BIT_COUNT) + bits)[|bits|..]
  }

  /** Shifting a bit in keeps the register equal to the window of the last 136 bits. */
  lemma RegisterStep(window: Frame, bits: seq<bit>, b: bit)
    requires ToBits(window) == Recent(bits)
    ensures ToBits(Shift(window)[0 := b]) == Recent(bits + [b])
    ensures |bits| + 1 >= MARK_BIT_COUNT ==> Recent(bits + [b]) == Window(bits + [b], |bits| + 1)
  {
    var next := Shift(window)[0 := b];
    forall i | 0 <= i < MARK_BIT_COUNT ensures ToBits(next)[i] == Recent(bits + [b])[i] {
      if i < MARK_BIT_COUNT - 1 {
        assert ToBits(next)[i] == ToBits(window)[i + 1];
        assert Recent(bits + [b])[i] == Recent(bits)[i + 1];
      }
    }
  }

  lemma SignificantBitsStep(rest: seq<byte>)
    requires rest != []
    ensures var t := Decode(rest);
            var after := rest[|t.bytes|..];
            && SignificantBits(Scan(rest)) ==
               (if IsMark(t) then [] else [if after != [] && IsMark(Decode(after)) then 1 else 0])
               + SignificantBits(Scan(after))
            && (HasNoMark(Scan(rest)) <==> !IsMark(t) && HasNoMark(Scan(after)))
  {
    var t := Decode(rest);
    var after := rest[|t.bytes|..];
    assert Scan(rest) == [t] + Scan(after);
    assert Scan(rest)[1..] == Scan(after);
    forall i | 0 <= i < |Scan(after)| ensures Scan(after)[i] == Scan(rest)[i + 1] {
    }
    if HasNoMark(Scan(rest)) {
      forall i | 0 <= i < |Scan(after)| ensures !IsMark(Scan(after)[i]) {
        assert !IsMark(Scan(rest)[i + 1]);
      }
    }
  }

  lemma WindowOfPrefix(bits: seq<bit>, b: bit, i: nat)
    requires MARK_BIT_COUNT <= i <= |bits|
    ensures LegacyAt(bits + [b], i) == LegacyAt(bits, i)
  {
    assert Window(bits + [b], i) == Window(bits, i);
  }

  lemma LegacySeenStep(bits: seq<bit>, b: bit)
    ensures LegacySeen(bits + [b]) <==>
            LegacySeen(bits) || (|bits| + 1 >= MARK_BIT_COUNT && LegacyAt(bits + [b], |bits| + 1))
  {
    hide LegacyAt;
    forall i | MARK_BIT_COUNT <= i <= |bits| ensures LegacyAt(bits + [b], i) == LegacyAt(bits, i) {
      WindowOfPrefix(bits, b, i);
    }
  }

  lemma VotesStep(bits: seq<bit>, b: bit)
    ensures Votes(bits + [b]) ==
            if |bits| + 1 < MARK_BIT_COUNT then [] else Votes(bits) + Vote(bits + [b])
  {
    assert (bits + [b])[..|bits|] == bits;
  }

  lemma TallyStep(marks: seq<Mark>, mark: Mark)
    ensures Tally(marks + [mark]) == Counted(Tally(marks), mark)
  {
    assert (marks + [mark])[..|marks|] == marks;
  }

  method CountOccurrence(candidates: array<Candidate>, count: nat, mark: Mark) returns (after: nat)
    requires candidates.Length == MAX_CANDIDATES && count <= MAX_CANDIDATES
    modifies candidates
    ensures after <= MAX_CANDIDATES
    ensures candidates[..after] == Counted(old(candidates[..count]), mark)
  {
    ghost var cs := candidates[..count];
    var index := 0;
    while index < count
      invariant 0 <= index <= count
      invariant candidates[..count] == cs
      invariant forall j | 0 <= j < index :: cs[j].mark != mark
    {
      if candidates[index].mark == mark {
        assert IndexOf(cs, mark) == index;
        candidates[index] := Candidate(mark, candidates[index].count + 1);
        return count;
      }
      index := index + 1;
    }
    assert IndexOf(cs, mark) == |cs|;
    after := count;
    if count < MAX_CANDIDATES {
      candidates[count] := Candidate(mark, 1);
      after := count + 1;
    }
  }

  predicate MarkFollows(text: seq<byte>, offset: nat)
    requires offset <= |text|
  {
    offset < |text| && IsMark(Decode(text[offset..]))
  }

  method NextIsMark(text: seq<byte>, offset: nat) returns (next: bool)
    requires offset <= |text|
    ensures next <==> MarkFollows(text, offset)
  {
    if offset < |text| {
      var codePoint, _ := DecodeUtf8(text, offset);
      return codePoint == MARK_CODE_POINT;
    }
    return false;
  }

  method ConfidentMarks(candidates: array<Candidate>, count: nat) returns (confident: seq<Mark>)
    requires count <= candidates.Length
    ensures confident == Confident(candidates[..count])
  {
    confident := [];
    var index := 0;
    while index < count
      invariant 0 <= index <= count
      invariant confident == Confident(candidates[..index])
    {
      assert candidates[..index + 1][..index] == candidates[..index];
      if candidates[index].count >= MARK_CONFIDENCE_THRESHOLD {
        confident := confident + [candidates[index].mark];
      }
      index := index + 1;
    }
  }

  /**
   What the local variables of the reading loop stand for once everything before `offset` is read:
   `bits` are the significant bits so far.
   */
  ghost predicate ReadUpTo(text: seq<byte>, offset: nat, bits: seq<bit>, markSeen: bool)
    requires offset <= |text|
  {
    && SignificantBits(Scan(text)) == bits + SignificantBits(Scan(text[offset..]))
    && (HasNoMark(Scan(text)) <==> !markSeen && HasNoMark(Scan(text[offset..])))
  }

  ghost predicate Observed(bits: seq<bit>, window: Frame, legacySeen: bool, cs: seq<Candidate>) {
    && ToBits(window) == Recent(bits)
    && (legacySeen <==> LegacySeen(bits))
    && cs == Tally(Votes(bits))
  }

  lemma ReadMarkStep(text: seq<byte>, offset: nat, bits: seq<bit>, markSeen: bool, length: nat)
    requires offset < |text| && ReadUpTo(text, offset, bits, markSeen)
    requires length == |Decode(text[offset..]).bytes| && IsMark(Decode(text[offset..]))
    ensures ReadUpTo(text, offset + length, bits, true)
  {
    SignificantBitsStep(text[offset..]);
    assert text[offset..][length..] == text[offset + length..];
  }

  lemma ReadBitStep(text: seq<byte>, offset: nat, bits: seq<bit>, markSeen: bool, length: nat, b: bit)
    requires offset < |text| && ReadUpTo(text, offset, bits, markSeen)
    requires length == |Decode(text[offset..]).bytes| && !IsMark(Decode(text[offset..]))
    requires b == 1 <==> MarkFollows(text, offset + length)
    ensures ReadUpTo(text, offset + length, bits + [b], markSeen)
  {
    hide Decode, Scan, SignificantBits, HasNoMark;
    var after := text[offset + length..];
    SignificantBitsStep(text[offset..]);
    assert text[offset..][length..] == after;
    assert SignificantBits(Scan(text[offset..])) == [b] + SignificantBits(Scan(after));
    assert bits + ([b] + SignificantBits(Scan(after))) == (bits + [b]) + SignificantBits(Scan(after));
  }

  lemma ReadStart(text: seq<byte>, window: Frame)
    requires window == Zeros(MARK_BIT_COUNT)
    ensures ReadUpTo(text, 0, [], false) && Observed([], window, false, [])
  {
    assert text[0..] == text;
  }

  lemma ReadEnd(text: seq<byte>, bits: seq<bit>, markSeen: bool, window: Frame, legacySeen: bool, cs: seq<Candidate>)
    requires ReadUpTo(text, |text|, bits, markSeen) && Observed(bits, window, legacySeen, cs)
    ensures Marks(text) ==
            if legacySeen then Err(MarkVersionUnsupported)
            else if Confident(cs) != [] then Ok(Confident(cs))
            else if !markSeen then Err(MarkNotFound)
            else Err(MarkNotConfident)
  {
    assert bits + [] == bits;
  }

  /** The register, the legacy flag and the candidate table after one more significant bit. */
  lemma ObserveStep(bits: seq<bit>, window: Frame, legacySeen: bool, cs: seq<Candidate>, b: bit)
    requires Observed(bits, window, legacySeen, cs)
    ensures var next := Shift(window)[0 := b];
            var frame := ToBits(next);
            if |bits| + 1 < MARK_BIT_COUNT then Observed(bits + [b], next, legacySeen, cs)
            else if IsLegacy(frame) then Observed(bits + [b], next, true, cs)
            else if MarkOf(frame).version != MARK_VERSION then Observed(bits + [b], next, legacySeen, cs)
            else Observed(bits + [b], next, legacySeen, Counted(cs, MarkOf(frame)))
  {
    RegisterStep(window, bits, b);
    LegacySeenStep(bits, b);
    VotesStep(bits, b);
    assert Votes(bits) + [] == Votes(bits);
    if |bits| + 1 >= MARK_BIT_COUNT {
      TallyStep(Votes(bits), MarkOf(ToBits(Shift(window)[0 := b])));
    }
  }

  method ReadMarks(text: seq<byte>) returns (result: Result<seq<Mark>, CoreError>)
    ensures result == Marks(text)
  {
    hide Decode, ReadUpTo, Observed, ToBits, MarkOf, IsLegacy, Counted, MarkFollows, Scan, SignificantBits, Marks,
      Confident;
    var candidates := NoCandidates();
    var candidateCount: nat := 0;
    var markSeen := false;
    var legacySeen := false;
    var window: Frame := Zeros(MARK_BIT_COUNT);
    var filled: nat := 0;
    ghost var bits: seq<bit> := [];
    ghost var table: seq<Candidate> := candidates[..0];
    var offset: nat := 0;
    ReadStart(text, window);
    while offset < |text|
      invariant offset <= |text| && candidateCount <= MAX_CANDIDATES && filled == |bits|
      invariant ReadUpTo(text, offset, bits, markSeen)
      invariant table == candidates[..candidateCount]
      invariant Observed(bits, window, legacySeen, table)
    {
      var codePoint, length := NextCodePoint(text, offset);
      ghost var start := offset;
      offset := offset + length;
      if codePoint == MARK_CODE_POINT {
        ReadMarkStep(text, start, bits, markSeen, length);
        markSeen := true;
        continue;
      }
      var next := NextIsMark(text, offset);
      ghost var b: bit := if next then 1 else 0;
      ReadBitStep(text, start, bits, markSeen, length, b);
      ObserveStep(bits, window, legacySeen, table, b);
      bits := bits + [b];
      window := Shift(window);
      assert window == window[0 := 0];
      if next {
        window := window[0 := 1];
      }
      filled := filled + 1;
      if filled < MARK_BIT_COUNT {
        continue;
      }
      var frame := ToBits(window);
      var legacy := IsLegacyMark(frame);
      if legacy {
        legacySeen := true;
        continue;
      }
      var mark := DecodeMark(frame);
      if mark.version == MARK_VERSION {
        candidateCount := CountOccurrence(candidates, candidateCount, mark);
        table := Counted(table, mark);
      }
    }
    ReadEnd(text, bits, markSeen, window, legacySeen, table);
    var confident := ConfidentMarks(candidates, candidateCount);
    if legacySeen {
      return Err(MarkVersionUnsupported);
    }
    if confident != [] {
      return Ok(confident);
    }
    if !markSeen {
      return Err(MarkNotFound);
    }
    return Err(MarkNotConfident);
  }

  method NoCandidates() returns (candidates: array<Candidate>)
    ensures fresh(candidates) && candidates.Length == MAX_CANDIDATES
  {
    var blank := Mark(0, [0, 0, 0, 0, 0, 0, 0, 0], 0);
    candidates := new Candidate[MAX_CANDIDATES](_ => Candidate(blank, 0));
  }
}
