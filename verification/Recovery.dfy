/** What reading a marked text, or an excerpt of one, gives back. */
module Recovery {
  import opened Bytes
  import opened Errors
  import opened Utf8
  import opened CanonicalForm
  import opened MarkCodec
  import opened LegacyMark
  import opened MarkChannel
  import opened StrewnMarks
  import opened CandidateTable

  /** Every rotation of a frame appears twice in this many aligned windows and one period more. */
  const RECOVERABLE_WHOLE := 272
  const RECOVERABLE_EXCERPT := 407

  function Rotation(frame: Frame, r: nat): Frame
    requires r < MARK_BIT_COUNT
  {
    frame[r..] + frame[..r]
  }

  predicate LegacyRotation(frame: Frame, r: nat)
    requires r < MARK_BIT_COUNT
  {
    IsLegacy(Rotation(frame, r))
  }

  predicate HasLegacyRotation(frame: Frame) {
    exists r | 0 <= r < MARK_BIT_COUNT :: LegacyRotation(frame, r)
  }

  function RotatedMark(frame: Frame, r: nat): Mark
    requires r < MARK_BIT_COUNT
  {
    MarkOf(Rotation(frame, r))
  }

  /** The marks of the current version among the rotations of a frame. */
  function RotatedMarks(frame: Frame): set<Mark> {
    set r | 0 <= r < MARK_BIT_COUNT && RotatedMark(frame, r).version == MARK_VERSION :: RotatedMark(frame, r)
  }

  // ----- windows over a repeated frame -----

  /** Bits that repeat a frame, starting `start` bits into it. */
  predicate Periodic(bits: seq<bit>, frame: Frame, start: nat) {
    forall i | 0 <= i < |bits| :: bits[i] == frame[(start + i) % MARK_BIT_COUNT]
  }

  lemma RotationAt(frame: Frame, r: nat, i: nat)
    requires r < MARK_BIT_COUNT && i < MARK_BIT_COUNT
    ensures Rotation(frame, r)[i] == frame[(r + i) % MARK_BIT_COUNT]
  {
    if r + i < MARK_BIT_COUNT {
      assert frame[r..][i] == frame[r + i];
    } else {
      assert (r + i) % MARK_BIT_COUNT == r + i - MARK_BIT_COUNT;
    }
  }

  lemma ModStep(a: nat, i: nat)
    ensures (a % MARK_BIT_COUNT + i) % MARK_BIT_COUNT == (a + i) % MARK_BIT_COUNT
  {
  }

  lemma WindowIsRotation(bits: seq<bit>, frame: Frame, start: nat, i: nat)
    requires Periodic(bits, frame, start) && MARK_BIT_COUNT <= i <= |bits|
    ensures Window(bits, i) == Rotation(frame, (start + i - MARK_BIT_COUNT) % MARK_BIT_COUNT)
  {
    var from := i - MARK_BIT_COUNT;
    var r := (start + from) % MARK_BIT_COUNT;
    forall k | 0 <= k < MARK_BIT_COUNT ensures Window(bits, i)[k] == Rotation(frame, r)[k] {
      RotationAt(frame, r, k);
      ModStep(start + from, k);
      assert Window(bits, i)[k] == bits[from + k];
    }
  }

  /** The least window position, from `low` on, that shows rotation `r`. */
  lemma RotationPosition(start: nat, low: nat, r: nat) returns (i: nat)
    requires r < MARK_BIT_COUNT
    ensures low <= i < low + MARK_BIT_COUNT && (start + i) % MARK_BIT_COUNT == r
  {
    i := low + (r - (start + low) % MARK_BIT_COUNT + MARK_BIT_COUNT) % MARK_BIT_COUNT;
    var a := start + low;
    var d := (r - a % MARK_BIT_COUNT + MARK_BIT_COUNT) % MARK_BIT_COUNT;
    ModStep(a, d);
    if r >= a % MARK_BIT_COUNT {
      assert d == r - a % MARK_BIT_COUNT;
    } else {
      assert d == r - a % MARK_BIT_COUNT + MARK_BIT_COUNT;
    }
  }

  /** With a full period of windows, a legacy window is seen exactly when some rotation is legacy. */
  lemma LegacySeenIff(bits: seq<bit>, frame: Frame, start: nat)
    requires Periodic(bits, frame, start) && |bits| >= 2 * MARK_BIT_COUNT - 1
    ensures LegacySeen(bits) <==> HasLegacyRotation(frame)
  {
    if LegacySeen(bits) {
      var i :| MARK_BIT_COUNT <= i <= |bits| && LegacyAt(bits, i);
      WindowIsRotation(bits, frame, start, i);
      assert LegacyRotation(frame, (start + i - MARK_BIT_COUNT) % MARK_BIT_COUNT);
    }
    if HasLegacyRotation(frame) {
      var r :| 0 <= r < MARK_BIT_COUNT && LegacyRotation(frame, r);
      var i := RotationPosition(start, 0, r);
      WindowIsRotation(bits, frame, start, i + MARK_BIT_COUNT);
      assert LegacyAt(bits, i + MARK_BIT_COUNT);
    }
  }

  lemma {:induction false} VotesPrefix(bits: seq<bit>, i: nat)
    requires i <= |bits|
    ensures Votes(bits[..i]) <= Votes(bits)
    decreases |bits|
  {
    if i == |bits| {
      assert bits[..i] == bits;
    } else {
      var front := bits[..|bits| - 1];
      VotesPrefix(front, i);
      assert front[..i] == bits[..i];
      assert Votes(front) <= Votes(bits);
    }
  }

  lemma VotesShort(bits: seq<bit>)
    ensures |bits| < MARK_BIT_COUNT ==> Votes(bits) == []
  {
  }

  lemma VoteAt(bits: seq<bit>, i: nat)
    requires MARK_BIT_COUNT <= i <= |bits|
    requires !LegacyAt(bits, i) && MarkOf(Window(bits, i)).version == MARK_VERSION
    ensures Votes(bits[..i]) == Votes(bits[..i - 1]) + [MarkOf(Window(bits, i))]
  {
    hide MarkOf, IsLegacy;
    var front := bits[..i];
    assert Window(front, i) == Window(bits, i);
    assert Vote(front) == [MarkOf(Window(bits, i))];
    assert front[..i - 1] == bits[..i - 1];
  }

  lemma VotesTwice(bits: seq<bit>, i: nat, j: nat, mark: Mark)
    requires MARK_BIT_COUNT <= i < j <= |bits|
    requires !LegacyAt(bits, i) && !LegacyAt(bits, j)
    requires MarkOf(Window(bits, i)) == MarkOf(Window(bits, j)) == mark && mark.version == MARK_VERSION
    ensures multiset(Votes(bits))[mark] >= 2
    ensures i == MARK_BIT_COUNT ==> Votes(bits)[0] == mark
  {
    hide MarkOf, IsLegacy, Votes, LegacyAt;
    VoteAt(bits, i);
    VoteAt(bits, j);
    VotesShort(bits[..i - 1]);
    var upToI, beforeJ, upToJ, all := Votes(bits[..i]), Votes(bits[..j - 1]), Votes(bits[..j]), Votes(bits);
    assert bits[..j - 1][..i] == bits[..i];
    VotesPrefix(bits[..j - 1], i);
    VotesPrefix(bits, j);
    assert beforeJ == upToI + beforeJ[|upToI|..];
    assert all == upToJ + all[|upToJ|..];
    assert multiset(all) == multiset(upToJ) + multiset(all[|upToJ|..]);
    assert multiset(beforeJ) == multiset(upToI) + multiset(beforeJ[|upToI|..]);
    VotesPrefix(bits, i);
    if i == MARK_BIT_COUNT {
      assert upToI[0] == mark;
    }
  }

  lemma {:induction false} VotesAreRotations(bits: seq<bit>, frame: Frame, start: nat)
    requires Periodic(bits, frame, start)
    ensures forall m | m in Votes(bits) :: m in RotatedMarks(frame)
    decreases |bits|
  {
    if |bits| >= MARK_BIT_COUNT {
      VotesAreRotations(bits[..|bits| - 1], frame, start);
      WindowIsRotation(bits, frame, start, |bits|);
      var r := (start + |bits| - MARK_BIT_COUNT) % MARK_BIT_COUNT;
      forall m | m in Vote(bits) ensures m in RotatedMarks(frame) {
        assert m == RotatedMark(frame, r);
      }
    }
  }

  /** Windows over a repeated frame: the mark of the frame gathers at least two votes. */
  lemma PeriodicVotes(bits: seq<bit>, mark: Mark, start: nat)
    requires Periodic(bits, FrameOf(mark), start) && mark.version == MARK_VERSION
    requires !HasLegacyRotation(FrameOf(mark))
    requires |bits| >= RECOVERABLE_EXCERPT || (start == 0 && |bits| >= RECOVERABLE_WHOLE)
    ensures multiset(Votes(bits))[mark] >= 2
    ensures start == 0 ==> Votes(bits)[0] == mark
  {
    var frame := FrameOf(mark);
    NotLegacy(frame);
    MarkOfFrameOf(mark);
    var i, j := FrameTwice(bits, frame, start);
    hide MarkOf, IsLegacy, Votes, Window, FrameOf, HasLegacyRotation, Periodic;
    VotesTwice(bits, i, j, mark);
  }

  /** Enough bits show the whole frame twice, and first of all when they start with it. */
  lemma FrameTwice(bits: seq<bit>, frame: Frame, start: nat) returns (i: nat, j: nat)
    requires Periodic(bits, frame, start)
    requires |bits| >= RECOVERABLE_EXCERPT || (start == 0 && |bits| >= RECOVERABLE_WHOLE)
    ensures MARK_BIT_COUNT <= i < j <= |bits| && Window(bits, i) == Window(bits, j) == frame
    ensures start == 0 ==> i == MARK_BIT_COUNT
  {
    hide Periodic, Window;
    var at := FrameStart(start);
    i, j := at + MARK_BIT_COUNT, at + 2 * MARK_BIT_COUNT;
    WindowIsFrame(bits, frame, start, i);
    WindowIsFrame(bits, frame, start, j);
  }

  /** The first position, and the ones a period and two behind it, at which a whole frame starts. */
  lemma FrameStart(start: nat) returns (at: nat)
    ensures at < MARK_BIT_COUNT && (start == 0 ==> at == 0)
    ensures (start + (at + MARK_BIT_COUNT)) % MARK_BIT_COUNT == 0
    ensures (start + (at + 2 * MARK_BIT_COUNT)) % MARK_BIT_COUNT == 0
  {
    at := RotationPosition(start, 0, 0);
  }

  lemma WindowIsFrame(bits: seq<bit>, frame: Frame, start: nat, i: nat)
    requires Periodic(bits, frame, start) && MARK_BIT_COUNT <= i <= |bits| && (start + i) % MARK_BIT_COUNT == 0
    ensures Window(bits, i) == frame
  {
    WindowIsRotation(bits, frame, start, i);
    assert Rotation(frame, 0) == frame;
  }

  lemma NotLegacy(frame: Frame)
    requires !HasLegacyRotation(frame)
    ensures !IsLegacy(frame)
  {
    hide IsLegacy;
    assert Rotation(frame, 0) == frame && !LegacyRotation(frame, 0);
  }

  // ----- what is read -----

  predicate Reads(text: seq<byte>, mark: Mark) {
    Marks(text).Ok? && mark in Marks(text).value
  }

  /** The marks of the current version that the windows of a text show, in reading order. */
  function VotesOf(text: seq<byte>): seq<Mark> {
    Votes(SignificantBits(Scan(text)))
  }

  /**
   Of any text, exactly those marks are read that are sighted at least twice and are among the first
   sixteen different ones sighted, provided that no window shows a legacy frame.
   */
  lemma ReadsIff(text: seq<byte>, mark: Mark)
    ensures Reads(text, mark) <==>
              && !LegacySeen(SignificantBits(Scan(text)))
              && mark in FirstSeen(VotesOf(text)) && multiset(VotesOf(text))[mark] >= 2
    ensures Marks(text).Ok? ==> Distinct(Marks(text).value)
  {
    hide Scan, SignificantBits, LegacySeen, Votes, Tally, Confident, FirstSeen, Distinct;
    ConfidentIff(VotesOf(text), mark);
  }

  /**
   What any text reads as: the version error exactly when a window shows a legacy frame; otherwise the
   first sixteen different marks sighted, as far as they are sighted twice, in order of first sighting; and
   when there is none, whether there was any U+200B tells the error.
   */
  lemma ReadsExactly(text: seq<byte>)
    ensures var read := SightedTwice(FirstSeen(VotesOf(text)), VotesOf(text));
            Marks(text) ==
            if LegacySeen(SignificantBits(Scan(text))) then Err(MarkVersionUnsupported)
            else if read != [] then Ok(read)
            else if exists t :: t in Scan(text) && t.codePoint == 0x200B then Err(MarkNotConfident)
            else Err(MarkNotFound)
  {
    hide SignificantBits, LegacySeen, Votes, Tally, Confident, FirstSeen, SightedTwice, Scan;
    ConfidentExactly(VotesOf(text));
    MarkAmong(Scan(text));
  }

  lemma MarkAmong(ts: seq<Token>)
    ensures HasNoMark(ts) <==> !exists t :: t in ts && t.codePoint == 0x200B
  {
    if !HasNoMark(ts) {
      var i :| 0 <= i < |ts| && IsMark(ts[i]);
      assert ts[i] in ts;
    }
  }

  /** What is read from a repeated frame. */
  lemma ReadPeriodic(text: seq<byte>, mark: Mark, start: nat)
    requires Periodic(SignificantBits(Scan(text)), FrameOf(mark), start) && mark.version == MARK_VERSION
    requires var n := |SignificantBits(Scan(text))|;
             n >= RECOVERABLE_EXCERPT || (start == 0 && n >= RECOVERABLE_WHOLE)
    ensures Marks(text) == Err(MarkVersionUnsupported) <==> HasLegacyRotation(FrameOf(mark))
    ensures !HasLegacyRotation(FrameOf(mark)) && start == 0 ==>
              Marks(text).Ok? && Marks(text).value != [] && Marks(text).value[0] == mark && Distinct(Marks(text).value)
    ensures !HasLegacyRotation(FrameOf(mark)) ==> (Reads(text, mark) <==> mark in FirstSeen(VotesOf(text)))
    ensures !HasLegacyRotation(FrameOf(mark)) && |RotatedMarks(FrameOf(mark))| <= MAX_CANDIDATES ==>
              Reads(text, mark) && Distinct(Marks(text).value)
  {
    hide Scan, SignificantBits, FrameOf, HasLegacyRotation, Votes, Tally, Confident, Periodic, RotatedMarks, LegacySeen;
    hide FirstSeen;
    var bits := SignificantBits(Scan(text));
    LegacySeenIff(bits, FrameOf(mark), start);
    if !HasLegacyRotation(FrameOf(mark)) {
      PeriodicVotes(bits, mark, start);
      ReadsIff(text, mark);
      if start == 0 {
        ConfidentTally(Votes(bits), mark);
      }
      if |RotatedMarks(FrameOf(mark))| <= MAX_CANDIDATES {
        VotesAreRotations(bits, FrameOf(mark), start);
        TallyListsAll(Votes(bits), RotatedMarks(FrameOf(mark)), mark);
        ConfidentTally(Votes(bits), mark);
      }
    }
  }

  // ----- the bits of a marked text -----

  lemma {:induction false} SignificantBitsSize(ts: seq<Token>)
    ensures |SignificantBits(ts)| == Significant(ts)
  {
    if ts != [] {
      SignificantBitsSize(ts[1..]);
    }
  }

  lemma RepeatedIsPeriodic(frame: Frame, k: nat, n: nat)
    ensures Periodic(Repeated(frame, k, n), frame, k)
  {
  }

  lemma {:induction false} AllSignificant(ts: seq<Token>)
    requires HasNoMark(ts)
    ensures Significant(ts) == |ts|
  {
    if ts != [] {
      assert !IsMark(ts[0]);
      AllSignificant(ts[1..]);
    }
  }

  /** Marks written into a text free of U+200B read back as the frame, repeated. */
  lemma EmbeddedBits(ts: seq<Token>, frame: Frame, k: nat)
    requires HasNoMark(ts)
    ensures Periodic(SignificantBits(Embed(ts, frame, k)), frame, k)
    ensures |SignificantBits(Embed(ts, frame, k))| == |ts| == Significant(ts)
    ensures ts != [] ==> Embed(ts, frame, k) != [] && !IsMark(Embed(ts, frame, k)[0])
  {
    hide SignificantBits, Embed, Strewn, HasNoMark, Periodic, Significant, IsMark;
    EmbedIsStrewn(ts, frame, k);
    RepeatedIsPeriodic(frame, k, |ts|);
    StrewnBits(ts, Repeated(frame, k, |ts|));
    AllSignificant(ts);
  }

  lemma {:induction false} SuffixBits(ts: seq<Token>, p: nat)
    requires p <= |ts|
    ensures |SignificantBits(ts[p..])| <= |SignificantBits(ts)|
    ensures SignificantBits(ts)[|SignificantBits(ts)| - |SignificantBits(ts[p..])|..] == SignificantBits(ts[p..])
  {
    if p == 0 {
      assert ts[0..] == ts;
    } else {
      SuffixBits(ts[1..], p - 1);
      assert ts[1..][p - 1..] == ts[p..];
    }
  }

  lemma DecodeAppend(a: seq<byte>, b: seq<byte>)
    requires a != [] && ValidText(a)
    ensures var t := Decode(a);
            Decode(a + b) == t && (a + b)[|t.bytes|..] == a[|t.bytes|..] + b && ValidText(a[|t.bytes|..])
  {
    ValidStep(a);
    hide Decode, Encode, ValidText;
    var t := Decode(a);
    var rest := a[|t.bytes|..];
    assert a == t.bytes + rest;
    assert a + b == t.bytes + (rest + b);
    DecodeEncoded(t.codePoint, rest + b);
  }

  /** Scanning resumes at a code-point boundary. */
  lemma {:induction false} ScanAppend(a: seq<byte>, b: seq<byte>)
    requires ValidText(a)
    ensures Scan(a + b) == Scan(a) + Scan(b)
    decreases |a|
  {
    hide Decode, ValidText;
    if a == [] {
      assert a + b == b;
    } else {
      DecodeAppend(a, b);
      var rest := a[|Decode(a).bytes|..];
      ScanAppend(rest, b);
      assert Scan(a) == [Decode(a)] + Scan(rest);
    }
  }

  // ----- recovery -----

  /**
   A mark written into a text with no U+200B and at least 272 significant code points is read back:
   the reader reports an unsupported version exactly when some rotation of the frame is a legacy
   frame, and otherwise lists the mark first and every mark once.
   */
  lemma ExactRecovery(text: seq<byte>, mark: Mark, marked: seq<byte>)
    requires HasNoMark(Scan(text)) && Significant(Scan(text)) >= RECOVERABLE_WHOLE && mark.version == MARK_VERSION
    requires Embedded(text, mark) == Some(marked)
    ensures Marks(marked) == Err(MarkVersionUnsupported) <==> HasLegacyRotation(FrameOf(mark))
    ensures !HasLegacyRotation(FrameOf(mark)) ==>
              Marks(marked).Ok? && Marks(marked).value != [] && Marks(marked).value[0] == mark
              && Distinct(Marks(marked).value)
  {
    hide Scan, Embed, SignificantBits, Marks, HasLegacyRotation, RotatedMarks, FrameOf, Canonical, Periodic;
    MarkedText(text, mark);
    EmbeddedBits(Scan(text), FrameOf(mark), 0);
    ReadPeriodic(marked, mark, 0);
  }

  /**
   Any rest of a marked text, cut at a code-point boundary, with at least 407 significant code
   points: the reader reports an unsupported version exactly when some rotation of the frame is a
   legacy frame, and otherwise reads the mark exactly when it is among the first sixteen different
   marks sighted; in particular when at most sixteen marks appear among the rotations.
   */
  lemma ExcerptRecovery(text: seq<byte>, mark: Mark, cut: seq<byte>, excerpt: seq<byte>)
    requires ValidText(text) && HasNoMark(Scan(text)) && HasChannel(text) && mark.version == MARK_VERSION
    requires Embedded(text, mark) == Some(cut + excerpt) && ValidText(cut)
    requires Significant(Scan(excerpt)) >= RECOVERABLE_EXCERPT
    ensures Marks(excerpt) == Err(MarkVersionUnsupported) <==> HasLegacyRotation(FrameOf(mark))
    ensures !HasLegacyRotation(FrameOf(mark)) ==> (Reads(excerpt, mark) <==> mark in FirstSeen(VotesOf(excerpt)))
    ensures !HasLegacyRotation(FrameOf(mark)) && |RotatedMarks(FrameOf(mark))| <= MAX_CANDIDATES ==>
              Reads(excerpt, mark) && Distinct(Marks(excerpt).value)
  {
    hide Scan, Embed, Embedded, SignificantBits, Significant, Marks, HasLegacyRotation, RotatedMarks, FrameOf,
      Canonical, ValidText, Periodic, Reads, VotesOf, FirstSeen;
    var frame := FrameOf(mark);
    MarkedText(text, mark);
    EmbeddedBits(Scan(text), frame, 0);
    ScanAppend(cut, excerpt);
    var ts, p := Scan(cut + excerpt), |Scan(cut)|;
    assert ts[p..] == Scan(excerpt);
    SuffixBits(ts, p);
    SignificantBitsSize(Scan(excerpt));
    var all, bits := SignificantBits(ts), SignificantBits(Scan(excerpt));
    PeriodicSuffix(all, frame, |all| - |bits|);
    ReadPeriodic(excerpt, mark, |all| - |bits|);
  }

  // ----- a passage cut at both ends -----

  /** What is read from a repeated frame followed by one bit of any value. */
  lemma ReadAlmostPeriodic(text: seq<byte>, front: seq<bit>, last: bit, mark: Mark, start: nat)
    requires SignificantBits(Scan(text)) == front + [last] && |front| >= RECOVERABLE_EXCERPT
    requires Periodic(front, FrameOf(mark), start) && mark.version == MARK_VERSION
    ensures Marks(text) == Err(MarkVersionUnsupported) <==>
            HasLegacyRotation(FrameOf(mark)) || LegacyAt(front + [last], |front| + 1)
    ensures Marks(text) != Err(MarkVersionUnsupported) ==> (Reads(text, mark) <==> mark in FirstSeen(VotesOf(text)))
    ensures Marks(text) != Err(MarkVersionUnsupported) && |RotatedMarks(FrameOf(mark))| <= MAX_CANDIDATES ==>
              Reads(text, mark) && Distinct(Marks(text).value)
  {
    hide Scan, SignificantBits, FrameOf, HasLegacyRotation, Votes, Tally, Confident, Periodic, RotatedMarks,
      LegacySeen, LegacyAt;
    hide Listed, FirstSeen;
    var bits := front + [last];
    LegacySeenIff(front, FrameOf(mark), start);
    LegacySeenStep(front, last);
    if !LegacySeen(bits) {
      PeriodicVotes(front, mark, start);
      VotesStep(front, last);
      OneMoreVote(Votes(front), Vote(bits), mark);
      ReadsIff(text, mark);
      if |RotatedMarks(FrameOf(mark))| <= MAX_CANDIDATES {
        VotesAreRotations(front, FrameOf(mark), start);
        TallyListsAll(Votes(front), RotatedMarks(FrameOf(mark)), mark);
        ConfidentTally(Votes(bits), mark);
      }
    }
  }

  /** Cutting the end off changes at most the last significant bit that is left. */
  lemma {:induction false} PrefixBits(ts: seq<Token>, q: nat)
    requires q <= |ts|
    ensures var bits := SignificantBits(ts[..q]);
            && |bits| <= |SignificantBits(ts)|
            && forall i | 0 <= i < |bits| - 1 :: bits[i] == SignificantBits(ts)[i]
  {
    if q > 0 {
      PrefixBits(ts[1..], q - 1);
      assert ts[..q][1..] == ts[1..][..q - 1];
      if !IsMark(ts[0]) && q == 1 {
        assert SignificantBits(ts[..q][1..]) == [];
      }
    }
  }

  lemma PassageTokens(cut: seq<byte>, excerpt: seq<byte>, rest: seq<byte>)
    requires ValidText(cut) && ValidText(excerpt)
    ensures var p, q := |Scan(cut)|, |Scan(cut)| + |Scan(excerpt)|;
            q <= |Scan(cut + excerpt + rest)| && Scan(cut + excerpt + rest)[p..q] == Scan(excerpt)
  {
    hide Scan, ValidText;
    ScanAppend(cut, excerpt + rest);
    ScanAppend(excerpt, rest);
    assert cut + excerpt + rest == cut + (excerpt + rest);
  }

  /** The bits before the last one of a passage of a marked text. */
  lemma PassageBits(ts: seq<Token>, frame: Frame, p: nat, q: nat) returns (start: nat)
    requires p <= q <= |ts| && Periodic(SignificantBits(ts), frame, 0)
    requires SignificantBits(ts[p..q]) != []
    ensures var bits := SignificantBits(ts[p..q]); Periodic(bits[..|bits| - 1], frame, start)
  {
    hide SignificantBits;
    SuffixBits(ts, p);
    PrefixBits(ts[p..], q - p);
    assert ts[p..][..q - p] == ts[p..q];
    var all, after, bits := SignificantBits(ts), SignificantBits(ts[p..]), SignificantBits(ts[p..q]);
    start := |all| - |after|;
    PeriodicSuffix(all, frame, start);
    PeriodicPrefix(after, bits[..|bits| - 1], frame, start);
  }

  lemma PeriodicPrefix(all: seq<bit>, front: seq<bit>, frame: Frame, start: nat)
    requires Periodic(all, frame, start)
    requires |front| <= |all| && forall i | 0 <= i < |front| :: front[i] == all[i]
    ensures Periodic(front, frame, start)
  {
  }

  /** The last window of an excerpt looks like a legacy frame. */
  predicate EndsLegacy(excerpt: seq<byte>) {
    var bits := SignificantBits(Scan(excerpt));
    |bits| >= MARK_BIT_COUNT && LegacyAt(bits, |bits|)
  }

  lemma EndsWith(excerpt: seq<byte>, front: seq<bit>, last: bit)
    requires SignificantBits(Scan(excerpt)) == front + [last] && |front| >= MARK_BIT_COUNT
    ensures EndsLegacy(excerpt) == LegacyAt(front + [last], |front| + 1)
  {
    hide SignificantBits, Scan, LegacyAt;
  }

  lemma MarkedBits(text: seq<byte>, mark: Mark, marked: seq<byte>)
    requires HasNoMark(Scan(text)) && Embedded(text, mark) == Some(marked)
    ensures Periodic(SignificantBits(Scan(marked)), FrameOf(mark), 0)
  {
    hide Scan, Embed, SignificantBits, Significant, FrameOf, Canonical, ValidText, Periodic, HasNoMark;
    MarkedText(text, mark);
    EmbeddedBits(Scan(text), FrameOf(mark), 0);
  }

  lemma PassageBitsOf(frame: Frame, cut: seq<byte>, excerpt: seq<byte>, rest: seq<byte>)
    returns (front: seq<bit>, last: bit, start: nat)
    requires Periodic(SignificantBits(Scan(cut + excerpt + rest)), frame, 0)
    requires ValidText(cut) && ValidText(excerpt) && Significant(Scan(excerpt)) > 0
    ensures SignificantBits(Scan(excerpt)) == front + [last] && Periodic(front, frame, start)
    ensures |front| + 1 == Significant(Scan(excerpt))
  {
    hide Scan, SignificantBits, Significant, ValidText, Periodic;
    PassageTokens(cut, excerpt, rest);
    SignificantBitsSize(Scan(excerpt));
    var bits := SignificantBits(Scan(excerpt));
    start := PassageBits(Scan(cut + excerpt + rest), frame, |Scan(cut)|, |Scan(cut)| + |Scan(excerpt)|);
    front, last := bits[..|bits| - 1], bits[|bits| - 1];
  }

  /**
   Any passage of a marked text, cut at code-point boundaries on both sides, with at least 408
   significant code points: a cut between a code point and its U+200B spoils one bit, so the reader
   reports an unsupported version exactly when some rotation of the frame or the last window of
   the passage is a legacy frame, and otherwise reads the mark exactly when it is among the first
   sixteen different marks sighted.
   */
  lemma PassageRecovery(text: seq<byte>, mark: Mark, cut: seq<byte>, excerpt: seq<byte>, rest: seq<byte>)
    requires HasNoMark(Scan(text)) && mark.version == MARK_VERSION
    requires Embedded(text, mark) == Some(cut + excerpt + rest) && ValidText(cut) && ValidText(excerpt)
    requires Significant(Scan(excerpt)) >= RECOVERABLE_EXCERPT + 1
    ensures Marks(excerpt) == Err(MarkVersionUnsupported) <==> HasLegacyRotation(FrameOf(mark)) || EndsLegacy(excerpt)
    ensures Marks(excerpt) != Err(MarkVersionUnsupported) ==>
              (Reads(excerpt, mark) <==> mark in FirstSeen(VotesOf(excerpt)))
    ensures Marks(excerpt) != Err(MarkVersionUnsupported) && |RotatedMarks(FrameOf(mark))| <= MAX_CANDIDATES ==>
              Reads(excerpt, mark) && Distinct(Marks(excerpt).value)
  {
    hide Scan, Embedded, SignificantBits, Significant, Marks, HasLegacyRotation, RotatedMarks, FrameOf, ValidText,
      HasNoMark, Periodic, LegacyAt, EndsLegacy, Reads, VotesOf, FirstSeen;
    MarkedBits(text, mark, cut + excerpt + rest);
    var front, last, start := PassageBitsOf(FrameOf(mark), cut, excerpt, rest);
    EndsWith(excerpt, front, last);
    ReadAlmostPeriodic(excerpt, front, last, mark, start);
  }

  lemma PeriodicSuffix(all: seq<bit>, frame: Frame, start: nat)
    requires Periodic(all, frame, 0) && start <= |all|
    ensures Periodic(all[start..], frame, start)
  {
    forall i | 0 <= i < |all[start..]| ensures all[start..][i] == frame[(start + i) % MARK_BIT_COUNT] {
      assert all[start..][i] == all[start + i];
    }
  }
}
