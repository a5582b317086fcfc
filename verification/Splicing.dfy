/** What is read from a text put together from the copies of two buyers. */
module Splicing {
  import opened Bytes
  import opened Errors
  import opened Utf8
  import opened CanonicalForm
  import opened MarkCodec
  import opened LegacyMark
  import opened MarkChannel
  import opened CandidateTable
  import opened StrewnMarks
  import opened Recovery

  // ----- two copies, cut at the same place -----

  /** The copy with this mark up to code point number `p` of the text. */
  function Front(text: seq<byte>, mark: Mark, p: nat): seq<byte>
    requires p <= |Scan(text)|
  {
    Flatten(Embed(Scan(text)[..p], FrameOf(mark), 0))
  }

  /** The copy with this mark from code point number `p` of the text on. */
  function Back(text: seq<byte>, mark: Mark, p: nat): seq<byte>
    requires p <= |Scan(text)|
  {
    Flatten(Embed(Scan(text)[p..], FrameOf(mark), p))
  }

  /** One copy up to some code point, and the other from there on. */
  function Splice(text: seq<byte>, first: Mark, second: Mark, p: nat): seq<byte>
    requires p <= |Scan(text)|
  {
    Front(text, first, p) + Back(text, second, p)
  }

  /** The bits of a splice of a text with `n` code points. */
  function SplicedBits(first: Mark, second: Mark, p: nat, n: nat): seq<bit>
    requires p <= n
  {
    Repeated(FrameOf(first), 0, p) + Repeated(FrameOf(second), p, n - p)
  }

  lemma CutTokens(ts: seq<Token>, p: nat)
    requires p <= |ts| && HasNoMark(ts)
    ensures HasNoMark(ts[..p]) && HasNoMark(ts[p..]) && ts[..p] + ts[p..] == ts
  {
  }

  lemma SpliceIsStrewn(text: seq<byte>, first: Mark, second: Mark, p: nat)
    requires HasNoMark(Scan(text)) && p <= |Scan(text)|
    ensures var ts := Scan(text);
            Splice(text, first, second, p) == Flatten(Strewn(ts, SplicedBits(first, second, p, |ts|)))
  {
    hide HasNoMark, Scan, Strewn, Embed, FrameOf, Flatten, Repeated;
    var ts, f, g := Scan(text), FrameOf(first), FrameOf(second);
    CutTokens(ts, p);
    EmbedIsStrewn(ts[..p], f, 0);
    EmbedIsStrewn(ts[p..], g, p);
    assert |Repeated(f, 0, p)| == p && |Repeated(g, p, |ts| - p)| == |ts| - p by { RepeatedSize(f, g, p, |ts| - p); }
    StrewnAppend(ts[..p], Repeated(f, 0, p), ts[p..], Repeated(g, p, |ts| - p));
    FlattenAppend(Embed(ts[..p], f, 0), Embed(ts[p..], g, p));
  }

  lemma RepeatedSize(f: Frame, g: Frame, p: nat, n: nat)
    ensures |Repeated(f, 0, p)| == p && |Repeated(g, p, n)| == n
  {
  }

  /** Each copy is its front followed by its back, so a splice is the front of one and the back of the other. */
  lemma CopyIsCut(text: seq<byte>, mark: Mark, p: nat)
    requires HasChannel(text) && HasNoMark(Scan(text)) && p <= |Scan(text)|
    ensures Embedded(text, mark) == Some(Front(text, mark, p) + Back(text, mark, p))
  {
    hide HasNoMark, Scan, Strewn, Embed, FrameOf, Flatten, Repeated;
    EmbedIsStrewn(Scan(text), FrameOf(mark), 0);
    SpliceIsStrewn(text, mark, mark, p);
    RepeatedAppend(FrameOf(mark), 0, p, |Scan(text)| - p);
  }

  // ----- what is read -----

  lemma WindowInFront(u: seq<bit>, v: seq<bit>, i: nat)
    requires MARK_BIT_COUNT <= i <= |u|
    ensures Window(u + v, i) == Window(u, i)
  {
  }

  lemma WindowInBack(u: seq<bit>, v: seq<bit>, i: nat)
    requires MARK_BIT_COUNT <= i <= |v|
    ensures Window(u + v, |u| + i) == Window(v, i)
  {
  }

  lemma WindowVotes(bits: seq<bit>, i: nat, j: nat, mark: Mark)
    requires MARK_BIT_COUNT <= i < j <= |bits| && !LegacySeen(bits) && mark.version == MARK_VERSION
    requires Window(bits, i) == FrameOf(mark) == Window(bits, j)
    ensures multiset(Votes(bits))[mark] >= 2
    ensures i == MARK_BIT_COUNT ==> Votes(bits)[0] == mark
  {
    hide FrameOf, MarkOf, IsLegacy, Votes, Window;
    assert !LegacyAt(bits, i) && !LegacyAt(bits, j);
    MarkOfFrameOf(mark);
    VotesTwice(bits, i, j, mark);
  }

  /** Two frames, one after the other, long enough: each mark is sighted twice, the first one first of all. */
  lemma SplicedVotes(first: Mark, second: Mark, p: nat, n: nat)
    requires first.version == second.version == MARK_VERSION
    requires p >= RECOVERABLE_WHOLE && n >= p + RECOVERABLE_EXCERPT
    requires !LegacySeen(SplicedBits(first, second, p, n))
    ensures var votes := Votes(SplicedBits(first, second, p, n));
            && multiset(votes)[first] >= 2 && multiset(votes)[second] >= 2 && votes[0] == first
  {
    hide FrameOf, Votes, Window, LegacySeen, Repeated, Periodic;
    var u, v := Repeated(FrameOf(first), 0, p), Repeated(FrameOf(second), p, n - p);
    RepeatedSize(FrameOf(first), FrameOf(second), p, n - p);
    RepeatedIsPeriodic(FrameOf(first), 0, p);
    RepeatedIsPeriodic(FrameOf(second), p, n - p);
    var i, j := FrameTwice(u, FrameOf(first), 0);
    WindowInFront(u, v, i);
    WindowInFront(u, v, j);
    WindowVotes(u + v, i, j, first);
    var k, l := FrameTwice(v, FrameOf(second), p);
    WindowInBack(u, v, k);
    WindowInBack(u, v, l);
    WindowVotes(u + v, |u| + k, |u| + l, second);
  }

  lemma FewAreFirst(marks: seq<Mark>)
    ensures |InOrder(marks)| <= MAX_CANDIDATES ==> forall m | m in marks :: m in FirstSeen(marks)
  {
  }

  /**
   A splice of two copies of a text free of U+200B, with at least 272 code points of the first copy
   and 407 of the second: it has the canonical form of the text; the reader reports an unsupported
   version exactly when some window of the two frames shows a legacy frame; and otherwise it reads
   the first mark, in front, and the second exactly when it is among the first sixteen different
   marks sighted, so always when no more than sixteen are.
   */
  lemma SpliceIsRead(text: seq<byte>, first: Mark, second: Mark, p: nat)
    requires ValidText(text) && HasNoMark(Scan(text)) && first.version == second.version == MARK_VERSION
    requires p >= RECOVERABLE_WHOLE && |Scan(text)| >= p + RECOVERABLE_EXCERPT
    ensures var splice, bits := Splice(text, first, second, p), SplicedBits(first, second, p, |Scan(text)|);
            && ValidText(splice) && Canonical(splice) == Canonical(text)
            && (Marks(splice) == Err(MarkVersionUnsupported) <==> LegacySeen(bits))
            && (!LegacySeen(bits) ==>
                  && Marks(splice).Ok? && Marks(splice).value != [] && Marks(splice).value[0] == first
                  && Distinct(Marks(splice).value)
                  && (second in Marks(splice).value <==> second in FirstSeen(Votes(bits)))
                  && (|InOrder(Votes(bits))| <= MAX_CANDIDATES ==> second in Marks(splice).value))
  {
    var splice, bits := Splice(text, first, second, p), SplicedBits(first, second, p, |Scan(text)|);
    hide Scan, Splice, Strewn, Votes, LegacySeen, SignificantBits, FirstSeen, Tally, Confident, Repeated, Canonical,
      InOrder;
    SpliceIsStrewn(text, first, second, p);
    RepeatedSize(FrameOf(first), FrameOf(second), p, |Scan(text)| - p);
    StrewnText(text, bits);
    if !LegacySeen(bits) {
      SplicedVotes(first, second, p, |Scan(text)|);
      ConfidentTally(Votes(bits), first);
      ReadsIff(splice, second);
      FewAreFirst(Votes(bits));
    }
  }
}
