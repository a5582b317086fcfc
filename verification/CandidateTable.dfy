/** The table of at most sixteen candidate marks: what it lists, how often each was sighted, which are read. */
module CandidateTable {
  import opened MarkCodec
  import opened MarkChannel

  predicate Distinct<T(==)>(s: seq<T>) {
    forall i, j | 0 <= i < j < |s| :: s[i] != s[j]
  }

  predicate Listed(cs: seq<Candidate>, mark: Mark) {
    IndexOf(cs, mark) < |cs|
  }

  /** A table that lists distinct marks with their exact number of sightings, and all of them unless it is full. */
  predicate ExactTable(cs: seq<Candidate>, marks: seq<Mark>) {
    && (forall i, j | 0 <= i < j < |cs| :: cs[i].mark != cs[j].mark)
    && (forall i | 0 <= i < |cs| :: cs[i].count == multiset(marks)[cs[i].mark] && cs[i].mark in marks)
    && (|cs| < MAX_CANDIDATES ==> forall m | m in marks :: Listed(cs, m))
    && (marks != [] ==> cs != [] && cs[0].mark == marks[0])
    && |cs| <= MAX_CANDIDATES
  }

  lemma ListedAt(cs: seq<Candidate>, i: nat)
    requires i < |cs|
    ensures Listed(cs, cs[i].mark)
  {
  }

  lemma ListedStays(cs: seq<Candidate>, more: Mark, mark: Mark)
    requires Listed(cs, mark)
    ensures Listed(Counted(cs, more), mark)
  {
    var i := IndexOf(cs, mark);
    assert Counted(cs, more)[i].mark == mark;
    ListedAt(Counted(cs, more), i);
  }

  lemma CountedCounts(cs: seq<Candidate>, marks: seq<Mark>, mark: Mark, i: nat)
    requires ExactTable(cs, marks) && i < |Counted(cs, mark)|
    ensures var c := Counted(cs, mark)[i];
            c.count == multiset(marks + [mark])[c.mark] && c.mark in marks + [mark]
  {
    var next, all := Counted(cs, mark), marks + [mark];
    assert multiset(all) == multiset(marks) + multiset{mark};
    if i < |cs| {
      assert next[i].mark == cs[i].mark;
      assert all[..|marks|] == marks;
      if i != IndexOf(cs, mark) {
        assert cs[i].mark != mark;
      }
    } else {
      assert mark in marks ==> Listed(cs, mark);
      assert all[|marks|] == mark;
    }
  }

  lemma CountedLists(cs: seq<Candidate>, marks: seq<Mark>, mark: Mark, m: Mark)
    requires ExactTable(cs, marks) && |Counted(cs, mark)| < MAX_CANDIDATES && m in marks + [mark]
    ensures Listed(Counted(cs, mark), m)
  {
    if m in marks {
      assert Listed(cs, m);
      ListedStays(cs, mark, m);
    } else {
      var at := IndexOf(cs, mark);
      assert Counted(cs, mark)[at].mark == m;
      ListedAt(Counted(cs, mark), at);
    }
  }

  lemma CountedExact(cs: seq<Candidate>, marks: seq<Mark>, mark: Mark)
    requires ExactTable(cs, marks)
    ensures ExactTable(Counted(cs, mark), marks + [mark])
  {
    var next := Counted(cs, mark);
    hide Listed;
    assert |next| <= MAX_CANDIDATES && next[0].mark == (marks + [mark])[0];
    assert forall i, j | 0 <= i < j < |next| :: next[i].mark != next[j].mark;
    hide Counted;
    forall i: nat | i < |next|
      ensures next[i].count == multiset(marks + [mark])[next[i].mark] && next[i].mark in marks + [mark]
    {
      CountedCounts(cs, marks, mark, i);
    }
    if |next| < MAX_CANDIDATES {
      forall m | m in marks + [mark] ensures Listed(next, m) {
        CountedLists(cs, marks, mark, m);
      }
    }
  }

  lemma {:induction false} TallyExact(marks: seq<Mark>)
    ensures ExactTable(Tally(marks), marks)
  {
    if marks != [] {
      var front, last := marks[..|marks| - 1], marks[|marks| - 1];
      TallyExact(front);
      CountedExact(Tally(front), front, last);
      assert marks == front + [last];
    }
  }

  lemma SubsetSize<T>(a: set<T>, b: set<T>)
    requires a <= b
    ensures |a| <= |b|
  {
    assert b == a + (b - a);
  }

  function MarksOf(cs: seq<Candidate>): set<Mark> {
    set c | c in cs :: c.mark
  }

  lemma {:induction false} TableSize(cs: seq<Candidate>)
    requires forall i, j | 0 <= i < j < |cs| :: cs[i].mark != cs[j].mark
    ensures |MarksOf(cs)| == |cs|
  {
    if cs != [] {
      var front, last := cs[..|cs| - 1], cs[|cs| - 1];
      TableSize(front);
      assert cs == front + [last];
      assert MarksOf(cs) == MarksOf(front) + {last.mark};
      assert last.mark !in MarksOf(front);
    }
  }

  /** When at most sixteen different marks were seen, the table lists every one of them. */
  lemma TallyListsAll(marks: seq<Mark>, seen: set<Mark>, mark: Mark)
    requires forall m | m in marks :: m in seen
    requires |seen| <= MAX_CANDIDATES && mark in marks
    ensures Listed(Tally(marks), mark)
  {
    TallyExact(marks);
    var cs := Tally(marks);
    var listed := MarksOf(cs);
    TableSize(cs);
    if !Listed(cs, mark) {
      assert mark !in listed;
      assert listed + {mark} <= seen;
      SubsetSize(listed + {mark}, seen);
    }
  }

  lemma {:induction false} ConfidentMember(cs: seq<Candidate>, i: nat)
    requires i < |cs| && cs[i].count >= MARK_CONFIDENCE_THRESHOLD
    ensures cs[i].mark in Confident(cs)
    ensures i == 0 ==> Confident(cs)[0] == cs[0].mark
  {
    if i < |cs| - 1 {
      ConfidentMember(cs[..|cs| - 1], i);
    }
    if i == 0 && |cs| == 1 {
      assert cs[..0] == [];
    }
  }

  lemma DistinctExtends<T>(s: seq<T>, last: T)
    requires Distinct(s) && last !in s
    ensures Distinct(s + [last])
  {
  }

  lemma {:induction false} ConfidentDistinct(cs: seq<Candidate>)
    requires forall i, j | 0 <= i < j < |cs| :: cs[i].mark != cs[j].mark
    ensures Distinct(Confident(cs))
    ensures forall m | m in Confident(cs) ::
              exists i :: 0 <= i < |cs| && cs[i].mark == m && cs[i].count >= MARK_CONFIDENCE_THRESHOLD
  {
    if cs != [] {
      var n := |cs| - 1;
      ConfidentDistinct(cs[..n]);
      forall m | m in Confident(cs[..n]) ensures m != cs[n].mark {
        var i :| 0 <= i < n && cs[..n][i].mark == m;
        assert cs[i].mark == m;
      }
      var front := Confident(cs[..n]);
      assert Confident(cs) == front || Confident(cs) == front + [cs[n].mark];
      assert Distinct(front) && cs[n].mark !in front;
      DistinctExtends(front, cs[n].mark);
      forall m | m in Confident(cs)
        ensures exists i :: 0 <= i < |cs| && cs[i].mark == m && cs[i].count >= MARK_CONFIDENCE_THRESHOLD
      {
        if m in Confident(cs[..n]) {
          var i :| 0 <= i < n && cs[..n][i].mark == m && cs[..n][i].count >= MARK_CONFIDENCE_THRESHOLD;
          assert cs[i].mark == m && cs[i].count >= MARK_CONFIDENCE_THRESHOLD;
        }
      }
    }
  }

  /** A mark sighted twice and listed is read with confidence; the first sighted comes first. */
  lemma ConfidentTally(marks: seq<Mark>, mark: Mark)
    requires multiset(marks)[mark] >= MARK_CONFIDENCE_THRESHOLD
    requires Listed(Tally(marks), mark) || marks[0] == mark
    ensures mark in Confident(Tally(marks)) && Distinct(Confident(Tally(marks)))
    ensures marks[0] == mark ==> Confident(Tally(marks))[0] == mark
  {
    TallyExact(marks);
    ConfidentDistinct(Tally(marks));
    if marks[0] == mark {
      ConfidentMember(Tally(marks), 0);
    } else {
      ConfidentMember(Tally(marks), IndexOf(Tally(marks), mark));
    }
  }

  /** One more vote takes no mark off the table and no sighting from it. */
  lemma OneMoreVote(votes: seq<Mark>, vote: seq<Mark>, mark: Mark)
    requires |vote| <= 1
    ensures Listed(Tally(votes), mark) ==> Listed(Tally(votes + vote), mark)
    ensures multiset(votes + vote)[mark] >= multiset(votes)[mark]
  {
    if vote == [] {
      assert votes + vote == votes;
    } else {
      assert vote == [vote[0]];
      TallyStep(votes, vote[0]);
      if Listed(Tally(votes), mark) {
        ListedStays(Tally(votes), vote[0], mark);
      }
    }
  }

  // ----- exactly which marks are listed -----

  /** The different marks in the order in which they were first sighted. */
  function InOrder(marks: seq<Mark>): (order: seq<Mark>)
    ensures forall m :: m in order <==> m in marks
  {
    if marks == [] then []
    else
      var front, last := InOrder(marks[..|marks| - 1]), marks[|marks| - 1];
      assert marks == marks[..|marks| - 1] + [last];
      if last in front then front else front + [last]
  }

  /** The first sixteen different marks. */
  function FirstSeen(marks: seq<Mark>): seq<Mark> {
    var order := InOrder(marks);
    if |order| <= 16 then order else order[..16]
  }

  function ListedMarks(cs: seq<Candidate>): seq<Mark> {
    seq(|cs|, i requires 0 <= i < |cs| => cs[i].mark)
  }

  lemma ListedIsNamed(cs: seq<Candidate>, mark: Mark)
    ensures Listed(cs, mark) <==> mark in ListedMarks(cs)
  {
    if Listed(cs, mark) {
      assert ListedMarks(cs)[IndexOf(cs, mark)] == mark;
    }
  }

  lemma CountedNames(cs: seq<Candidate>, mark: Mark)
    ensures ListedMarks(Counted(cs, mark)) ==
            if mark in ListedMarks(cs) || |cs| >= MAX_CANDIDATES then ListedMarks(cs) else ListedMarks(cs) + [mark]
  {
    ListedIsNamed(cs, mark);
  }

  lemma {:induction false} TallyNames(marks: seq<Mark>)
    ensures ListedMarks(Tally(marks)) == FirstSeen(marks)
  {
    if marks != [] {
      var front, last := marks[..|marks| - 1], marks[|marks| - 1];
      TallyNames(front);
      CountedNames(Tally(front), last);
    }
  }

  /** A mark is read with confidence if and only if it is among the first sixteen different ones and sighted twice. */
  lemma ConfidentIff(marks: seq<Mark>, mark: Mark)
    ensures mark in Confident(Tally(marks)) <==>
            mark in FirstSeen(marks) && multiset(marks)[mark] >= 2
    ensures Distinct(Confident(Tally(marks)))
  {
    var cs := Tally(marks);
    TallyExact(marks);
    TallyNames(marks);
    ConfidentDistinct(cs);
    ListedIsNamed(cs, mark);
    if mark in FirstSeen(marks) && multiset(marks)[mark] >= MARK_CONFIDENCE_THRESHOLD {
      ConfidentMember(cs, IndexOf(cs, mark));
    }
    if mark in Confident(cs) {
      var i :| 0 <= i < |cs| && cs[i].mark == mark && cs[i].count >= MARK_CONFIDENCE_THRESHOLD;
      ListedAt(cs, i);
    }
  }

  /** Those of `order` that are sighted at least twice, in the same order. */
  function SightedTwice(order: seq<Mark>, marks: seq<Mark>): seq<Mark> {
    if order == [] then []
    else
      var last := order[|order| - 1];
      SightedTwice(order[..|order| - 1], marks) + if multiset(marks)[last] >= 2 then [last] else []
  }

  lemma {:induction false} ConfidentOf(cs: seq<Candidate>, marks: seq<Mark>)
    requires forall i | 0 <= i < |cs| :: cs[i].count == multiset(marks)[cs[i].mark]
    ensures Confident(cs) == SightedTwice(ListedMarks(cs), marks)
  {
    if cs != [] {
      var front := cs[..|cs| - 1];
      ConfidentOf(front, marks);
      assert ListedMarks(cs)[..|cs| - 1] == ListedMarks(front);
    }
  }

  /** What is read with confidence: of the first sixteen different marks those sighted twice, in that order. */
  lemma ConfidentExactly(marks: seq<Mark>)
    ensures Confident(Tally(marks)) == SightedTwice(FirstSeen(marks), marks)
  {
    TallyExact(marks);
    TallyNames(marks);
    ConfidentOf(Tally(marks), marks);
  }
}
