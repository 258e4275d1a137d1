/** The per-student tables of score_report.py built on `getPerfByColumns`:
    the opportunity table (concepts with the most wrong answers), the scores
    by concept and difficulty, and one student's scores on chosen concepts
    test by test. */
module Opportunity {
  import opened Cells
  import opened Answers
  import opened Performance
  import opened Sorting

  /** `df.loc[df['difficulty'] == d]`. */
  function ForDifficulty(df: seq<Answer>, d: string): (r: seq<Answer>)
    ensures forall a :: a in r <==> a in df && a.difficulty == d
    ensures forall a :: multiset(r)[a] == if a.difficulty == d then multiset(df)[a] else 0
  {
    Filter(df, (a: Answer) => a.difficulty == d)
  }

  /** The answers that were not left blank. */
  function Answered(df: seq<Answer>): (r: seq<Answer>)
    ensures forall a :: a in r <==> a in df && a.studentAnswer != "BLANK" && a.studentAnswer != ""
    ensures forall a :: multiset(r)[a] == if a.studentAnswer != "BLANK" && a.studentAnswer != "" then multiset(df)[a] else 0
  {
    Filter(df, (a: Answer) => a.studentAnswer != "BLANK" && a.studentAnswer != "")
  }

  /** The filters of buildOpportunityTable, in its order: the test if given,
      the difficulty if given (and for "easy" only answered questions), the
      subject, the student. A blank answer is left out only under "easy". */
  function OpportunityScope(df: seq<Answer>, studentID: int, testID: Option<string>, subject: string,
                            difficulty: Option<string>): (r: seq<Answer>)
    ensures forall a :: a in r <==>
              && a in df
              && (testID.Some? ==> a.testID == testID.value)
              && (difficulty.Some? ==> a.difficulty == difficulty.value)
              && (difficulty == Some("easy") ==> a.studentAnswer != "BLANK" && a.studentAnswer != "")
              && a.subject == subject
              && a.studentID == studentID
    ensures forall a :: multiset(r)[a] ==
              if && (testID.Some? ==> a.testID == testID.value)
                 && (difficulty.Some? ==> a.difficulty == difficulty.value)
                 && (difficulty == Some("easy") ==> a.studentAnswer != "BLANK" && a.studentAnswer != "")
                 && a.subject == subject
                 && a.studentID == studentID
              then multiset(df)[a] else 0
  {
    var byTest := ForTestIfGiven(df, testID);
    var byDifficulty := if difficulty.Some? then ForDifficulty(byTest, difficulty.value) else byTest;
    var answered := if difficulty == Some("easy") then Answered(byDifficulty) else byDifficulty;
    ForStudent(ForSubject(answered, subject), studentID)
  }

  const OpportunityCols: seq<Column> := [TestID, Subject, Concept]

  /** `sort('wrong', ascending=False)`: most wrong answers first. */
  function MostWrongFirst(a: ScoreRow, b: ScoreRow): bool
  {
    a.wrong >= b.wrong
  }

  lemma {:induction false} MostWrongFirstIsTotalPreorder()
    ensures TotalPreorder(MostWrongFirst)
  {
  }

  /** The five groups with the most wrong answers, most first. */
  function TopWrong(rows: seq<ScoreRow>): (r: seq<ScoreRow>)
    ensures |r| <= 5
    ensures forall x :: x in r ==> x in rows
    ensures forall i, j :: 0 <= i < j < |r| ==> r[i].wrong >= r[j].wrong
  {
    MostWrongFirstIsTotalPreorder();
    TopOf(rows, MostWrongFirst, 5);
    Take(SortBy(rows, MostWrongFirst), 5)
  }

  /** The first min(5, n) of the n groups by wrong answers: no group left
      out has more wrong answers than one kept. */
  lemma {:induction false} TopWrongIsBestFive(rows: seq<ScoreRow>)
    ensures var r := TopWrong(rows);
            && multiset(r) <= multiset(rows)
            && |r| == (if |rows| < 5 then |rows| else 5)
            && forall x, y :: x in r && y in multiset(rows) - multiset(r) ==> x.wrong >= y.wrong
  {
    MostWrongFirstIsTotalPreorder();
    TopOf(rows, MostWrongFirst, 5);
    var r := TopWrong(rows);
    forall x, y | x in r && y in multiset(rows) - multiset(r) ensures x.wrong >= y.wrong {
      assert MostWrongFirst(x, y);
    }
  }

  /** A row of the opportunity table: testID and subject dropped. */
  datatype OpportunityRow = OpportunityRow(concept: Cell, numQuestions: nat, numCorrect: real, score: real, wrong: real)

  function DropTestAndSubject(p: ScoreRow): OpportunityRow
  {
    OpportunityRow(KeyAt(p.key, 2), p.numQuestions, p.numCorrect, p.score, p.wrong)
  }

  /** Drops the testID and subject columns of every row, one for one. */
  function DropTestAndSubjectAll(top: seq<ScoreRow>): (r: seq<OpportunityRow>)
    ensures |r| == |top|
    ensures forall i :: 0 <= i < |top| ==> r[i] == DropTestAndSubject(top[i])
  {
    seq(|top|, i requires 0 <= i < |top| => DropTestAndSubject(top[i]))
  }

  /** buildOpportunityTable with toHTML=False: at most five rows, in
      non-increasing wrong order, each the counts of one (test, subject,
      concept) group of the filtered answers. */
  function OpportunityTable(df: seq<Answer>, studentID: int, testID: Option<string>, subject: string,
                            difficulty: Option<string>): (r: seq<OpportunityRow>)
    ensures |r| <= 5
    ensures forall i, j :: 0 <= i < j < |r| ==> r[i].wrong >= r[j].wrong
    ensures forall x :: x in r ==> CountsGroupOf(OpportunityScope(df, studentID, testID, subject, difficulty), x)
  {
    var scope := OpportunityScope(df, studentID, testID, subject, difficulty);
    var top := TopWrong(PerfByColumns(scope, OpportunityCols));
    var r := DropTestAndSubjectAll(top);
    CutKeepsOrder(top, r);
    OpportunityRowsFrom(scope, PerfByColumns(scope, OpportunityCols), top, r);
    r
  }

  /** Row `i` of the table counts group `ks[i]` of the scope: each row a
      different group, and no group of the scope left out has more wrong
      answers than a row kept. */
  ghost predicate BestGroups(scope: seq<Answer>, r: seq<OpportunityRow>, ks: seq<Key>)
  {
    && |ks| == |r|
    && NoDuplicates(ks)
    && (forall i :: 0 <= i < |r| ==> CountsGroup(scope, r[i], ks[i]))
    && forall k, x :: k in RowKeys(scope, OpportunityCols) && k !in ks && x in r ==>
         x.wrong >= Missed(scope, OpportunityCols, k) as real
  }

  /** buildOpportunityTable keeps min(5, n) of the n (test, subject,
      concept) groups of its scope, those with the most wrong answers. */
  lemma {:induction false} OpportunityTableIsBestFive(df: seq<Answer>, studentID: int, testID: Option<string>, subject: string,
                                                    difficulty: Option<string>)
    ensures var scope := OpportunityScope(df, studentID, testID, subject, difficulty);
            var r := OpportunityTable(df, studentID, testID, subject, difficulty);
            var n := |RowKeys(scope, OpportunityCols)|;
            && |r| == (if n < 5 then n else 5)
            && exists ks :: BestGroups(scope, r, ks)
  {
    var scope := OpportunityScope(df, studentID, testID, subject, difficulty);
    var rows := PerfByColumns(scope, OpportunityCols);
    var top := TopWrong(rows);
    assert OpportunityTable(df, studentID, testID, subject, difficulty) == DropTestAndSubjectAll(top);
    TopWrongIsBestFive(rows);
    BestFiveGroups(scope, rows, top, DropTestAndSubjectAll(top));
  }

  /** The best-five facts of TopWrong, restated over the groups of the scope. */
  lemma {:induction false} BestFiveGroups(scope: seq<Answer>, rows: seq<ScoreRow>, top: seq<ScoreRow>, r: seq<OpportunityRow>)
    requires forall i, j :: 0 <= i < j < |rows| ==> KeyLess(rows[i].key, rows[j].key)
    requires ScoreKeys(rows) == RowKeys(scope, OpportunityCols)
    requires forall p :: p in rows ==> ScoreRowOf(scope, OpportunityCols, p)
    requires multiset(top) <= multiset(rows)
    requires |top| == (if |rows| < 5 then |rows| else 5)
    requires forall x, y :: x in top && y in multiset(rows) - multiset(top) ==> x.wrong >= y.wrong
    requires |r| == |top| && forall i :: 0 <= i < |top| ==> r[i] == DropTestAndSubject(top[i])
    ensures var n := |RowKeys(scope, OpportunityCols)|;
            && |r| == (if n < 5 then n else 5)
            && exists ks :: BestGroups(scope, r, ks)
  {
    DistinctKeysCount(rows);
    var ks := seq(|top|, i requires 0 <= i < |top| => top[i].key);
    TopKeys(scope, rows, top, r, ks);
  }

  /** Rows with strictly ascending keys: as many keys as rows, and no row
      twice. */
  lemma {:induction false} DistinctKeysCount(rows: seq<ScoreRow>)
    requires forall i, j :: 0 <= i < j < |rows| ==> KeyLess(rows[i].key, rows[j].key)
    ensures |ScoreKeys(rows)| == |rows|
    ensures NoDuplicates(rows)
  {
    if rows != [] {
      var init := rows[..|rows| - 1];
      var last := rows[|rows| - 1];
      DistinctKeysCount(init);
      assert last.key !in ScoreKeys(init) by {
        if last.key in ScoreKeys(init) {
          var i :| 0 <= i < |init| && init[i].key == last.key;
          assert KeyLess(rows[i].key, rows[|rows| - 1].key);
          KeyLessIrreflexive(last.key);
        }
      }
      assert ScoreKeys(rows) == ScoreKeys(init) + {last.key} by {
        assert rows == init + [last];
      }
      forall i, j | 0 <= i < j < |rows| ensures rows[i] != rows[j] {
        KeyLessIrreflexive(rows[i].key);
      }
    }
  }

  /** The keys of the rows kept are those of different groups of the scope,
      and every group left out has no more wrong answers than a kept row. */
  lemma {:induction false} TopKeys(scope: seq<Answer>, rows: seq<ScoreRow>, top: seq<ScoreRow>, r: seq<OpportunityRow>, ks: seq<Key>)
    requires forall i, j :: 0 <= i < j < |rows| ==> KeyLess(rows[i].key, rows[j].key)
    requires ScoreKeys(rows) == RowKeys(scope, OpportunityCols)
    requires forall p :: p in rows ==> ScoreRowOf(scope, OpportunityCols, p)
    requires NoDuplicates(rows)
    requires multiset(top) <= multiset(rows)
    requires forall x, y :: x in top && y in multiset(rows) - multiset(top) ==> x.wrong >= y.wrong
    requires |r| == |top| && forall i :: 0 <= i < |top| ==> r[i] == DropTestAndSubject(top[i])
    requires |ks| == |top| && forall i :: 0 <= i < |top| ==> ks[i] == top[i].key
    ensures BestGroups(scope, r, ks)
  {
    SubNoDuplicates(top, rows);
    forall i | 0 <= i < |top| ensures top[i] in rows {
      assert top[i] in multiset(top);
    }
    forall i, j | 0 <= i < j < |ks| ensures ks[i] != ks[j] {
      assert top[i] in rows && top[j] in rows;
      var a :| 0 <= a < |rows| && rows[a] == top[i];
      var b :| 0 <= b < |rows| && rows[b] == top[j];
      if a < b { KeyLessIrreflexive(rows[a].key); }
      if b < a { KeyLessIrreflexive(rows[b].key); }
    }
    forall i | 0 <= i < |r| ensures CountsGroup(scope, r[i], ks[i]) {
      assert top[i] in rows;
    }
    forall k, x | k in RowKeys(scope, OpportunityCols) && k !in ks && x in r
      ensures x.wrong >= Missed(scope, OpportunityCols, k) as real
    {
      var y :| y in rows && y.key == k;
      forall i | 0 <= i < |top| ensures top[i] != y {
        assert ks[i] != k;
      }
      assert y in multiset(rows) - multiset(top);
      var i :| 0 <= i < |r| && r[i] == x;
      assert top[i] in top;
    }
  }

  /** Cutting rows down keeps their number and order by wrong answers. */
  lemma {:induction false} CutKeepsOrder(top: seq<ScoreRow>, r: seq<OpportunityRow>)
    requires |top| <= 5 && forall i, j :: 0 <= i < j < |top| ==> top[i].wrong >= top[j].wrong
    requires |r| == |top| && forall i :: 0 <= i < |top| ==> r[i] == DropTestAndSubject(top[i])
    ensures |r| <= 5 && forall i, j :: 0 <= i < j < |r| ==> r[i].wrong >= r[j].wrong
  {
  }

  /** Each table row, cut down from a row of getPerfByColumns, counts some
      (test, subject, concept) group of the scope. */
  lemma {:induction false} OpportunityRowsFrom(scope: seq<Answer>, rows: seq<ScoreRow>, top: seq<ScoreRow>, r: seq<OpportunityRow>)
    requires ScoreKeys(rows) == RowKeys(scope, OpportunityCols)
    requires forall p :: p in rows ==> ScoreRowOf(scope, OpportunityCols, p)
    requires forall x :: x in top ==> x in rows
    requires |r| == |top| && forall i :: 0 <= i < |top| ==> r[i] == DropTestAndSubject(top[i])
    ensures forall x :: x in r ==> CountsGroupOf(scope, x)
  {
    forall x | x in r ensures CountsGroupOf(scope, x) {
      var i :| 0 <= i < |top| && r[i] == x;
      assert top[i] in rows;
      assert top[i].key in ScoreKeys(rows);
      assert CountsGroup(scope, x, top[i].key);
    }
  }

  /** Row `x` gives the concept, question count, right and wrong answers and
      rounded score of the (test, subject, concept) group `k` of `scope`. */
  ghost predicate CountsGroup(scope: seq<Answer>, x: OpportunityRow, k: Key)
  {
    && k in RowKeys(scope, OpportunityCols)
    && x.concept == KeyAt(k, 2)
    && x.numQuestions == Asked(scope, OpportunityCols, k) > 0
    && x.numCorrect == Right(scope, OpportunityCols, k) as real
    && x.wrong == Missed(scope, OpportunityCols, k) as real
    && x.score == Round2(x.numCorrect / x.numQuestions as real)
  }

  ghost predicate CountsGroupOf(scope: seq<Answer>, x: OpportunityRow)
  {
    exists k :: CountsGroup(scope, x, k)
  }

  /** Under difficulty "easy" no blank answer is counted in the table; with
      no difficulty, every answer of the student in the subject (and test) is
      counted, blank or not. */
  lemma {:induction false} EasyCountsNoBlanks(df: seq<Answer>, studentID: int, testID: Option<string>, subject: string, a: Answer)
    requires a in df && a.subject == subject && a.studentID == studentID
    requires testID.Some? ==> a.testID == testID.value
    ensures a in OpportunityScope(df, studentID, testID, subject, Some("easy")) <==>
              a.difficulty == "easy" && a.studentAnswer != "BLANK" && a.studentAnswer != ""
    ensures a in OpportunityScope(df, studentID, testID, subject, None)
  {
  }

  /** getStudentScoresByConcept's table, before the CSV export. */
  const ScoresCols: seq<Column> := [Subject, Concept, Difficulty]

  /** `sort('subject', ascending=False)`. */
  function SubjectDescending(a: ScoreRow, b: ScoreRow): bool
  {
    !CellLess(KeyAt(a.key, 0), KeyAt(b.key, 0))
  }

  lemma {:induction false} SubjectDescendingIsTotalPreorder()
    ensures TotalPreorder(SubjectDescending)
  {
    CellLessIsStrictTotal();
  }

  /** The student's scores per (subject, concept, difficulty) on one test or
      on all: every group of the student's answers once, with its counts,
      ordered by subject, last subject first. */
  function StudentScoresByConcept(df: seq<Answer>, studentID: int, testID: Option<string>): (r: seq<ScoreRow>)
    ensures multiset(r) == multiset(PerfByColumns(ForStudent(ForTestIfGiven(df, testID), studentID), ScoresCols))
    ensures ScoreKeys(r) == RowKeys(ForStudent(ForTestIfGiven(df, testID), studentID), ScoresCols)
    ensures forall p :: p in r ==> ScoreRowOf(ForStudent(ForTestIfGiven(df, testID), studentID), ScoresCols, p)
    ensures forall i, j :: 0 <= i < j < |r| ==> !CellLess(KeyAt(r[i].key, 0), KeyAt(r[j].key, 0))
  {
    var scope := ForStudent(ForTestIfGiven(df, testID), studentID);
    var rows := PerfByColumns(scope, ScoresCols);
    SubjectDescendingIsTotalPreorder();
    var r := SortBy(rows, SubjectDescending);
    SameRows(rows, r);
    r
  }

  /** A reordering has the same rows and so the same keys. */
  lemma {:induction false} SameRows(rows: seq<ScoreRow>, r: seq<ScoreRow>)
    requires multiset(r) == multiset(rows)
    ensures forall p :: p in r <==> p in rows
    ensures ScoreKeys(r) == ScoreKeys(rows)
  {
    forall p ensures p in r <==> p in rows {
      assert p in r <==> p in multiset(r);
    }
  }

  /** One point of conceptPerformanceOverTime's table. */
  datatype ConceptScore = ConceptScore(testID: Cell, testDate: Cell, concept: Cell, score: real)

  const OverTimeCols: seq<Column> := [TestID, TestDate, Concept]

  function OfConcepts(df: seq<Answer>, concepts: seq<string>): (r: seq<Answer>)
    ensures forall a :: a in r <==> a in df && a.concept in concepts
  {
    Filter(df, (a: Answer) => a.concept in concepts)
  }

  function ScorePoint(p: ScoreRow): ConceptScore
  {
    ConceptScore(KeyAt(p.key, 0), KeyAt(p.key, 1), KeyAt(p.key, 2), p.score)
  }

  /** The student's answers on the chosen concepts. */
  function OverTimeScope(df: seq<Answer>, studentID: int, concepts: seq<string>): seq<Answer>
  {
    OfConcepts(ForStudent(df, studentID), concepts)
  }

  /** conceptPerformanceOverTime before plotting: one point per (test, date,
      concept) among the student's answers on the chosen concepts, in that
      key order, with the student's fraction right there. */
  function ConceptPerformanceOverTime(df: seq<Answer>, studentID: int, concepts: seq<string>): (r: seq<ConceptScore>)
    ensures forall i, j :: 0 <= i < j < |r| ==>
              KeyLess([r[i].testID, r[i].testDate, r[i].concept], [r[j].testID, r[j].testDate, r[j].concept])
    ensures forall x :: x in r ==>
              var k := [x.testID, x.testDate, x.concept];
              var scope := OverTimeScope(df, studentID, concepts);
              && (exists a :: a in df && a.studentID == studentID && a.concept in concepts && k == Project(a, OverTimeCols))
              && Asked(scope, OverTimeCols, k) > 0
              && x.score == Round2(Right(scope, OverTimeCols, k) as real / Asked(scope, OverTimeCols, k) as real)
    ensures forall a :: a in df && a.studentID == studentID && a.concept in concepts ==>
              exists x :: x in r && [x.testID, x.testDate, x.concept] == Project(a, OverTimeCols)
  {
    var scope := OverTimeScope(df, studentID, concepts);
    var rows := PerfByColumns(scope, OverTimeCols);
    var r := seq(|rows|, i requires 0 <= i < |rows| => ScorePoint(rows[i]));
    OverTimeKeys(scope, rows, r);
    OverTimePoints(df, studentID, concepts, scope, rows, r);
    r
  }

  /** The points carry the keys of the grouped rows, which are the keys of
      three columns. */
  lemma {:induction false} OverTimeKeys(scope: seq<Answer>, rows: seq<ScoreRow>, r: seq<ConceptScore>)
    requires forall p :: p in rows ==> ScoreRowOf(scope, OverTimeCols, p)
    requires ScoreKeys(rows) == RowKeys(scope, OverTimeCols)
    requires forall i, j :: 0 <= i < j < |rows| ==> KeyLess(rows[i].key, rows[j].key)
    requires |r| == |rows| && forall i :: 0 <= i < |rows| ==> r[i] == ScorePoint(rows[i])
    ensures forall i :: 0 <= i < |r| ==> [r[i].testID, r[i].testDate, r[i].concept] == rows[i].key
  {
    forall i | 0 <= i < |r| ensures [r[i].testID, r[i].testDate, r[i].concept] == rows[i].key {
      assert rows[i] in rows;
      assert rows[i].key in RowKeys(scope, OverTimeCols);
      var a :| a in scope && Project(a, OverTimeCols) == rows[i].key;
    }
  }

  lemma {:induction false} OverTimePoints(df: seq<Answer>, studentID: int, concepts: seq<string>, scope: seq<Answer>,
                       rows: seq<ScoreRow>, r: seq<ConceptScore>)
    requires forall a :: a in scope <==> a in df && a.studentID == studentID && a.concept in concepts
    requires forall p :: p in rows ==> ScoreRowOf(scope, OverTimeCols, p)
    requires ScoreKeys(rows) == RowKeys(scope, OverTimeCols)
    requires |r| == |rows| && forall i :: 0 <= i < |rows| ==> r[i] == ScorePoint(rows[i])
    requires forall i :: 0 <= i < |r| ==> [r[i].testID, r[i].testDate, r[i].concept] == rows[i].key
    ensures forall x :: x in r ==>
              var k := [x.testID, x.testDate, x.concept];
              && (exists a :: a in df && a.studentID == studentID && a.concept in concepts && k == Project(a, OverTimeCols))
              && Asked(scope, OverTimeCols, k) > 0
              && x.score == Round2(Right(scope, OverTimeCols, k) as real / Asked(scope, OverTimeCols, k) as real)
    ensures forall a :: a in df && a.studentID == studentID && a.concept in concepts ==>
              exists x :: x in r && [x.testID, x.testDate, x.concept] == Project(a, OverTimeCols)
  {
    forall x | x in r
      ensures var k := [x.testID, x.testDate, x.concept];
              && (exists a :: a in df && a.studentID == studentID && a.concept in concepts && k == Project(a, OverTimeCols))
              && Asked(scope, OverTimeCols, k) > 0
              && x.score == Round2(Right(scope, OverTimeCols, k) as real / Asked(scope, OverTimeCols, k) as real)
    {
      var i :| 0 <= i < |r| && r[i] == x;
      assert rows[i] in rows;
      assert rows[i].key in RowKeys(scope, OverTimeCols);
    }
    forall a | a in df && a.studentID == studentID && a.concept in concepts
      ensures exists x :: x in r && [x.testID, x.testDate, x.concept] == Project(a, OverTimeCols)
    {
      assert a in scope;
      assert Project(a, OverTimeCols) in ScoreKeys(rows);
      var i :| 0 <= i < |rows| && rows[i].key == Project(a, OverTimeCols);
      assert r[i] in r;
    }
  }
}
