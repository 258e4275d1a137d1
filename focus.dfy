/** `buildFocusTable` (yleana_util.py, and its redefinition in
    score_report.py): the concepts on which one student trails the class
    most, weighted by how much of the subject each concept makes up. */
module Focus {
  import opened Cells
  import opened Aggregator
  import opened Answers
  import opened Performance
  import opened ClassAverager
  import opened ConceptWeights
  import opened Sorting

  /** The rows the table is built from: one subject, and one test when a
      testID is given. */
  function Scope(df: seq<Answer>, testID: Option<string>, subject: string): (r: seq<Answer>)
    ensures forall a :: a in r <==> a in df && a.subject == subject && (testID.Some? ==> a.testID == testID.value)
    ensures forall a :: multiset(r)[a] ==
              if a.subject == subject && (testID.Some? ==> a.testID == testID.value) then multiset(df)[a] else 0
  {
    ForSubject(ForTestIfGiven(df, testID), subject)
  }

  /** The per-student grouping columns of the focus table. */
  const StudentCols: seq<Column> := [StudentID, Subject, Concept]

  /** A row of `rec`. */
  datatype RecRow = RecRow(
    studentID: Cell,
    subject: Cell,
    concept: Cell,
    conceptWeight: Option<real>,
    wrong: real,
    score: real,
    classAvg: real,
    scoreDiff: real,
    weightedScoreDiff: Option<real>)

  /** The class row of (s, c): the inner merge on subject and concept. */
  function FindClass(cp: seq<ClassRow>, s: Cell, c: Cell): (r: Option<ClassRow>)
    ensures r.Some? ==> r.value in cp && r.value.subject == s && r.value.concept == c
    ensures r.None? ==> forall x :: x in cp ==> !(x.subject == s && x.concept == c)
  {
    if cp == [] then None
    else if cp[0].subject == s && cp[0].concept == c then Some(cp[0])
    else
      assert cp == [cp[0]] + cp[1..];
      FindClass(cp[1..], s, c)
  }

  /** The weight of (s, c): the left merge with the concept weights, `None`
      where pandas leaves NaN. */
  function FindWeight(w: seq<WeightRow>, s: Cell, c: Cell): (r: Option<real>)
    ensures r.Some? ==> exists x :: x in w && x.subject == s && x.concept == c && x.conceptWeight == r.value
    ensures r.None? <==> [s, c] !in WeightKeys(w)
  {
    if w == [] then None
    else if w[0].subject == s && w[0].concept == c then Some(w[0].conceptWeight)
    else
      assert w == [w[0]] + w[1..];
      FindWeight(w[1..], s, c)
  }

  /** `scoreDiff * conceptWeight`, NaN (`None`) when the weight is. */
  function Weighted(diff: real, weight: Option<real>): (r: Option<real>)
    ensures r.Some? <==> weight.Some?
  {
    if weight.Some? then Some(diff * weight.value) else None
  }

  /** One row of `rec` from a student row, its class row and its weight. */
  function MakeRec(p: PerfRow, c: ClassRow, weight: Option<real>): RecRow
  {
    var diff := p.score - c.classAvg;
    RecRow(KeyAt(p.key, 0), KeyAt(p.key, 1), KeyAt(p.key, 2), weight, p.wrong, p.score, c.classAvg, diff,
           Weighted(diff, weight))
  }

  /** What every row of `rec` is, before filtering and rounding. */
  ghost predicate JoinedRow(x: RecRow, sp: seq<PerfRow>, cp: seq<ClassRow>, w: seq<WeightRow>)
  {
    && (exists p :: p in sp && KeyAt(p.key, 0) == x.studentID && KeyAt(p.key, 1) == x.subject && KeyAt(p.key, 2) == x.concept
                 && p.score == x.score && p.wrong == x.wrong)
    && (exists c :: c in cp && c.subject == x.subject && c.concept == x.concept && c.classAvg == x.classAvg)
    && x.conceptWeight == FindWeight(w, x.subject, x.concept)
    && x.scoreDiff == x.score - x.classAvg
    && x.weightedScoreDiff == Weighted(x.scoreDiff, x.conceptWeight)
  }

  lemma {:induction false} MakeRecJoined(p: PerfRow, c: ClassRow, sp: seq<PerfRow>, cp: seq<ClassRow>, w: seq<WeightRow>)
    requires p in sp && c in cp && c.subject == KeyAt(p.key, 1) && c.concept == KeyAt(p.key, 2)
    ensures JoinedRow(MakeRec(p, c, FindWeight(w, KeyAt(p.key, 1), KeyAt(p.key, 2))), sp, cp, w)
  {
  }

  /** The row of `rec` for one student row: joined with the class row of its
      (subject, concept) and with its weight, or nothing when the inner
      merge finds no class row. */
  function JoinRow(p: PerfRow, cp: seq<ClassRow>, w: seq<WeightRow>): (r: Option<RecRow>)
    ensures r.Some? ==>
              && r.value.studentID == KeyAt(p.key, 0) && r.value.subject == KeyAt(p.key, 1)
              && r.value.concept == KeyAt(p.key, 2) && r.value.wrong == p.wrong
  {
    match FindClass(cp, KeyAt(p.key, 1), KeyAt(p.key, 2))
    case None => None
    case Some(c) => Some(MakeRec(p, c, FindWeight(w, KeyAt(p.key, 1), KeyAt(p.key, 2))))
  }

  /** q1, q2 and rec's derived columns: each student row joined with the
      class row of its (subject, concept) and with its weight if any. */
  function Joined(sp: seq<PerfRow>, cp: seq<ClassRow>, w: seq<WeightRow>): (r: seq<RecRow>)
    ensures forall x :: x in r ==> JoinedRow(x, sp, cp, w)
  {
    if sp == [] then []
    else
      var init := sp[..|sp| - 1];
      var p := sp[|sp| - 1];
      var rest := Joined(init, cp, w);
      assert forall x :: x in rest ==> JoinedRow(x, sp, cp, w) by {
        forall x | x in rest ensures JoinedRow(x, sp, cp, w) {
          assert JoinedRow(x, init, cp, w);
          var q :| q in init && KeyAt(q.key, 0) == x.studentID && KeyAt(q.key, 1) == x.subject && KeyAt(q.key, 2) == x.concept
                   && q.score == x.score && q.wrong == x.wrong;
          assert q in sp;
        }
      }
      var j := JoinRow(p, cp, w);
      if j.None? then rest
      else
        MakeRecJoined(p, FindClass(cp, KeyAt(p.key, 1), KeyAt(p.key, 2)).value, sp, cp, w);
        rest + [j.value]
  }

  /** No student row whose class row exists is lost by the join. */
  lemma {:induction false} JoinedComplete(sp: seq<PerfRow>, cp: seq<ClassRow>, w: seq<WeightRow>)
    ensures forall p :: p in sp && JoinRow(p, cp, w).Some? ==> JoinRow(p, cp, w).value in Joined(sp, cp, w)
  {
    if sp != [] {
      var init := sp[..|sp| - 1];
      var last := sp[|sp| - 1];
      JoinedComplete(init, cp, w);
      JoinedStep(sp, cp, w);
      assert sp == init + [last];
    }
  }

  /** The join of one more student row. */
  lemma {:induction false} JoinedStep(sp: seq<PerfRow>, cp: seq<ClassRow>, w: seq<WeightRow>)
    requires sp != []
    ensures var j := JoinRow(sp[|sp| - 1], cp, w);
            Joined(sp, cp, w) == Joined(sp[..|sp| - 1], cp, w) + (if j.Some? then [j.value] else [])
  {
  }

  /** When every student row has a class row, the join keeps them all, one
      for one and in order. */
  lemma {:induction false} JoinedAll(sp: seq<PerfRow>, cp: seq<ClassRow>, w: seq<WeightRow>)
    requires forall p :: p in sp ==> JoinRow(p, cp, w).Some?
    ensures |Joined(sp, cp, w)| == |sp|
    ensures forall i :: 0 <= i < |sp| ==> Joined(sp, cp, w)[i] == JoinRow(sp[i], cp, w).value
  {
    if sp != [] {
      var init := sp[..|sp| - 1];
      var last := sp[|sp| - 1];
      assert forall p :: p in init ==> p in sp;
      JoinedAll(init, cp, w);
      assert last in sp;
      JoinedStep(sp, cp, w);
      var ji := Joined(init, cp, w);
      var jl := JoinRow(last, cp, w).value;
      assert Joined(sp, cp, w) == ji + [jl];
      forall i | 0 <= i < |sp| ensures (ji + [jl])[i] == JoinRow(sp[i], cp, w).value {
        if i < |init| {
          assert sp[i] == init[i];
        }
      }
    }
  }

  /** `rec[rec['wrong'] >= minWrong]`. */
  function Qualifying(rows: seq<RecRow>, minWrong: int): seq<RecRow>
  {
    Filter(rows, WrongAtLeast(minWrong))
  }

  function WrongAtLeast(minWrong: int): RecRow -> bool
  {
    (x: RecRow) => x.wrong >= minWrong as real
  }

  function RoundOpt(x: Option<real>): Option<real>
  {
    if x.Some? then Some(Round2(x.value)) else None
  }

  /** The two-decimal rounding of the display columns; weightedScoreDiff,
      computed before it, is left alone. */
  function Display(x: RecRow): RecRow
  {
    x.(conceptWeight := RoundOpt(x.conceptWeight), score := Round2(x.score),
       classAvg := Round2(x.classAvg), scoreDiff := Round2(x.scoreDiff))
  }

  function DisplayAll(rows: seq<RecRow>): (r: seq<RecRow>)
    ensures |r| == |rows|
    ensures forall i :: 0 <= i < |rows| ==> r[i] == Display(rows[i])
  {
    seq(|rows|, i requires 0 <= i < |rows| => Display(rows[i]))
  }

  /** Ascending weightedScoreDiff, missing values last (pandas' NaN
      placement). */
  function WsdLe(a: RecRow, b: RecRow): bool
  {
    match a.weightedScoreDiff
    case None => b.weightedScoreDiff.None?
    case Some(x) => b.weightedScoreDiff.None? || x <= b.weightedScoreDiff.value
  }

  lemma {:induction false} WsdLeIsTotalPreorder()
    ensures TotalPreorder(WsdLe)
  {
  }

  function IsStudent(sid: int): RecRow -> bool
  {
    (x: RecRow) => x.studentID == Int(sid)
  }

  /** The rows of `rec` before the student filter: joined, at least
      `minWrong` wrong, display columns rounded. */
  function CandidatesOf(sp: seq<PerfRow>, cp: seq<ClassRow>, w: seq<WeightRow>, minWrong: int): seq<RecRow>
  {
    DisplayAll(Qualifying(Joined(sp, cp, w), minWrong))
  }

  /** Every row of `rec` for the given scope, before the student filter. */
  function Candidates(df: seq<Answer>, testID: Option<string>, subject: string, passingThreshold: real, minWrong: int): seq<RecRow>
  {
    assert Subject in StudentCols && Concept in StudentCols;
    var d := Scope(df, testID, subject);
    var avg := ClassAvg(d, StudentCols, passingThreshold);
    CandidatesOf(avg.0, avg.1, ConceptWeight(d), minWrong)
  }

  /** The last line of buildFocusTable: sort by weightedScoreDiff, keep the
      student's rows, then the first five. */
  function Ranked(rec: seq<RecRow>, studentID: int): (r: seq<RecRow>)
    ensures |r| <= 5
    ensures forall x :: x in r ==> x in rec && x.studentID == Int(studentID)
    ensures SortedBy(r, WsdLe)
  {
    WsdLeIsTotalPreorder();
    TopOfFiltered(rec, IsStudent(studentID), WsdLe, 5);
    Take(Filter(SortBy(rec, WsdLe), IsStudent(studentID)), 5)
  }

  /** The ranking keeps the first min(5, n) of the student's n rows in
      weightedScoreDiff order: it is drawn from those rows, and no row it
      leaves out ranks before a row it keeps. */
  lemma {:induction false} RankedIsBestFive(rec: seq<RecRow>, studentID: int)
    ensures var r := Ranked(rec, studentID);
            var q := Filter(rec, IsStudent(studentID));
            && multiset(r) <= multiset(q)
            && |r| == (if |q| < 5 then |q| else 5)
            && forall x, y :: x in r && y in multiset(q) - multiset(r) ==> WsdLe(x, y)
  {
    WsdLeIsTotalPreorder();
    TopOfFiltered(rec, IsStudent(studentID), WsdLe, 5);
  }

  /** buildFocusTable (yleana_util.py): at most five rows, all the
      student's and the subject's, each with at least `minWrong` wrong
      answers, in ascending weightedScoreDiff, each for a (student, subject,
      concept) that occurs among the scoped rows. */
  function FocusTable(df: seq<Answer>, studentID: int, testID: Option<string>, subject: string,
                      passingThreshold: real, minWrong: int): (r: seq<RecRow>)
    ensures |r| <= 5
    ensures forall x :: x in r ==>
              && x.studentID == Int(studentID)
              && x.subject == Str(subject)
              && x.wrong >= minWrong as real
              && [x.studentID, x.subject, x.concept] in RowKeys(Scope(df, testID, subject), StudentCols)
    ensures SortedBy(r, WsdLe)
  {
    CandidatesFacts(df, testID, subject, passingThreshold, minWrong);
    Ranked(Candidates(df, testID, subject, passingThreshold, minWrong), studentID)
  }

  /** The student rows the focus table ranks: the given student's
      per-student rows with at least `minWrong` wrong answers, one per
      (subject, concept) the student was asked. */
  function Behind(sp: seq<PerfRow>, studentID: int, minWrong: int): seq<PerfRow>
  {
    Filter(sp, BehindTest(studentID, minWrong))
  }

  function BehindTest(studentID: int, minWrong: int): PerfRow -> bool
  {
    (p: PerfRow) => KeyAt(p.key, 0) == Int(studentID) && p.wrong >= minWrong as real
  }

  function PerfKeyLess(): (PerfRow, PerfRow) -> bool
  {
    (a: PerfRow, b: PerfRow) => KeyLess(a.key, b.key)
  }

  /** buildFocusTable ranks the student's concepts: the table has min(5, n)
      rows for the n (subject, concept) keys of the student in the scope with
      at least `minWrong` wrong answers, no two rows share a concept, each row
      is the displayed join of one of those keys, and a key the table leaves out ranks no earlier
      than any row it keeps. */
  lemma {:induction false} FocusTableIsBestFive(df: seq<Answer>, studentID: int, testID: Option<string>, subject: string,
                                                passingThreshold: real, minWrong: int)
    ensures var d := Scope(df, testID, subject);
            var avg := ClassAvg(d, StudentCols, passingThreshold);
            var w := ConceptWeight(d);
            var b := Behind(avg.0, studentID, minWrong);
            var r := FocusTable(df, studentID, testID, subject, passingThreshold, minWrong);
            && (forall i, j :: 0 <= i < j < |b| ==> KeyLess(b[i].key, b[j].key))
            && (forall p :: p in b ==> JoinRow(p, avg.1, w).Some?)
            && |r| == (if |b| < 5 then |b| else 5)
            && (forall i, j :: 0 <= i < j < |r| ==> r[i].concept != r[j].concept)
            && (forall x :: x in r ==> exists p :: p in b && x == Display(JoinRow(p, avg.1, w).value))
            && forall p, x :: p in b && x in r && (forall z :: z in r ==> z.concept != KeyAt(p.key, 2)) ==>
                 WsdLe(x, Display(JoinRow(p, avg.1, w).value))
  {
    var d := Scope(df, testID, subject);
    assert Subject in StudentCols && Concept in StudentCols;
    var avg := ClassAvg(d, StudentCols, passingThreshold);
    var w := ConceptWeight(d);
    StudentRowsJoin(avg.0, avg.1, w);
    BehindAscending(avg.0, studentID, minWrong);
    StudentCandidates(avg.0, avg.1, w, minWrong, studentID);
    var rec := Candidates(df, testID, subject, passingThreshold, minWrong);
    RankedIsBestFive(rec, studentID);
    BestOfBehind(Ranked(rec, studentID), Filter(rec, IsStudent(studentID)), Behind(avg.0, studentID, minWrong), avg.1, w);
    assert PerfKeys(avg.0) == RowKeys(d, StudentCols);
    CandidatesKeyedApart(avg.0, avg.1, w, d, minWrong, studentID);
    CandidatesFacts(df, testID, subject, passingThreshold, minWrong);
    ConceptsApart(Ranked(rec, studentID), Filter(rec, IsStudent(studentID)), Int(studentID), Str(subject));
  }

  /** The student rows of PerfByStudent come in strictly ascending key order,
      so Behind holds each key once. */
  lemma {:induction false} BehindAscending(sp: seq<PerfRow>, studentID: int, minWrong: int)
    requires forall i, j :: 0 <= i < j < |sp| ==> KeyLess(sp[i].key, sp[j].key)
    ensures var b := Behind(sp, studentID, minWrong);
            forall i, j :: 0 <= i < j < |b| ==> KeyLess(b[i].key, b[j].key)
  {
    assert SortedBy(sp, PerfKeyLess());
    FilterSorted(sp, BehindTest(studentID, minWrong), PerfKeyLess());
  }

  /** Every per-student row has a class row when the class table covers
      exactly the students' (subject, concept) pairs. */
  lemma {:induction false} StudentRowsJoin(sp: seq<PerfRow>, cp: seq<ClassRow>, w: seq<WeightRow>)
    requires (set k | k in ClassKeys(cp)) == StudentConcepts(sp, StudentCols)
    ensures forall p :: p in sp ==> JoinRow(p, cp, w).Some?
  {
    assert IndexOf(StudentCols, Subject) == 1 && IndexOf(StudentCols, Concept) == 2;
    forall p | p in sp ensures JoinRow(p, cp, w).Some? {
      var k := SubjectConcept(p.key, StudentCols);
      assert k == [KeyAt(p.key, 1), KeyAt(p.key, 2)];
      assert k in StudentConcepts(sp, StudentCols);
      var i :| 0 <= i < |cp| && ClassKeys(cp)[i] == k;
      assert cp[i] in cp;
    }
  }

  /** The student's candidate rows are, one for one, the displayed joins of
      the student rows in Behind. */
  lemma {:induction false} StudentCandidates(sp: seq<PerfRow>, cp: seq<ClassRow>, w: seq<WeightRow>, minWrong: int, studentID: int)
    requires forall p :: p in sp ==> JoinRow(p, cp, w).Some?
    ensures var q := Filter(CandidatesOf(sp, cp, w, minWrong), IsStudent(studentID));
            var b := Behind(sp, studentID, minWrong);
            && |q| == |b|
            && (forall p :: p in b ==> Display(JoinRow(p, cp, w).value) in q)
            && (forall x :: x in q ==> exists p :: p in b && x == Display(JoinRow(p, cp, w).value))
  {
    JoinedAll(sp, cp, w);
    var j := Joined(sp, cp, w);
    CandidateCount(sp, cp, w, j, minWrong, studentID);
    CandidateMembers(sp, cp, w, j, minWrong, studentID);
  }

  /** A join that keeps every student row one for one: how many of the
      student's candidates there are. */
  lemma {:induction false} CandidateCount(sp: seq<PerfRow>, cp: seq<ClassRow>, w: seq<WeightRow>, j: seq<RecRow>, minWrong: int, studentID: int)
    requires forall p :: p in sp ==> JoinRow(p, cp, w).Some?
    requires |j| == |sp| && forall i :: 0 <= i < |sp| ==> j[i] == JoinRow(sp[i], cp, w).value
    ensures |Filter(DisplayAll(Qualifying(j, minWrong)), IsStudent(studentID))| == |Behind(sp, studentID, minWrong)|
  {
    var f := Qualifying(j, minWrong);
    FilterCountsAgree(DisplayAll(f), f, IsStudent(studentID), IsStudent(studentID));
    FilterTwice(j, WrongAtLeast(minWrong), IsStudent(studentID));
    forall i | 0 <= i < |j|
      ensures Both(WrongAtLeast(minWrong), IsStudent(studentID))(j[i]) <==> BehindTest(studentID, minWrong)(sp[i])
    {
      assert sp[i] in sp;
    }
    FilterCountsAgree(j, sp, Both(WrongAtLeast(minWrong), IsStudent(studentID)), BehindTest(studentID, minWrong));
  }

  /** The same join: which rows the student's candidates are. */
  lemma {:induction false} CandidateMembers(sp: seq<PerfRow>, cp: seq<ClassRow>, w: seq<WeightRow>, j: seq<RecRow>, minWrong: int, studentID: int)
    requires forall p :: p in sp ==> JoinRow(p, cp, w).Some?
    requires |j| == |sp| && forall i :: 0 <= i < |sp| ==> j[i] == JoinRow(sp[i], cp, w).value
    ensures var q := Filter(DisplayAll(Qualifying(j, minWrong)), IsStudent(studentID));
            var b := Behind(sp, studentID, minWrong);
            && (forall p :: p in b ==> Display(JoinRow(p, cp, w).value) in q)
            && (forall x :: x in q ==> exists p :: p in b && x == Display(JoinRow(p, cp, w).value))
  {
    var f := Qualifying(j, minWrong);
    var disp := DisplayAll(f);
    var q := Filter(disp, IsStudent(studentID));
    var b := Behind(sp, studentID, minWrong);
    KeptRows(sp, cp, w, j, f, disp, q, b, minWrong, studentID);
    RowsKept(sp, cp, w, j, f, disp, q, b, minWrong, studentID);
  }

  /** Each student row in Behind gives a candidate of the student. */
  lemma {:induction false} RowsKept(sp: seq<PerfRow>, cp: seq<ClassRow>, w: seq<WeightRow>, j: seq<RecRow>, f: seq<RecRow>,
                                    disp: seq<RecRow>, q: seq<RecRow>, b: seq<PerfRow>, minWrong: int, studentID: int)
    requires forall p :: p in sp ==> JoinRow(p, cp, w).Some?
    requires |j| == |sp| && forall i :: 0 <= i < |sp| ==> j[i] == JoinRow(sp[i], cp, w).value
    requires forall y :: y in f <==> y in j && y.wrong >= minWrong as real
    requires |disp| == |f| && forall k :: 0 <= k < |f| ==> disp[k] == Display(f[k])
    requires forall x :: x in q <==> x in disp && x.studentID == Int(studentID)
    requires forall p :: p in b ==> p in sp && KeyAt(p.key, 0) == Int(studentID) && p.wrong >= minWrong as real
    ensures forall p :: p in b ==> Display(JoinRow(p, cp, w).value) in q
  {
    forall p | p in b ensures Display(JoinRow(p, cp, w).value) in q {
      var i :| 0 <= i < |sp| && sp[i] == p;
      assert j[i] in j;
      var k :| 0 <= k < |f| && f[k] == j[i];
      assert disp[k] in disp;
    }
  }

  /** Each candidate of the student comes from a student row in Behind. */
  lemma {:induction false} KeptRows(sp: seq<PerfRow>, cp: seq<ClassRow>, w: seq<WeightRow>, j: seq<RecRow>, f: seq<RecRow>,
                                    disp: seq<RecRow>, q: seq<RecRow>, b: seq<PerfRow>, minWrong: int, studentID: int)
    requires forall p :: p in sp ==> JoinRow(p, cp, w).Some?
    requires |j| == |sp| && forall i :: 0 <= i < |sp| ==> j[i] == JoinRow(sp[i], cp, w).value
    requires forall y :: y in f ==> y in j && y.wrong >= minWrong as real
    requires |disp| == |f| && forall k :: 0 <= k < |f| ==> disp[k] == Display(f[k])
    requires forall x :: x in q ==> x in disp && x.studentID == Int(studentID)
    requires forall p :: p in b <==> p in sp && KeyAt(p.key, 0) == Int(studentID) && p.wrong >= minWrong as real
    ensures forall x :: x in q ==> exists p :: p in b && x == Display(JoinRow(p, cp, w).value)
  {
    forall x | x in q ensures exists p :: p in b && x == Display(JoinRow(p, cp, w).value) {
      var k :| 0 <= k < |disp| && disp[k] == x;
      assert f[k] in f;
      var i :| 0 <= i < |j| && j[i] == f[k];
      assert sp[i] in sp;
      assert sp[i] in b;
    }
  }

  /** Ranking the student's candidates to the best five, restated over the
      student rows they come from. */
  lemma {:induction false} BestOfBehind(r: seq<RecRow>, q: seq<RecRow>, b: seq<PerfRow>, cp: seq<ClassRow>, w: seq<WeightRow>)
    requires forall p :: p in b ==> JoinRow(p, cp, w).Some?
    requires |q| == |b|
    requires forall p :: p in b ==> Display(JoinRow(p, cp, w).value) in q
    requires forall x :: x in q ==> exists p :: p in b && x == Display(JoinRow(p, cp, w).value)
    requires multiset(r) <= multiset(q) && |r| == (if |q| < 5 then |q| else 5)
    requires forall x, y :: x in r && y in multiset(q) - multiset(r) ==> WsdLe(x, y)
    ensures |r| == (if |b| < 5 then |b| else 5)
    ensures forall x :: x in r ==> exists p :: p in b && x == Display(JoinRow(p, cp, w).value)
    ensures forall p, x :: p in b && x in r && (forall z :: z in r ==> z.concept != KeyAt(p.key, 2)) ==>
              WsdLe(x, Display(JoinRow(p, cp, w).value))
  {
    forall x | x in r ensures x in q {
      assert x in multiset(r);
    }
    forall p, x | p in b && x in r && (forall z :: z in r ==> z.concept != KeyAt(p.key, 2))
      ensures WsdLe(x, Display(JoinRow(p, cp, w).value))
    {
      var y := Display(JoinRow(p, cp, w).value);
      assert y.concept == KeyAt(p.key, 2);
      assert y !in r;
      assert y in multiset(q) - multiset(r);
    }
  }

  /** Two rows of `rec` for different (studentID, subject, concept) keys. */
  function OtherKey(): (RecRow, RecRow) -> bool
  {
    (a: RecRow, b: RecRow) => a.studentID != b.studentID || a.subject != b.subject || a.concept != b.concept
  }

  /** A per-student key is exactly its (studentID, subject, concept). */
  lemma {:induction false} KeyTriple(p: PerfRow, d: seq<Answer>)
    requires p.key in RowKeys(d, StudentCols)
    ensures p.key == [KeyAt(p.key, 0), KeyAt(p.key, 1), KeyAt(p.key, 2)]
  {
    var a :| a in d && Project(a, StudentCols) == p.key;
    assert p.key == [Int(a.studentID), Str(a.subject), Str(a.concept)];
  }

  /** The per-student rows have distinct keys, so no two of the student's
      candidates share a (studentID, subject, concept). */
  lemma {:induction false} CandidatesKeyedApart(sp: seq<PerfRow>, cp: seq<ClassRow>, w: seq<WeightRow>, d: seq<Answer>,
                                                minWrong: int, studentID: int)
    requires forall i, j :: 0 <= i < j < |sp| ==> KeyLess(sp[i].key, sp[j].key)
    requires PerfKeys(sp) <= RowKeys(d, StudentCols)
    requires forall p :: p in sp ==> JoinRow(p, cp, w).Some?
    ensures SortedBy(Filter(CandidatesOf(sp, cp, w, minWrong), IsStudent(studentID)), OtherKey())
  {
    JoinedAll(sp, cp, w);
    var j := Joined(sp, cp, w);
    forall i, k | 0 <= i < k < |j| ensures OtherKey()(j[i], j[k]) {
      assert sp[i] in sp && sp[k] in sp;
      assert sp[i].key in PerfKeys(sp) && sp[k].key in PerfKeys(sp);
      KeyTriple(sp[i], d);
      KeyTriple(sp[k], d);
      KeyLessIrreflexive(sp[i].key);
    }
    var f := Qualifying(j, minWrong);
    FilterSorted(j, WrongAtLeast(minWrong), OtherKey());
    var disp := DisplayAll(f);
    assert SortedBy(disp, OtherKey());
    FilterSorted(disp, IsStudent(studentID), OtherKey());
  }

  /** A selection from rows keyed apart, all of one student and subject,
      holds each concept at most once. */
  lemma {:induction false} ConceptsApart(r: seq<RecRow>, q: seq<RecRow>, sid: Cell, subj: Cell)
    requires SortedBy(q, OtherKey())
    requires forall x :: x in q ==> x.studentID == sid && x.subject == subj
    requires multiset(r) <= multiset(q)
    ensures forall i, j :: 0 <= i < j < |r| ==> r[i].concept != r[j].concept
  {
    assert NoDuplicates(q);
    SubNoDuplicates(r, q);
    forall i, j | 0 <= i < j < |r| ensures r[i].concept != r[j].concept {
      assert r[i] in multiset(r) && r[j] in multiset(r);
      assert r[i] in q && r[j] in q;
      var a :| 0 <= a < |q| && q[a] == r[i];
      var b :| 0 <= b < |q| && q[b] == r[j];
      if a < b {
        assert OtherKey()(q[a], q[b]);
      } else {
        assert OtherKey()(q[b], q[a]);
      }
    }
  }

  /** What every candidate row says: the subject, the wrong count, and a key
      that occurs among the scoped rows. */
  lemma {:induction false} CandidatesFacts(df: seq<Answer>, testID: Option<string>, subject: string, passingThreshold: real, minWrong: int)
    ensures forall x :: x in Candidates(df, testID, subject, passingThreshold, minWrong) ==>
              && x.subject == Str(subject)
              && x.wrong >= minWrong as real
              && [x.studentID, x.subject, x.concept] in RowKeys(Scope(df, testID, subject), StudentCols)
  {
    var d := Scope(df, testID, subject);
    var avg := ClassAvg(d, StudentCols, passingThreshold);
    assert PerfKeys(avg.0) == RowKeys(d, StudentCols);
    CandidateKeys(avg.0, avg.1, ConceptWeight(d), minWrong, d, subject);
  }

  /** Every candidate row is keyed by a (studentID, subject, concept) of the
      scoped rows and has at least `minWrong` wrong answers. */
  lemma {:induction false} CandidateKeys(sp: seq<PerfRow>, cp: seq<ClassRow>, w: seq<WeightRow>, minWrong: int, d: seq<Answer>, subject: string)
    requires PerfKeys(sp) <= RowKeys(d, StudentCols)
    requires forall a :: a in d ==> a.subject == subject
    ensures forall x :: x in CandidatesOf(sp, cp, w, minWrong) ==>
              && x.subject == Str(subject)
              && x.wrong >= minWrong as real
              && [x.studentID, x.subject, x.concept] in RowKeys(d, StudentCols)
  {
    var q := Qualifying(Joined(sp, cp, w), minWrong);
    forall x | x in DisplayAll(q)
      ensures x.subject == Str(subject)
      ensures x.wrong >= minWrong as real
      ensures [x.studentID, x.subject, x.concept] in RowKeys(d, StudentCols)
    {
      var i :| 0 <= i < |q| && DisplayAll(q)[i] == x;
      assert q[i] in q;
      JoinedRowKey(q[i], sp, cp, w, d, subject);
      assert x.subject == q[i].subject && x.wrong == q[i].wrong;
    }
  }

  /** A joined row is keyed by a (studentID, subject, concept) of the rows its
      student rows were computed from. */
  lemma {:induction false} JoinedRowKey(y: RecRow, sp: seq<PerfRow>, cp: seq<ClassRow>, w: seq<WeightRow>, d: seq<Answer>, subject: string)
    requires PerfKeys(sp) <= RowKeys(d, StudentCols)
    requires forall a :: a in d ==> a.subject == subject
    requires JoinedRow(y, sp, cp, w)
    ensures y.subject == Str(subject)
    ensures [y.studentID, y.subject, y.concept] in RowKeys(d, StudentCols)
  {
    var p :| p in sp && KeyAt(p.key, 0) == y.studentID && KeyAt(p.key, 1) == y.subject && KeyAt(p.key, 2) == y.concept
             && p.score == y.score && p.wrong == y.wrong;
    assert p.key in PerfKeys(sp);
    var a :| a in d && Project(a, StudentCols) == p.key;
    assert p.key == [Int(a.studentID), Str(a.subject), Str(a.concept)];
  }

  /** Rows without a weight come after every row with one. */
  lemma {:induction false} MissingWeightsLast(df: seq<Answer>, studentID: int, testID: Option<string>, subject: string,
                           passingThreshold: real, minWrong: int)
    ensures var r := FocusTable(df, studentID, testID, subject, passingThreshold, minWrong);
            forall i, j :: 0 <= i < j < |r| && r[i].weightedScoreDiff.None? ==> r[j].weightedScoreDiff.None?
  {
  }

  /** Each candidate's weightedScoreDiff is (score - classAvg) *
      conceptWeight on the unrounded values of the joined row it displays, and
      is missing exactly when no scoped row outside the excluded tests carries
      its (subject, concept). */
  lemma {:induction false} CandidateWsd(df: seq<Answer>, testID: Option<string>, subject: string, passingThreshold: real, minWrong: int)
    ensures var d := Scope(df, testID, subject);
            var avg := ClassAvg(d, StudentCols, passingThreshold);
            var w := ConceptWeight(d);
            forall x :: x in Candidates(df, testID, subject, passingThreshold, minWrong) ==>
              && (x.weightedScoreDiff.None? <==> [x.subject, x.concept] !in RowKeys(Excluded(d), [Subject, Concept]))
              && exists y :: RoundedFrom(x, y) && JoinedRow(y, avg.0, avg.1, w)
  {
    var d := Scope(df, testID, subject);
    var avg := ClassAvg(d, StudentCols, passingThreshold);
    var w := ConceptWeight(d);
    assert WeightKeys(w) == RowKeys(Excluded(d), [Subject, Concept]);
    CandidateWeights(avg.0, avg.1, w, minWrong);
  }

  lemma {:induction false} CandidateWeights(sp: seq<PerfRow>, cp: seq<ClassRow>, w: seq<WeightRow>, minWrong: int)
    ensures forall x :: x in CandidatesOf(sp, cp, w, minWrong) ==>
              && (x.weightedScoreDiff.None? <==> [x.subject, x.concept] !in WeightKeys(w))
              && exists y :: RoundedFrom(x, y) && JoinedRow(y, sp, cp, w)
  {
    var q := Qualifying(Joined(sp, cp, w), minWrong);
    assert forall y :: y in q ==> JoinedRow(y, sp, cp, w);
    DisplayedRows(q, sp, cp, w);
  }

  /** Rounding the display columns of joined rows keeps what their
      weightedScoreDiff says. */
  lemma {:induction false} DisplayedRows(q: seq<RecRow>, sp: seq<PerfRow>, cp: seq<ClassRow>, w: seq<WeightRow>)
    requires forall y :: y in q ==> JoinedRow(y, sp, cp, w)
    ensures forall x :: x in DisplayAll(q) ==>
              && (x.weightedScoreDiff.None? <==> [x.subject, x.concept] !in WeightKeys(w))
              && exists y :: RoundedFrom(x, y) && JoinedRow(y, sp, cp, w)
  {
    forall x | x in DisplayAll(q)
      ensures x.weightedScoreDiff.None? <==> [x.subject, x.concept] !in WeightKeys(w)
      ensures exists y :: RoundedFrom(x, y) && JoinedRow(y, sp, cp, w)
    {
      var i :| 0 <= i < |q| && DisplayAll(q)[i] == x;
      assert q[i] in q;
      DisplayedMissing(q[i], x, w);
      DisplayedUnrounded(q[i], x, sp, cp, w);
    }
  }

  /** A displayed row misses its weightedScoreDiff exactly when its concept
      has no weight. */
  lemma {:induction false} DisplayedMissing(y: RecRow, x: RecRow, w: seq<WeightRow>)
    requires x == Display(y)
    requires y.conceptWeight == FindWeight(w, y.subject, y.concept)
    requires y.weightedScoreDiff == Weighted(y.score - y.classAvg, y.conceptWeight)
    ensures x.weightedScoreDiff.None? <==> [x.subject, x.concept] !in WeightKeys(w)
  {
  }

  /** `x` is the unrounded row `y` as displayed, and its weightedScoreDiff
      is (score - classAvg) * conceptWeight on `y`'s unrounded values. */
  ghost predicate RoundedFrom(x: RecRow, y: RecRow)
  {
    Display(y) == x && x.weightedScoreDiff == Weighted(y.score - y.classAvg, y.conceptWeight)
  }

  /** A displayed joined row keeps the weightedScoreDiff of the unrounded
      joined row. */
  lemma {:induction false} DisplayedUnrounded(y: RecRow, x: RecRow, sp: seq<PerfRow>, cp: seq<ClassRow>, w: seq<WeightRow>)
    requires x == Display(y)
    requires JoinedRow(y, sp, cp, w)
    ensures exists y :: RoundedFrom(x, y) && JoinedRow(y, sp, cp, w)
  {
    assert RoundedFrom(x, y);
  }

  /** The rows of the focus table: each displays an unrounded joined row of
      the scoped per-student rows, class rows and weights, and its
      weightedScoreDiff is that row's (score - classAvg) * conceptWeight,
      taken before the two-decimal rounding. */
  lemma {:induction false} FocusWsdFromUnrounded(df: seq<Answer>, studentID: int, testID: Option<string>, subject: string,
                              passingThreshold: real, minWrong: int)
    ensures var d := Scope(df, testID, subject);
            var avg := ClassAvg(d, StudentCols, passingThreshold);
            var w := ConceptWeight(d);
            forall x :: x in FocusTable(df, studentID, testID, subject, passingThreshold, minWrong) ==>
              && (x.weightedScoreDiff.None? <==> [x.subject, x.concept] !in RowKeys(Excluded(d), [Subject, Concept]))
              && exists y :: RoundedFrom(x, y) && JoinedRow(y, avg.0, avg.1, w)
  {
    CandidateWsd(df, testID, subject, passingThreshold, minWrong);
  }

  /** score_report.py's buildFocusTable: the same rows without the studentID
      and subject columns. */
  datatype FocusRow = FocusRow(concept: Cell, conceptWeight: Option<real>, wrong: real, score: real,
                               classAvg: real, scoreDiff: real, weightedScoreDiff: Option<real>)

  function Strip(x: RecRow): FocusRow
  {
    FocusRow(x.concept, x.conceptWeight, x.wrong, x.score, x.classAvg, x.scoreDiff, x.weightedScoreDiff)
  }

  function ReportFocusTable(df: seq<Answer>, studentID: int, testID: Option<string>, subject: string,
                            passingThreshold: real, minWrong: int): (r: seq<FocusRow>)
    ensures var full := FocusTable(df, studentID, testID, subject, passingThreshold, minWrong);
            && |r| == |full| <= 5
            && (forall i :: 0 <= i < |r| ==> r[i] == Strip(full[i]))
            && forall i, j :: 0 <= i < j < |r| ==> WsdLe(full[i], full[j])
  {
    StripAll(FocusTable(df, studentID, testID, subject, passingThreshold, minWrong))
  }

  /** Strips every row of a table, one for one. */
  function StripAll(full: seq<RecRow>): (r: seq<FocusRow>)
    ensures |r| == |full|
    ensures forall i :: 0 <= i < |r| ==> r[i] == Strip(full[i])
  {
    seq(|full|, i requires 0 <= i < |full| => Strip(full[i]))
  }
}
