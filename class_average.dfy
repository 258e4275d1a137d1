/** `getClassAvg` and `compareToClass` (yleana_util.py): per-student rows from
    `getPerfByStudent`, then one row per (subject, concept) over those rows.
    The class average is a mean of per-student scores, so every student
    weighs the same however many questions they answered. */
module ClassAverager {
  import opened Cells
  import opened Aggregator
  import opened Answers
  import opened Performance
  import opened Sorting

  /** The (subject, concept) part of a per-student key. */
  function SubjectConcept(k: Key, cols: seq<Column>): Key
    requires Subject in cols && Concept in cols
  {
    [KeyAt(k, IndexOf(cols, Subject)), KeyAt(k, IndexOf(cols, Concept))]
  }

  /** The (subject, concept) pairs the per-student rows cover. */
  function StudentConcepts(sp: seq<PerfRow>, cols: seq<Column>): set<Key>
    requires Subject in cols && Concept in cols
  {
    set p | p in sp :: SubjectConcept(p.key, cols)
  }

  /** Every per-student row contributes its (subject, concept) pair as an
      item key, and every item key comes from one. */
  lemma {:induction false} ByConceptKeys(sp: seq<PerfRow>, cols: seq<Column>, scores: bool)
    requires Subject in cols && Concept in cols
    ensures ItemKeys(ByConcept(sp, cols, scores)) == StudentConcepts(sp, cols)
  {
    var items := ByConcept(sp, cols, scores);
    forall k | k in StudentConcepts(sp, cols) ensures k in ItemKeys(items) {
      var p :| p in sp && SubjectConcept(p.key, cols) == k;
      var i :| 0 <= i < |sp| && sp[i] == p;
      assert items[i].key == k;
    }
    forall k | k in ItemKeys(items) ensures k in StudentConcepts(sp, cols) {
      var i :| 0 <= i < |items| && items[i].key == k;
      assert sp[i] in sp;
    }
  }


  /** `studentPerf[['subject', 'concept', statColumn]]` as items. */
  function ByConcept(sp: seq<PerfRow>, cols: seq<Column>, scores: bool): (r: seq<Item>)
    requires Subject in cols && Concept in cols
    ensures |r| == |sp|
    ensures forall i :: 0 <= i < |sp| ==>
              r[i] == Item(SubjectConcept(sp[i].key, cols), if scores then sp[i].score else sp[i].passing as real)
  {
    seq(|sp|, i requires 0 <= i < |sp| =>
      Item(SubjectConcept(sp[i].key, cols), if scores then sp[i].score else sp[i].passing as real))
  }

  /** A row of getClassAvg's class table. */
  datatype ClassRow = ClassRow(subject: Cell, concept: Cell, numStudentsGivenConcept: nat, classAvg: real)

  /** getClassAvg: the per-student rows, and per (subject, concept) the number
      of per-student rows and the mean of their scores. */
  function ClassAvg(df: seq<Answer>, cols: seq<Column>, passingThreshold: real): (r: (seq<PerfRow>, seq<ClassRow>))
    requires Subject in cols && Concept in cols
    ensures r.0 == PerfByStudent(df, cols, passingThreshold)
    ensures var ks := ClassKeys(r.1);
            && (forall i, j :: 0 <= i < j < |ks| ==> KeyLess(ks[i], ks[j]))
            && (set k | k in ks) == StudentConcepts(r.0, cols)
    ensures forall c :: c in r.1 ==>
              var items := ByConcept(r.0, cols, true);
              && c.numStudentsGivenConcept == CountKey(items, [c.subject, c.concept]) > 0
              && c.classAvg == SumKey(items, [c.subject, c.concept]) / c.numStudentsGivenConcept as real
              && 0.0 <= c.classAvg <= 1.0
  {
    var sp := PerfByStudent(df, cols, passingThreshold);
    var items := ByConcept(sp, cols, true);
    var gs := Aggregate(items);
    var r := seq(|gs|, i requires 0 <= i < |gs| => ClassRow(KeyAt(gs[i].key, 0), KeyAt(gs[i].key, 1), gs[i].size, gs[i].mean));
    ScoresInUnit(df, cols, passingThreshold);
    ClassRowsCorrect(items, gs, r);
    FollowsGroups(gs, ClassKeys(r));
    ByConceptKeys(sp, cols, true);
    (sp, r)
  }

  lemma {:induction false} ScoresInUnit(df: seq<Answer>, cols: seq<Column>, passingThreshold: real)
    requires Subject in cols && Concept in cols
    ensures UnitPairItems(ByConcept(PerfByStudent(df, cols, passingThreshold), cols, true))
  {
    var sp := PerfByStudent(df, cols, passingThreshold);
    forall i | 0 <= i < |sp| ensures 0.0 <= sp[i].score <= 1.0 {
      assert sp[i] in sp;
      FractionInUnit(Right(df, cols, sp[i].key), Asked(df, cols, sp[i].key));
    }
  }

  lemma {:induction false} ClassRowsCorrect(items: seq<Item>, gs: seq<Group>, r: seq<ClassRow>)
    requires UnitPairItems(items)
    requires gs == Aggregate(items)
    requires r == seq(|gs|, i requires 0 <= i < |gs| => ClassRow(KeyAt(gs[i].key, 0), KeyAt(gs[i].key, 1), gs[i].size, gs[i].mean))
    ensures forall c :: c in r ==>
              && c.numStudentsGivenConcept == CountKey(items, [c.subject, c.concept]) > 0
              && c.classAvg == SumKey(items, [c.subject, c.concept]) / c.numStudentsGivenConcept as real
              && 0.0 <= c.classAvg <= 1.0
    ensures forall i :: 0 <= i < |r| ==> [r[i].subject, r[i].concept] == gs[i].key
  {
    forall i | 0 <= i < |r| ensures [r[i].subject, r[i].concept] == gs[i].key {
      assert gs[i] in gs;
      PairGroup(items, gs[i]);
    }
    forall c | c in r
      ensures c.numStudentsGivenConcept == CountKey(items, [c.subject, c.concept]) > 0
      ensures c.classAvg == SumKey(items, [c.subject, c.concept]) / c.numStudentsGivenConcept as real
      ensures 0.0 <= c.classAvg <= 1.0
    {
      var i :| 0 <= i < |r| && r[i] == c;
      assert gs[i] in gs;
      PairGroup(items, gs[i]);
    }
  }

  /** The keys of a table, row by row. */
  function KeysOf<R>(r: seq<R>, key: R -> Key): (ks: seq<Key>)
    ensures |ks| == |r|
    ensures forall i :: 0 <= i < |r| ==> ks[i] == key(r[i])
  {
    seq(|r|, i requires 0 <= i < |r| => key(r[i]))
  }

  /** The (subject, concept) keys of a class table, row by row. */
  function ClassKeys(r: seq<ClassRow>): seq<Key>
  {
    KeysOf(r, (c: ClassRow) => [c.subject, c.concept])
  }

  /** Keys that follow ascending groups position by position are strictly
      ascending and are the groups' keys. */
  lemma {:induction false} FollowsGroups(gs: seq<Group>, ks: seq<Key>)
    requires Ascending(gs) && |ks| == |gs|
    requires forall i :: 0 <= i < |gs| ==> ks[i] == gs[i].key
    ensures forall i, j :: 0 <= i < j < |ks| ==> KeyLess(ks[i], ks[j])
    ensures (set k | k in ks) == KeySet(gs)
  {
    forall k | k in KeySet(gs) ensures k in ks {
      var g :| g in gs && g.key == k;
      var i :| 0 <= i < |gs| && gs[i] == g;
      assert ks[i] == k;
    }
  }

  /** Items keyed by (subject, concept) pairs with values between 0 and 1. */
  ghost predicate UnitPairItems(items: seq<Item>)
  {
    forall i :: 0 <= i < |items| ==> |items[i].key| == 2 && 0.0 <= items[i].value <= 1.0
  }

  /** A group of such items: its key is a pair, and its sum lies between 0
      and its size, so its mean between 0 and 1. */
  lemma {:induction false} PairGroup(items: seq<Item>, g: Group)
    requires UnitPairItems(items)
    requires g in Aggregate(items)
    ensures g.key == [KeyAt(g.key, 0), KeyAt(g.key, 1)]
    ensures g.size == CountKey(items, g.key) > 0 && g.sum == SumKey(items, g.key)
    ensures 0.0 <= g.sum <= g.size as real
    ensures g.mean == g.sum / g.size as real && 0.0 <= g.mean <= 1.0
  {
    assert g.key in ItemKeys(items);
    var j :| 0 <= j < |items| && items[j].key == g.key;
    SumKeyInUnit(items, g.key);
    FractionInUnitReal(g.sum, g.size);
  }

  lemma {:induction false} FractionInUnitReal(part: real, whole: nat)
    requires 0 < whole && 0.0 <= part <= whole as real
    ensures 0.0 <= part / whole as real <= 1.0
  {
    assert part / whole as real * whole as real == part;
  }

  /** A row of compareToClass's class table. */
  datatype PassRow = PassRow(subject: Cell, concept: Cell, numStudentsGivenConcept: nat, numStudentsPassed: real, pctStudentsPassed: real)

  /** compareToClass: the per-student rows, and per (subject, concept) how many
      per-student rows there are, how many of them pass, and the fraction
      passing. */
  function CompareToClass(df: seq<Answer>, cols: seq<Column>, passingThreshold: real): (r: (seq<PerfRow>, seq<PassRow>))
    requires Subject in cols && Concept in cols
    ensures r.0 == PerfByStudent(df, cols, passingThreshold)
    ensures var ks := KeysOf(r.1, (c: PassRow) => [c.subject, c.concept]);
            && (forall i, j :: 0 <= i < j < |ks| ==> KeyLess(ks[i], ks[j]))
            && (set k | k in ks) == StudentConcepts(r.0, cols)
    ensures forall c :: c in r.1 ==>
              var items := ByConcept(r.0, cols, false);
              && c.numStudentsGivenConcept == CountKey(items, [c.subject, c.concept]) > 0
              && c.numStudentsPassed == SumKey(items, [c.subject, c.concept])
              && 0.0 <= c.numStudentsPassed <= c.numStudentsGivenConcept as real
              && c.pctStudentsPassed == c.numStudentsPassed / c.numStudentsGivenConcept as real
              && 0.0 <= c.pctStudentsPassed <= 1.0
  {
    var sp := PerfByStudent(df, cols, passingThreshold);
    var items := ByConcept(sp, cols, false);
    var gs := Aggregate(items);
    var r := seq(|gs|, i requires 0 <= i < |gs| => PassRow(KeyAt(gs[i].key, 0), KeyAt(gs[i].key, 1), gs[i].size, gs[i].sum, gs[i].mean));
    PassRowsCorrect(items, gs, r);
    FollowsGroups(gs, KeysOf(r, (c: PassRow) => [c.subject, c.concept]));
    ByConceptKeys(sp, cols, false);
    (sp, r)
  }

  lemma {:induction false} PassRowsCorrect(items: seq<Item>, gs: seq<Group>, r: seq<PassRow>)
    requires UnitPairItems(items)
    requires gs == Aggregate(items)
    requires r == seq(|gs|, i requires 0 <= i < |gs| => PassRow(KeyAt(gs[i].key, 0), KeyAt(gs[i].key, 1), gs[i].size, gs[i].sum, gs[i].mean))
    ensures forall c :: c in r ==>
              && c.numStudentsGivenConcept == CountKey(items, [c.subject, c.concept]) > 0
              && c.numStudentsPassed == SumKey(items, [c.subject, c.concept])
              && 0.0 <= c.numStudentsPassed <= c.numStudentsGivenConcept as real
              && c.pctStudentsPassed == c.numStudentsPassed / c.numStudentsGivenConcept as real
              && 0.0 <= c.pctStudentsPassed <= 1.0
    ensures forall i :: 0 <= i < |r| ==> [r[i].subject, r[i].concept] == gs[i].key
  {
    forall i | 0 <= i < |r| ensures [r[i].subject, r[i].concept] == gs[i].key {
      assert gs[i] in gs;
      PairGroup(items, gs[i]);
    }
    forall c | c in r
      ensures c.numStudentsGivenConcept == CountKey(items, [c.subject, c.concept]) > 0
      ensures c.numStudentsPassed == SumKey(items, [c.subject, c.concept])
      ensures 0.0 <= c.numStudentsPassed <= c.numStudentsGivenConcept as real
      ensures c.pctStudentsPassed == c.numStudentsPassed / c.numStudentsGivenConcept as real
      ensures 0.0 <= c.pctStudentsPassed <= 1.0
    {
      var i :| 0 <= i < |r| && r[i] == c;
      assert gs[i] in gs;
      PairGroup(items, gs[i]);
    }
  }

  /** `df.loc[df[c] == v]`: the rows whose column `c` holds `v`, in order. */
  function RowsWith(df: seq<Answer>, c: Column, v: Cell): seq<Answer>
  {
    Filter(df, (a: Answer) => CellOf(a, c) == v)
  }

  /** The frame with every row whose `who` column holds `v` (one student's
      rows, with `who` a student column) appended a second time. */
  function DuplicateRows(df: seq<Answer>, who: Column, v: Cell): (r: seq<Answer>)
    ensures |r| >= |df| && r[..|df|] == df
    ensures forall a :: a in r[|df|..] <==> a in df && CellOf(a, who) == v
  {
    var extra := RowsWith(df, who, v);
    assert (df + extra)[|df|..] == extra;
    df + extra
  }

  lemma {:induction false} CountsOfConcat(a: seq<Answer>, b: seq<Answer>, cols: seq<Column>, k: Key)
    ensures Asked(a + b, cols, k) == Asked(a, cols, k) + Asked(b, cols, k)
    ensures Right(a + b, cols, k) == Right(a, cols, k) + Right(b, cols, k)
  {
    if b == [] {
      assert a + b == a;
    } else {
      assert (a + b)[..|a + b| - 1] == a + b[..|b| - 1];
      CountsOfConcat(a, b[..|b| - 1], cols, k);
    }
  }

  /** Restricting to the rows whose `cols[idx]` cell is `v` keeps all of a key's
      rows when the key has `v` in that place, and none of them otherwise. */
  lemma {:induction false} CountsOfRowsWith(df: seq<Answer>, cols: seq<Column>, idx: nat, v: Cell, k: Key)
    requires idx < |cols|
    ensures Asked(RowsWith(df, cols[idx], v), cols, k) == (if KeyAt(k, idx) == v then Asked(df, cols, k) else 0)
    ensures Right(RowsWith(df, cols[idx], v), cols, k) == (if KeyAt(k, idx) == v then Right(df, cols, k) else 0)
  {
    if df != [] {
      var init := df[..|df| - 1];
      var last := df[|df| - 1];
      var c := cols[idx];
      var w0 := RowsWith(init, c, v);
      CountsOfRowsWith(init, cols, idx, v, k);
      var hit := Project(last, cols) == k;
      assert hit ==> KeyAt(k, idx) == CellOf(last, c) by {
        assert Project(last, cols)[idx] == CellOf(last, c);
      }
      CountsOfAppend(w0, last, cols, k);
      var cellHit := CellOf(last, c) == v;
      var w := RowsWith(df, c, v);
      var askedStep: nat := if hit then 1 else 0;
      var rightStep: nat := if hit && last.correct == 1 then 1 else 0;
      if cellHit {
        assert w == w0 + [last];
        assert Asked(w, cols, k) == Asked(w0, cols, k) + askedStep;
        assert Right(w, cols, k) == Right(w0, cols, k) + rightStep;
      } else {
        assert w == w0;
      }
      assert Asked(df, cols, k) == Asked(init, cols, k) + askedStep;
      assert Right(df, cols, k) == Right(init, cols, k) + rightStep;
      CombineCounts(KeyAt(k, idx) == v, cellHit, hit, Asked(init, cols, k), Asked(w0, cols, k),
                    askedStep, Asked(df, cols, k), Asked(w, cols, k));
      CombineCounts(KeyAt(k, idx) == v, cellHit, hit, Right(init, cols, k), Right(w0, cols, k),
                    rightStep, Right(df, cols, k), Right(w, cols, k));
    }
  }

  /** The counting step of CountsOfRowsWith: a row that has key `k` is kept
      exactly when `k` has `v` in that place. */
  lemma {:induction false} CombineCounts(keyHit: bool, cellHit: bool, hit: bool, prevAll: nat, prevKept: nat, step: nat, all: nat, kept: nat)
    requires hit ==> (keyHit <==> cellHit)
    requires step > 0 ==> hit
    requires prevKept == (if keyHit then prevAll else 0)
    requires all == prevAll + step
    requires kept == (if cellHit then prevKept + step else prevKept)
    ensures kept == (if keyHit then all else 0)
  {
  }

  /** Appending one row adds it to the counts of its own key only. */
  lemma {:induction false} CountsOfAppend(df: seq<Answer>, a: Answer, cols: seq<Column>, k: Key)
    ensures Asked(df + [a], cols, k) == Asked(df, cols, k) + (if Project(a, cols) == k then 1 else 0)
    ensures Right(df + [a], cols, k) == Right(df, cols, k) + (if Project(a, cols) == k && a.correct == 1 then 1 else 0)
  {
    assert (df + [a])[..|df|] == df;
  }

  /** Appending a student's rows again doubles that student's counts and
      leaves everyone else's alone, so each key's fraction right is unchanged. */
  lemma {:induction false} DuplicateKeepsFraction(df: seq<Answer>, cols: seq<Column>, idx: nat, v: Cell, k: Key)
    requires idx < |cols| && Asked(df, cols, k) > 0
    ensures var d := df + RowsWith(df, cols[idx], v);
            && Asked(d, cols, k) > 0
            && Right(d, cols, k) as real / Asked(d, cols, k) as real == Right(df, cols, k) as real / Asked(df, cols, k) as real
  {
    var w := RowsWith(df, cols[idx], v);
    CountsOfConcat(df, w, cols, k);
    CountsOfRowsWith(df, cols, idx, v, k);
    SameFraction(Right(df, cols, k), Asked(df, cols, k), Right(w, cols, k), Asked(w, cols, k),
                 Right(df + w, cols, k), Asked(df + w, cols, k));
  }

  /** Adding either nothing or a copy of the same counts keeps the fraction. */
  lemma {:induction false} SameFraction(q: nat, n: nat, qw: nat, nw: nat, q2: nat, n2: nat)
    requires n > 0 && q2 == q + qw && n2 == n + nw
    requires (qw == q && nw == n) || (qw == 0 && nw == 0)
    ensures n2 > 0 && q2 as real / n2 as real == q as real / n as real
  {
    if nw == n {
      DoubledFraction(q, n);
    }
  }

  lemma {:induction false} DoubledFraction(q: nat, n: nat)
    requires n > 0
    ensures (q + q) as real / (n + n) as real == q as real / n as real
  {
    var x := q as real / n as real;
    assert x * n as real == q as real;
    assert x * (n + n) as real == (q + q) as real;
  }

  lemma {:induction false} SameGroupKeys(df: seq<Answer>, cols: seq<Column>, who: Column, v: Cell)
    ensures var gs := Aggregate(CorrectItems(df, cols));
            var gd := Aggregate(CorrectItems(DuplicateRows(df, who, v), cols));
            && |gd| == |gs|
            && forall i :: 0 <= i < |gs| ==> gd[i].key == gs[i].key
  {
    var d := DuplicateRows(df, who, v);
    CorrectItemsKeys(df, cols);
    CorrectItemsKeys(d, cols);
    assert RowKeys(d, cols) == RowKeys(df, cols) by {
      assert d == d[..|df|] + d[|df|..];
    }
    AscendingUnique(Aggregate(CorrectItems(d, cols)), Aggregate(CorrectItems(df, cols)));
  }

  /** Per-student rows after duplicating one student's rows: the same keys in
      the same places, with the same scores and passing flags. */
  lemma {:induction false} DuplicateKeepsScores(df: seq<Answer>, cols: seq<Column>, passingThreshold: real, who: Column, v: Cell)
    requires who in cols
    ensures var before := PerfByStudent(df, cols, passingThreshold);
            var after := PerfByStudent(DuplicateRows(df, who, v), cols, passingThreshold);
            && |after| == |before|
            && forall i :: 0 <= i < |before| ==>
                 && after[i].key == before[i].key
                 && after[i].score == before[i].score
                 && after[i].passing == before[i].passing
  {
    var d := DuplicateRows(df, who, v);
    var idx := IndexOf(cols, who);
    var gs := Aggregate(CorrectItems(df, cols));
    var gd := Aggregate(CorrectItems(d, cols));
    SameGroupKeys(df, cols, who, v);
    assert d == df + RowsWith(df, cols[idx], v);
    forall i | 0 <= i < |gs| ensures gd[i].mean == gs[i].mean {
      assert gs[i] in gs && gd[i] in gd;
      SameMean(df, cols, idx, v, gs[i], gd[i]);
    }
    SameMeansSameRows(gs, gd, passingThreshold);
  }

  /** The group of key k before and after the duplication has the same mean. */
  lemma {:induction false} SameMean(df: seq<Answer>, cols: seq<Column>, idx: nat, v: Cell, g: Group, h: Group)
    requires idx < |cols|
    requires g in Aggregate(CorrectItems(df, cols))
    requires h in Aggregate(CorrectItems(df + RowsWith(df, cols[idx], v), cols)) && h.key == g.key
    ensures h.mean == g.mean
  {
    CorrectItemsCount(df, cols, g.key);
    CorrectItemsCount(df + RowsWith(df, cols[idx], v), cols, g.key);
    DuplicateKeepsFraction(df, cols, idx, v, g.key);
  }

  /** Groups with the same keys and means give the same keys, scores and
      passing flags. */
  lemma {:induction false} SameMeansSameRows(gs: seq<Group>, gd: seq<Group>, passingThreshold: real)
    requires |gd| == |gs|
    requires forall i :: 0 <= i < |gs| ==> gd[i].key == gs[i].key && gd[i].mean == gs[i].mean
    ensures var before := seq(|gs|, i requires 0 <= i < |gs| => ToPerf(gs[i], passingThreshold));
            var after := seq(|gd|, i requires 0 <= i < |gd| => ToPerf(gd[i], passingThreshold));
            forall i :: 0 <= i < |before| ==>
              && after[i].key == before[i].key
              && after[i].score == before[i].score
              && after[i].passing == before[i].passing
  {
  }

  /** Duplicating one student's rows changes neither the number of students
      given a concept nor the class average, nor the pass counts: each
      student is one row per concept however many rows they have. */
  lemma {:induction false} DuplicateKeepsClassAvg(df: seq<Answer>, cols: seq<Column>, passingThreshold: real, who: Column, v: Cell)
    requires Subject in cols && Concept in cols && who in cols
    ensures ClassAvg(DuplicateRows(df, who, v), cols, passingThreshold).1 == ClassAvg(df, cols, passingThreshold).1
    ensures CompareToClass(DuplicateRows(df, who, v), cols, passingThreshold).1 == CompareToClass(df, cols, passingThreshold).1
  {
    var before := PerfByStudent(df, cols, passingThreshold);
    var after := PerfByStudent(DuplicateRows(df, who, v), cols, passingThreshold);
    DuplicateKeepsScores(df, cols, passingThreshold, who, v);
    assert ByConcept(after, cols, true) == ByConcept(before, cols, true);
    assert ByConcept(after, cols, false) == ByConcept(before, cols, false);
  }
}
