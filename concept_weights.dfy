/** `drop_test` and `getConceptWeight` (yleana_util.py): how much of a subject
    each concept makes up, measured by how many questions a student meets on
    it per test, averaged over (student, test), as a share of the subject's
    total. */
module ConceptWeights {
  import opened Cells
  import opened Aggregator
  import opened Answers

  /** drop_test as intended: the rows whose testID does not contain `desc`,
      in their original order. */
  function DropTest(df: seq<Answer>, desc: string): seq<Answer>
  {
    if df == [] then []
    else
      var last := df[|df| - 1];
      DropTest(df[..|df| - 1], desc) + (if Contains(last.testID, desc) then [] else [last])
  }

  /** drop_test keeps exactly the rows whose testID does not contain `desc`,
      each as often as it occurs, and drops every other row. */
  lemma {:induction false} DropTestKeeps(df: seq<Answer>, desc: string)
    ensures forall a :: a in DropTest(df, desc) <==> a in df && !Contains(a.testID, desc)
    ensures forall a: Answer :: !Contains(a.testID, desc) ==> multiset(DropTest(df, desc))[a] == multiset(df)[a]
    ensures forall a: Answer :: Contains(a.testID, desc) ==> multiset(DropTest(df, desc))[a] == 0
  {
    if df != [] {
      var init := df[..|df| - 1];
      DropTestKeeps(init, desc);
      assert df == init + [df[|df| - 1]];
    }
  }

  // ---------------------------------------------------------------------
  // drop_test as written: `np.where` yields positions, `df.drop` takes
  // labels. The two agree only while the index labels are 0..n-1.

  /** A row with its pandas index label. */
  datatype Labelled = Labelled(indexLabel: int, row: Answer)

  function Rows(frame: seq<Labelled>): (r: seq<Answer>)
    ensures |r| == |frame|
    ensures forall i :: 0 <= i < |frame| ==> r[i] == frame[i].row
  {
    seq(|frame|, i requires 0 <= i < |frame| => frame[i].row)
  }

  /** `np.where(df.testID.str.contains(desc))[0]`: positions, not labels. */
  function MatchPositions(frame: seq<Labelled>, desc: string): set<int>
  {
    set i | 0 <= i < |frame| && Contains(frame[i].row.testID, desc)
  }

  predicate HasLabel(frame: seq<Labelled>, l: int)
  {
    exists i :: 0 <= i < |frame| && frame[i].indexLabel == l
  }

  /** `df.drop(labels)` once every label is known to exist. */
  function DropLabels(frame: seq<Labelled>, labels: set<int>): (r: seq<Answer>)
    ensures forall a :: a in r ==> a in Rows(frame)
  {
    if frame == [] then []
    else
      var last := frame[|frame| - 1];
      DropLabels(frame[..|frame| - 1], labels) + (if last.indexLabel in labels then [] else [last.row])
  }

  /** drop_test as written, with the index reset afterwards: `None` is the
      error `df.drop` raises for a position that is no label; otherwise
      the rows whose LABEL is one of the matching POSITIONS are dropped. */
  function DropTestAsWritten(frame: seq<Labelled>, desc: string): (r: Option<seq<Answer>>)
    ensures r.None? <==> exists p :: p in MatchPositions(frame, desc) && !HasLabel(frame, p)
    ensures r.Some? ==> forall a :: a in r.value ==> a in Rows(frame)
  {
    var pos := MatchPositions(frame, desc);
    if exists p :: p in pos && !HasLabel(frame, p) then None
    else Some(DropLabels(frame, pos))
  }

  /** On a frame labelled 0..n-1, as a freshly read or freshly reset frame
      is, drop_test as written is the substring filter. */
  lemma {:induction false} DropTestAgreesOnFreshIndex(frame: seq<Labelled>, desc: string)
    requires forall i :: 0 <= i < |frame| ==> frame[i].indexLabel == i
    ensures DropTestAsWritten(frame, desc) == Some(DropTest(Rows(frame), desc))
  {
    var pos := MatchPositions(frame, desc);
    forall p | p in pos ensures HasLabel(frame, p) {
      assert frame[p].indexLabel == p;
    }
    DropLabelsFreshIndex(frame, pos, desc);
  }

  lemma {:induction false} DropLabelsFreshIndex(frame: seq<Labelled>, pos: set<int>, desc: string)
    requires forall i :: 0 <= i < |frame| ==> frame[i].indexLabel == i
    requires forall i :: 0 <= i < |frame| ==> (i in pos <==> Contains(frame[i].row.testID, desc))
    ensures DropLabels(frame, pos) == DropTest(Rows(frame), desc)
  {
    if frame != [] {
      var init := frame[..|frame| - 1];
      var last := frame[|frame| - 1];
      var rows := Rows(frame);
      DropLabelsFreshIndex(init, pos, desc);
      assert rows[..|frame| - 1] == Rows(init);
      assert rows[|frame| - 1] == last.row;
      var dropped := last.indexLabel in pos;
      assert dropped <==> Contains(last.row.testID, desc);
      assert DropLabels(frame, pos) == DropLabels(init, pos) + (if dropped then [] else [last.row]);
      assert DropTest(rows, desc) == DropTest(Rows(init), desc) + (if dropped then [] else [last.row]);
    }
  }

  /** A row whose only distinguishing field is its testID. */
  function RowOfTest(t: string): Answer
  {
    Answer("Ann", "Lee", 0, t, 1, 1, "math", "algebra", "easy", "A", "A", 1, 1, "")
  }

  /** A frame already filtered (by subject, say): labels 0, 2 and 3, with
      the "BB" test at position 2. */
  function FilteredFrame(): seq<Labelled>
  {
    [Labelled(0, RowOfTest("T1")), Labelled(2, RowOfTest("T2")), Labelled(3, RowOfTest("BB3"))]
  }

  /** On that frame the row LABELLED 2, a different test, is dropped and the
      "BB" row survives, where the filter drops the "BB" row. */
  lemma {:induction false} DropTestAsWrittenDropsWrongRow()
    ensures DropTestAsWritten(FilteredFrame(), "BB") == Some([RowOfTest("T1"), RowOfTest("BB3")])
    ensures DropTest(Rows(FilteredFrame()), "BB") == [RowOfTest("T1"), RowOfTest("T2")]
  {
    var frame := FilteredFrame();
    OnlyPositionTwoMatches();
    assert HasLabel(frame, 2) by { assert frame[1].indexLabel == 2; }
    LabelTwoDropped();
    FilterKeepsFirstTwo();
  }

  lemma {:induction false} OnlyPositionTwoMatches()
    ensures MatchPositions(FilteredFrame(), "BB") == {2}
  {
    WhichTestsMatch();
  }

  lemma {:induction false} WhichTestsMatch()
    ensures !Contains("T1", "BB") && !Contains("T2", "BB") && Contains("BB3", "BB")
  {
    assert !Contains("T1", "BB") by {
      assert "T1"[..2] == "T1" && "T1"[1..] == "1" && "1"[1..] == "";
      assert !Contains("", "BB") && !Contains("1", "BB");
    }
    assert !Contains("T2", "BB") by {
      assert "T2"[..2] == "T2" && "T2"[1..] == "2" && "2"[1..] == "";
      assert !Contains("", "BB") && !Contains("2", "BB");
    }
    assert Contains("BB3", "BB") by { assert "BB3"[..2] == "BB"; }
  }

  lemma {:induction false} LabelTwoDropped()
    ensures DropLabels(FilteredFrame(), {2}) == [RowOfTest("T1"), RowOfTest("BB3")]
  {
    var frame := FilteredFrame();
    assert frame[..1][..0] == [];
    assert DropLabels(frame[..1], {2}) == [RowOfTest("T1")];
    assert frame[..2][..1] == frame[..1];
    assert DropLabels(frame[..2], {2}) == [RowOfTest("T1")];
  }

  lemma {:induction false} FilterKeepsFirstTwo()
    ensures DropTest(Rows(FilteredFrame()), "BB") == [RowOfTest("T1"), RowOfTest("T2")]
  {
    FilteredRows();
    FilterOfRows();
  }

  lemma {:induction false} FilteredRows()
    ensures Rows(FilteredFrame()) == [RowOfTest("T1"), RowOfTest("T2"), RowOfTest("BB3")]
  {
  }

  lemma {:induction false} FilterOfRows()
    ensures DropTest([RowOfTest("T1"), RowOfTest("T2"), RowOfTest("BB3")], "BB") == [RowOfTest("T1"), RowOfTest("T2")]
  {
    var r1, r2, r3 := RowOfTest("T1"), RowOfTest("T2"), RowOfTest("BB3");
    FilterKeepsFirst();
    WhichTestsMatch();
    assert [r1, r2, r3][..2] == [r1, r2];
  }

  lemma {:induction false} FilterKeepsFirst()
    ensures DropTest([RowOfTest("T1"), RowOfTest("T2")], "BB") == [RowOfTest("T1"), RowOfTest("T2")]
  {
    var r1, r2 := RowOfTest("T1"), RowOfTest("T2");
    WhichTestsMatch();
    assert [r1][..0] == [];
    assert [r1, r2][..1] == [r1];
  }

  /** A frame labelled 5 alone whose row is a "BB" test: position 0 is no
      label, and drop_test as written raises where the filter returns []. */
  lemma {:induction false} DropTestAsWrittenRaises()
    ensures DropTestAsWritten([Labelled(5, RowOfTest("BB"))], "BB").None?
    ensures DropTest(Rows([Labelled(5, RowOfTest("BB"))]), "BB") == []
  {
    var frame := [Labelled(5, RowOfTest("BB"))];
    assert Contains("BB", "BB") by { assert "BB"[..2] == "BB"; }
    assert 0 in MatchPositions(frame, "BB");
    assert Rows(frame)[..0] == [];
  }

  // ---------------------------------------------------------------------
  // getConceptWeight

  /** The tests the weights ignore: partial tests, and one test without
      concept tags. */
  function Excluded(df: seq<Answer>): (r: seq<Answer>)
    ensures forall a :: a in r <==>
              a in df && !Contains(a.testID, "BB") && !Contains(a.testID, "YL_6_PP_SAT_S0111")
  {
    DropTestKeeps(df, "BB");
    DropTestKeeps(DropTest(df, "BB"), "YL_6_PP_SAT_S0111");
    DropTest(DropTest(df, "BB"), "YL_6_PP_SAT_S0111")
  }

  /** Students are told apart by first name here, not by studentID. */
  const PerStudentTest: seq<Column> := [FirstName, TestID, Subject, Concept]

  function SubjectConceptOf(k: Key): Key
  {
    [KeyAt(k, 2), KeyAt(k, 3)]
  }

  /** d1: questionsPerConcept (the group size) per (firstName, testID,
      subject, concept). */
  function QuestionsPerConcept(d0: seq<Answer>): seq<Group>
  {
    Aggregate(CorrectItems(d0, PerStudentTest))
  }

  function ConceptItems(d1: seq<Group>): (r: seq<Item>)
    ensures |r| == |d1|
    ensures forall i :: 0 <= i < |d1| ==> r[i] == Item(SubjectConceptOf(d1[i].key), d1[i].size as real)
  {
    seq(|d1|, i requires 0 <= i < |d1| => Item(SubjectConceptOf(d1[i].key), d1[i].size as real))
  }

  /** d2: per (subject, concept), meanQsPerConcept is the mean of d1's
      question counts. */
  function MeanQsPerConcept(d0: seq<Answer>): seq<Group>
  {
    Aggregate(ConceptItems(QuestionsPerConcept(d0)))
  }

  function SubjectItems(d2: seq<Group>): (r: seq<Item>)
    ensures |r| == |d2|
    ensures forall i :: 0 <= i < |d2| ==> r[i] == Item([KeyAt(d2[i].key, 0)], d2[i].mean)
  {
    seq(|d2|, i requires 0 <= i < |d2| => Item([KeyAt(d2[i].key, 0)], d2[i].mean))
  }

  /** d3's concepts_x_Qs for subject `s`: the sum of the subject's
      meanQsPerConcept. */
  function SubjectTotal(d2: seq<Group>, s: Cell): real
  {
    SumKey(SubjectItems(d2), [s])
  }

  datatype WeightRow = WeightRow(subject: Cell, concept: Cell, conceptWeight: real)

  function WeightKeys(r: seq<WeightRow>): set<Key>
  {
    set w | w in r :: [w.subject, w.concept]
  }

  /** getConceptWeight: one row per (subject, concept) of the rows that
      survive the exclusions, ascending, weighing the concept's
      meanQsPerConcept against its subject's total; every weight lies in
      (0, 1]. */
  function ConceptWeight(df: seq<Answer>): (r: seq<WeightRow>)
    ensures var d2 := MeanQsPerConcept(Excluded(df));
            && |r| == |d2|
            && forall i {:trigger r[i]} :: 0 <= i < |r| ==>
                 && [r[i].subject, r[i].concept] == d2[i].key
                 && SubjectTotal(d2, r[i].subject) > 0.0
                 && r[i].conceptWeight == d2[i].mean / SubjectTotal(d2, r[i].subject)
    ensures forall i, j :: 0 <= i < j < |r| ==> KeyLess([r[i].subject, r[i].concept], [r[j].subject, r[j].concept])
    ensures WeightKeys(r) == RowKeys(Excluded(df), [Subject, Concept])
    ensures forall w :: w in r ==> 0.0 < w.conceptWeight <= 1.0
  {
    var d0 := Excluded(df);
    var d2 := MeanQsPerConcept(d0);
    var d3 := Aggregate(SubjectItems(d2));
    WeightFacts(d0);
    var r := seq(|d2|, i requires 0 <= i < |d2| =>
      WeightRow(KeyAt(d2[i].key, 0), KeyAt(d2[i].key, 1), d2[i].mean / SubjectTotal(d2, KeyAt(d2[i].key, 0))));
    WeightRowsCorrect(d2, r);
    ConceptKeys(d0);
    r
  }

  /** Every d1 question count is at least 1, so every meanQsPerConcept is at
      least 1 and each subject's total is at least each of its means. */
  lemma {:induction false} WeightFacts(d0: seq<Answer>)
    ensures var d2 := MeanQsPerConcept(d0);
            forall i :: 0 <= i < |d2| ==>
              && |d2[i].key| == 2
              && 1.0 <= d2[i].mean <= SubjectTotal(d2, KeyAt(d2[i].key, 0))
  {
    var d1 := QuestionsPerConcept(d0);
    ConceptItemsAtLeastOne(d1);
    MeansAtLeastOne(ConceptItems(d1));
    KeysArePairs(d1);
    MeanBelowTotal(Aggregate(ConceptItems(d1)));
  }

  lemma {:induction false} ConceptItemsAtLeastOne(d1: seq<Group>)
    requires forall g :: g in d1 ==> g.size > 0
    ensures forall i :: 0 <= i < |ConceptItems(d1)| ==> 1.0 <= ConceptItems(d1)[i].value
  {
    forall i | 0 <= i < |d1| ensures 1.0 <= ConceptItems(d1)[i].value {
      assert d1[i] in d1;
    }
  }

  lemma {:induction false} MeansAtLeastOne(items: seq<Item>)
    requires forall i :: 0 <= i < |items| ==> 1.0 <= items[i].value
    ensures forall i :: 0 <= i < |Aggregate(items)| ==> 1.0 <= Aggregate(items)[i].mean
  {
    var gs := Aggregate(items);
    forall i | 0 <= i < |gs| ensures 1.0 <= gs[i].mean {
      assert gs[i] in gs;
      SumKeyAtLeastCount(items, gs[i].key);
      MeanAtLeastOne(gs[i].sum, gs[i].size);
    }
  }

  lemma {:induction false} KeysArePairs(d1: seq<Group>)
    ensures forall i :: 0 <= i < |Aggregate(ConceptItems(d1))| ==> |Aggregate(ConceptItems(d1))[i].key| == 2
  {
    var items := ConceptItems(d1);
    var gs := Aggregate(items);
    forall i | 0 <= i < |gs| ensures |gs[i].key| == 2 {
      assert gs[i] in gs;
      assert gs[i].key in KeySet(gs);
      var j :| 0 <= j < |items| && items[j].key == gs[i].key;
    }
  }

  lemma {:induction false} MeanBelowTotal(d2: seq<Group>)
    requires forall i :: 0 <= i < |d2| ==> 1.0 <= d2[i].mean
    ensures forall i :: 0 <= i < |d2| ==> d2[i].mean <= SubjectTotal(d2, KeyAt(d2[i].key, 0))
  {
    var items := SubjectItems(d2);
    forall i | 0 <= i < |d2| ensures d2[i].mean <= SubjectTotal(d2, KeyAt(d2[i].key, 0)) {
      SumKeyAtLeastItem(items, i);
    }
  }

  lemma {:induction false} MeanAtLeastOne(sum: real, size: nat)
    requires 0 < size && size as real <= sum
    ensures 1.0 <= sum / size as real
  {
    assert sum / size as real * size as real == sum;
  }

  lemma {:induction false} WeightRowsCorrect(d2: seq<Group>, r: seq<WeightRow>)
    requires Ascending(d2)
    requires forall i :: 0 <= i < |d2| ==> |d2[i].key| == 2 && 1.0 <= d2[i].mean <= SubjectTotal(d2, KeyAt(d2[i].key, 0))
    requires |r| == |d2|
    requires forall i :: 0 <= i < |d2| ==>
               r[i] == WeightRow(KeyAt(d2[i].key, 0), KeyAt(d2[i].key, 1), d2[i].mean / SubjectTotal(d2, KeyAt(d2[i].key, 0)))
    ensures forall i {:trigger r[i]} :: 0 <= i < |r| ==>
              && [r[i].subject, r[i].concept] == d2[i].key
              && SubjectTotal(d2, r[i].subject) > 0.0
              && r[i].conceptWeight == d2[i].mean / SubjectTotal(d2, r[i].subject)
    ensures forall i, j :: 0 <= i < j < |r| ==> KeyLess([r[i].subject, r[i].concept], [r[j].subject, r[j].concept])
    ensures WeightKeys(r) == KeySet(d2)
    ensures forall w :: w in r ==> 0.0 < w.conceptWeight <= 1.0
  {
    forall i | 0 <= i < |r| ensures [r[i].subject, r[i].concept] == d2[i].key {
      var k := d2[i].key;
      assert |k| == 2;
      assert [KeyAt(k, 0), KeyAt(k, 1)] == [k[0], k[1]] == k;
    }
    forall w | w in r ensures 0.0 < w.conceptWeight <= 1.0 {
      var i :| 0 <= i < |r| && r[i] == w;
      FractionUpToOne(d2[i].mean, SubjectTotal(d2, KeyAt(d2[i].key, 0)));
    }
    forall k | k in KeySet(d2) ensures k in WeightKeys(r) {
      var g :| g in d2 && g.key == k;
      var i :| 0 <= i < |d2| && d2[i] == g;
      assert [r[i].subject, r[i].concept] == k;
    }
  }

  lemma {:induction false} FractionUpToOne(part: real, whole: real)
    requires 0.0 < part <= whole
    ensures 0.0 < part / whole <= 1.0
  {
    assert part / whole * whole == part;
  }

  /** The (subject, concept) pairs of d2 are those of the rows. */
  lemma {:induction false} ConceptKeys(d0: seq<Answer>)
    ensures KeySet(MeanQsPerConcept(d0)) == RowKeys(d0, [Subject, Concept])
  {
    ConceptKeysCover(d0);
    ConceptKeysFromRows(d0);
  }

  lemma {:induction false} ConceptKeysCover(d0: seq<Answer>)
    ensures RowKeys(d0, [Subject, Concept]) <= ItemKeys(ConceptItems(QuestionsPerConcept(d0)))
  {
    var d1 := QuestionsPerConcept(d0);
    var items1 := ConceptItems(d1);
    CorrectItemsKeys(d0, PerStudentTest);
    forall k | k in RowKeys(d0, [Subject, Concept]) ensures k in ItemKeys(items1) {
      var a :| a in d0 && Project(a, [Subject, Concept]) == k;
      var full := Project(a, PerStudentTest);
      assert full in RowKeys(d0, PerStudentTest);
      assert SubjectConceptOf(full) == k;
      NarrowedKeyCovered(d1, items1, full);
    }
  }

  /** The (subject, concept) part of a key of d1 is a key of its items. */
  lemma {:induction false} NarrowedKeyCovered(d1: seq<Group>, items1: seq<Item>, full: Key)
    requires full in KeySet(d1)
    requires |items1| == |d1| && forall i :: 0 <= i < |d1| ==> items1[i].key == SubjectConceptOf(d1[i].key)
    ensures SubjectConceptOf(full) in ItemKeys(items1)
  {
    var g :| g in d1 && g.key == full;
    var i :| 0 <= i < |d1| && d1[i] == g;
    assert items1[i].key == SubjectConceptOf(full);
  }

  lemma {:induction false} ConceptKeysFromRows(d0: seq<Answer>)
    ensures ItemKeys(ConceptItems(QuestionsPerConcept(d0))) <= RowKeys(d0, [Subject, Concept])
  {
    var d1 := QuestionsPerConcept(d0);
    var items1 := ConceptItems(d1);
    CorrectItemsKeys(d0, PerStudentTest);
    forall k | k in ItemKeys(items1) ensures k in RowKeys(d0, [Subject, Concept]) {
      var i :| 0 <= i < |items1| && items1[i].key == k;
      assert d1[i] in d1;
      SubjectConceptOfRow(d0, d1[i].key);
    }
  }

  /** Narrowing a row's (firstName, testID, subject, concept) key to its
      (subject, concept) part gives that row's (subject, concept) key. */
  lemma {:induction false} SubjectConceptOfRow(d0: seq<Answer>, k: Key)
    requires k in RowKeys(d0, PerStudentTest)
    ensures SubjectConceptOf(k) in RowKeys(d0, [Subject, Concept])
  {
    var a :| a in d0 && Project(a, PerStudentTest) == k;
    assert Project(a, [Subject, Concept]) == SubjectConceptOf(k);
  }

  /** Sum of the weights of subject `s`. */
  function WeightSum(r: seq<WeightRow>, s: Cell): real
  {
    if r == [] then 0.0
    else WeightSum(r[..|r| - 1], s) + (if r[|r| - 1].subject == s then r[|r| - 1].conceptWeight else 0.0)
  }

  /** Within every subject that appears, the concept weights add up to 1. */
  lemma {:induction false} WeightsSumToOne(df: seq<Answer>, s: Cell)
    requires exists w :: w in ConceptWeight(df) && w.subject == s
    ensures WeightSum(ConceptWeight(df), s) == 1.0
  {
    SubjectSharesSumToOne(ConceptWeight(df), MeanQsPerConcept(Excluded(df)), s);
  }

  lemma {:induction false} SubjectSharesSumToOne(r: seq<WeightRow>, d2: seq<Group>, s: Cell)
    requires |r| == |d2| && exists w :: w in r && w.subject == s
    requires forall i {:trigger r[i]} :: 0 <= i < |r| ==>
               && [r[i].subject, r[i].concept] == d2[i].key
               && SubjectTotal(d2, r[i].subject) > 0.0
               && r[i].conceptWeight == d2[i].mean / SubjectTotal(d2, r[i].subject)
    ensures WeightSum(r, s) == 1.0
  {
    var w :| w in r && w.subject == s;
    var i :| 0 <= i < |r| && r[i] == w;
    WeightsAreShares(r, d2);
    SharesSumToOne(r, SubjectItems(d2), s, i);
  }

  lemma {:induction false} SharesSumToOne(r: seq<WeightRow>, items: seq<Item>, s: Cell, i: nat)
    requires |items| == |r| && i < |r| && r[i].subject == s
    requires forall j :: 0 <= j < |r| ==> items[j].key == [r[j].subject]
    requires forall j :: 0 <= j < |r| && r[j].subject == s ==>
               && SumKey(items, [s]) > 0.0
               && r[j].conceptWeight == items[j].value / SumKey(items, [s])
    ensures WeightSum(r, s) == 1.0
  {
    var total := SumKey(items, [s]);
    SharesSum(r, items, s, total, |r|);
    assert r[..|r|] == r;
    assert items[..|items|] == items;
    DivSelf(total);
  }

  /** Weights built as shares of their subject's total are, item by item,
      shares of the subject items. */
  lemma {:induction false} WeightsAreShares(r: seq<WeightRow>, d2: seq<Group>)
    requires |r| == |d2|
    requires forall i {:trigger r[i]} :: 0 <= i < |r| ==>
               && [r[i].subject, r[i].concept] == d2[i].key
               && SubjectTotal(d2, r[i].subject) > 0.0
               && r[i].conceptWeight == d2[i].mean / SubjectTotal(d2, r[i].subject)
    ensures var items := SubjectItems(d2);
            && |items| == |r|
            && (forall j :: 0 <= j < |r| ==> items[j].key == [r[j].subject] && items[j].value == d2[j].mean)
            && forall j :: 0 <= j < |r| ==>
                 && SumKey(items, [r[j].subject]) > 0.0
                 && r[j].conceptWeight == items[j].value / SumKey(items, [r[j].subject])
  {
    forall j | 0 <= j < |r| ensures SubjectItems(d2)[j].key == [r[j].subject] {
      assert [r[j].subject, r[j].concept] == d2[j].key;
    }
  }

  lemma {:induction false} SharesSum(r: seq<WeightRow>, items: seq<Item>, s: Cell, total: real, n: nat)
    requires total > 0.0 && n <= |r| == |items|
    requires forall j :: 0 <= j < |r| ==> items[j].key == [r[j].subject]
    requires forall j :: 0 <= j < |r| && r[j].subject == s ==> r[j].conceptWeight == items[j].value / total
    ensures WeightSum(r[..n], s) == SumKey(items[..n], [s]) / total
  {
    if n > 0 {
      SharesSum(r, items, s, total, n - 1);
      assert r[..n][..n - 1] == r[..n - 1];
      assert items[..n][..n - 1] == items[..n - 1];
      var hit := r[n - 1].subject == s;
      assert items[n - 1].key == [s] <==> hit;
      assert WeightSum(r[..n], s) == WeightSum(r[..n - 1], s) + (if hit then r[n - 1].conceptWeight else 0.0);
      assert SumKey(items[..n], [s]) == SumKey(items[..n - 1], [s]) + (if hit then items[n - 1].value else 0.0);
      ShareStep(WeightSum(r[..n - 1], s), SumKey(items[..n - 1], [s]), total, r[n - 1].conceptWeight, items[n - 1].value, hit);
    }
  }

  lemma {:induction false} ShareStep(ws: real, a: real, total: real, w: real, x: real, hit: bool)
    requires total > 0.0 && ws == a / total && (hit ==> w == x / total)
    ensures ws + (if hit then w else 0.0) == (a + (if hit then x else 0.0)) / total
  {
    if hit {
      assert (a + x) / total == a / total + x / total;
    }
  }

  /** A subject with a single concept gives that concept weight 1. */
  lemma {:induction false} SingleConceptWeighsOne(df: seq<Answer>, i: nat)
    requires i < |ConceptWeight(df)|
    requires forall j :: 0 <= j < |ConceptWeight(df)| && j != i ==> ConceptWeight(df)[j].subject != ConceptWeight(df)[i].subject
    ensures ConceptWeight(df)[i].conceptWeight == 1.0
  {
    var r := ConceptWeight(df);
    var d2 := MeanQsPerConcept(Excluded(df));
    var items := SubjectItems(d2);
    WeightsAreShares(r, d2);
    OnlyRowOfSubject(r, items, i);
    WholeShare(r[i].conceptWeight, items[i].value, SumKey(items, [r[i].subject]));
  }

  lemma {:induction false} OnlyRowOfSubject(r: seq<WeightRow>, items: seq<Item>, i: nat)
    requires |items| == |r| && i < |r|
    requires forall j :: 0 <= j < |r| ==> items[j].key == [r[j].subject]
    requires forall j :: 0 <= j < |r| && j != i ==> r[j].subject != r[i].subject
    ensures SumKey(items, [r[i].subject]) == items[i].value
  {
    assert forall j :: 0 <= j < |items| && j != i ==> items[j].key != items[i].key;
    SumKeyOnly(items, i);
  }

  lemma {:induction false} WholeShare(w: real, part: real, total: real)
    requires total > 0.0 && part == total && w == part / total
    ensures w == 1.0
  {
  }

  // ---------------------------------------------------------------------
  // meanQsPerConcept

  function IsConcept(key: Key): Key -> bool
  {
    k => SubjectConceptOf(k) == key
  }

  /** meanQsPerConcept is the number of rows with that (subject, concept)
      divided by the number of (firstName, testID) groups that have it: the
      mean question count per (student, test). */
  lemma {:induction false} MeanQsCountsRows(d0: seq<Answer>)
    ensures forall g :: g in MeanQsPerConcept(d0) ==>
              && g.size == CountKey(ConceptItems(QuestionsPerConcept(d0)), g.key)
              && g.sum == Asked(d0, [Subject, Concept], g.key) as real
              && g.mean == Asked(d0, [Subject, Concept], g.key) as real / g.size as real
  {
    forall g | g in MeanQsPerConcept(d0)
      ensures g.sum == Asked(d0, [Subject, Concept], g.key) as real
    {
      ConceptSum(d0, g.key);
    }
  }

  lemma {:induction false} ConceptSum(d0: seq<Answer>, key: Key)
    ensures SumKey(ConceptItems(QuestionsPerConcept(d0)), key) == Asked(d0, [Subject, Concept], key) as real
  {
    SizesAsSum(QuestionsPerConcept(d0), key);
    AggregateSizesWhere(CorrectItems(d0, PerStudentTest), IsConcept(key));
    ConceptRows(d0, key);
  }

  lemma {:induction false} DivSelf(x: real)
    requires x != 0.0
    ensures x / x == 1.0
  {
  }

  lemma {:induction false} SizesAsSum(d1: seq<Group>, key: Key)
    ensures SumKey(ConceptItems(d1), key) == SizesWhere(d1, IsConcept(key)) as real
  {
    if d1 != [] {
      SizesAsSum(d1[1..], key);
      var x := ConceptItems(d1)[0];
      assert ConceptItems(d1) == [x] + ConceptItems(d1[1..]);
      SumKeyConcat([x], ConceptItems(d1[1..]), key);
      assert [x][..0] == [];
    }
  }

  lemma {:induction false} ConceptRows(d0: seq<Answer>, key: Key)
    ensures CountWhere(CorrectItems(d0, PerStudentTest), IsConcept(key)) == Asked(d0, [Subject, Concept], key)
  {
    if d0 != [] {
      var init := d0[..|d0| - 1];
      ConceptRows(init, key);
      var items := CorrectItems(d0, PerStudentTest);
      assert items[..|items| - 1] == CorrectItems(init, PerStudentTest);
      assert SubjectConceptOf(items[|items| - 1].key) == Project(d0[|d0| - 1], [Subject, Concept]);
    }
  }
}
