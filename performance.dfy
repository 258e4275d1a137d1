/** Per-key performance rows: `getPerfByStudent` (yleana_util.py), which keeps
    the exact mean and adds a passing flag, and `getPerfByColumns`
    (score_report.py), built on score_report's own `groupData`, which rounds
    the mean to two decimals. */
module Performance {
  import opened Cells
  import opened Aggregator
  import opened Answers

  /** A row of `getPerfByStudent`: the key columns, then numQuestions,
      numCorrect, score (the exact mean), wrong and passing. */
  datatype PerfRow = PerfRow(key: Key, numQuestions: nat, numCorrect: real, score: real, wrong: real, passing: Bit)

  function ToPerf(g: Group, passingThreshold: real): PerfRow
  {
    PerfRow(g.key, g.size, g.sum, g.mean, g.size as real - g.sum, if g.mean >= passingThreshold then 1 else 0)
  }

  lemma {:induction false} CorrectItemsCountAll(df: seq<Answer>, cols: seq<Column>)
    ensures forall k :: CountKey(CorrectItems(df, cols), k) == Asked(df, cols, k)
    ensures forall k :: SumKey(CorrectItems(df, cols), k) == Right(df, cols, k) as real
    ensures forall k :: Asked(df, cols, k) == Right(df, cols, k) + Missed(df, cols, k)
    ensures ItemKeys(CorrectItems(df, cols)) == RowKeys(df, cols)
  {
    forall k ensures CountKey(CorrectItems(df, cols), k) == Asked(df, cols, k)
      && SumKey(CorrectItems(df, cols), k) == Right(df, cols, k) as real
      && Asked(df, cols, k) == Right(df, cols, k) + Missed(df, cols, k)
    {
      CorrectItemsCount(df, cols, k);
    }
    CorrectItemsKeys(df, cols);
  }

  function PerfKeys(r: seq<PerfRow>): set<Key>
  {
    set p | p in r :: p.key
  }

  /** getPerfByStudent: one row per key of `df` under `columns`, in ascending
      key order, counting that key's questions, right and wrong answers; the
      score is the fraction right and `passing` is 1 exactly when the score
      reaches the threshold. */
  function PerfByStudent(df: seq<Answer>, cols: seq<Column>, passingThreshold: real): (r: seq<PerfRow>)
    ensures forall i, j :: 0 <= i < j < |r| ==> KeyLess(r[i].key, r[j].key)
    ensures PerfKeys(r) == RowKeys(df, cols)
    ensures forall p :: p in r ==>
              && p.numQuestions == Asked(df, cols, p.key) > 0
              && p.numCorrect == Right(df, cols, p.key) as real
              && p.wrong == Missed(df, cols, p.key) as real
              && 0.0 <= p.wrong <= p.numQuestions as real
              && p.score == p.numCorrect / p.numQuestions as real
              && (p.passing == 1 <==> p.score >= passingThreshold)
  {
    var gs := Aggregate(CorrectItems(df, cols));
    CorrectItemsCountAll(df, cols);
    var r := PerfRows(gs, passingThreshold);
    PerfRowsFacts(df, cols, passingThreshold, gs, r);
    r
  }

  /** The rows built from ascending groups that count `df`'s answers per key
      are the rows getPerfByStudent promises. */
  lemma {:induction false} PerfRowsFacts(df: seq<Answer>, cols: seq<Column>, passingThreshold: real, gs: seq<Group>, r: seq<PerfRow>)
    requires Ascending(gs) && KeySet(gs) == RowKeys(df, cols)
    requires forall g :: g in gs ==>
               && g.size == Asked(df, cols, g.key) > 0
               && g.sum == Right(df, cols, g.key) as real
               && g.mean == g.sum / g.size as real
    requires forall k :: Asked(df, cols, k) == Right(df, cols, k) + Missed(df, cols, k)
    requires |r| == |gs| && forall i :: 0 <= i < |gs| ==> r[i] == ToPerf(gs[i], passingThreshold)
    ensures forall i, j :: 0 <= i < j < |r| ==> KeyLess(r[i].key, r[j].key)
    ensures PerfKeys(r) == RowKeys(df, cols)
    ensures forall p :: p in r ==>
              && p.numQuestions == Asked(df, cols, p.key) > 0
              && p.numCorrect == Right(df, cols, p.key) as real
              && p.wrong == Missed(df, cols, p.key) as real
              && 0.0 <= p.wrong <= p.numQuestions as real
              && p.score == p.numCorrect / p.numQuestions as real
              && (p.passing == 1 <==> p.score >= passingThreshold)
  {
    assert forall i :: 0 <= i < |gs| ==> gs[i] in gs;
    assert PerfKeys(r) == KeySet(gs) by {
      forall k | k in KeySet(gs) ensures k in PerfKeys(r) {
        var i :| 0 <= i < |gs| && gs[i].key == k;
        assert r[i].key == k;
      }
    }
  }

  function PerfRows(gs: seq<Group>, passingThreshold: real): (r: seq<PerfRow>)
    ensures |r| == |gs|
    ensures forall i :: 0 <= i < |gs| ==> r[i] == ToPerf(gs[i], passingThreshold)
  {
    seq(|gs|, i requires 0 <= i < |gs| => ToPerf(gs[i], passingThreshold))
  }

  /** The row-by-row form of getPerfByStudent: the grouped rows get
      `passing = 0`, then the rows whose score reaches the threshold are
      overwritten with 1. */
  method GetPerfByStudent(df: seq<Answer>, cols: seq<Column>, passingThreshold: real) returns (perf: seq<PerfRow>)
    ensures perf == PerfByStudent(df, cols, passingThreshold)
  {
    perf := PassingRows(Aggregate(CorrectItems(df, cols)), passingThreshold);
  }

  /** The two passes of getPerfByStudent over the grouped rows. */
  method PassingRows(groups: seq<Group>, passingThreshold: real) returns (perf: seq<PerfRow>)
    ensures perf == PerfRows(groups, passingThreshold)
  {
    perf := [];
    var i := 0;
    while i < |groups|
      invariant 0 <= i <= |groups|
      invariant |perf| == i
      invariant forall j :: 0 <= j < i ==> perf[j] == ToPerf(groups[j], passingThreshold).(passing := 0)
    {
      var g := groups[i];
      perf := perf + [PerfRow(g.key, g.size, g.sum, g.mean, g.size as real - g.sum, 0)];
      i := i + 1;
    }
    i := 0;
    while i < |perf|
      invariant 0 <= i <= |perf| == |groups|
      invariant forall j :: 0 <= j < i ==> perf[j] == ToPerf(groups[j], passingThreshold)
      invariant forall j :: i <= j < |perf| ==> perf[j] == ToPerf(groups[j], passingThreshold).(passing := 0)
    {
      if perf[i].score >= passingThreshold {
        perf := perf[i := perf[i].(passing := 1)];
      }
      i := i + 1;
    }
    assert perf == PerfRows(groups, passingThreshold);
  }

  /** numpy's `round(x, 2)` on an exact value: to the nearest hundredth,
      halves to the even hundredth. */
  function Round2(x: real): (r: real)
    ensures -0.005 <= r - x <= 0.005
    ensures (r * 100.0).Floor as real == r * 100.0
    ensures 0.0 <= x ==> 0.0 <= r
    ensures x <= 1.0 ==> r <= 1.0
  {
    var f := (x * 100.0).Floor;
    var frac := x * 100.0 - f as real;
    var n := if frac < 0.5 then f
             else if frac > 0.5 then f + 1
             else if f % 2 == 0 then f else f + 1;
    Hundredths(x, f, n);
    n as real / 100.0
  }

  lemma {:induction false} Hundredths(x: real, f: int, n: int)
    requires f == (x * 100.0).Floor
    requires n == f || n == f + 1
    requires n == f ==> x * 100.0 - f as real <= 0.5
    requires n == f + 1 ==> x * 100.0 - f as real >= 0.5
    ensures -0.005 <= n as real / 100.0 - x <= 0.005
    ensures (n as real / 100.0 * 100.0).Floor as real == n as real / 100.0 * 100.0
    ensures 0.0 <= x ==> 0.0 <= n as real / 100.0
    ensures x <= 1.0 ==> n as real / 100.0 <= 1.0
  {
    var y := x * 100.0;
    assert f as real <= y < f as real + 1.0;
    assert n as real / 100.0 * 100.0 == n as real;
    assert n as real / 100.0 - x == (n as real - y) / 100.0;
  }

  /** score_report.py's `groupData`: one group per distinct key, in
      ascending key order, with the key's count and sum, and the mean rounded
      to two decimals. */
  function GroupDataRounded(items: seq<Item>): (r: seq<Group>)
    ensures Ascending(r)
    ensures KeySet(r) == ItemKeys(items)
    ensures forall g :: g in r ==>
              && g.size == CountKey(items, g.key) > 0
              && g.sum == SumKey(items, g.key)
              && g.mean == Round2(g.sum / g.size as real)
  {
    var gs := Aggregate(items);
    var r := seq(|gs|, i requires 0 <= i < |gs| => gs[i].(mean := Round2(gs[i].mean)));
    RoundedGroups(items, gs, r);
    r
  }

  /** Rounding each group's mean keeps the groups' keys, order and counts. */
  lemma {:induction false} RoundedGroups(items: seq<Item>, gs: seq<Group>, r: seq<Group>)
    requires Ascending(gs) && KeySet(gs) == ItemKeys(items)
    requires forall g :: g in gs ==>
               && g.size == CountKey(items, g.key) > 0
               && g.sum == SumKey(items, g.key)
               && g.mean == g.sum / g.size as real
    requires |r| == |gs| && forall i :: 0 <= i < |gs| ==> r[i] == gs[i].(mean := Round2(gs[i].mean))
    ensures Ascending(r)
    ensures KeySet(r) == ItemKeys(items)
    ensures forall g :: g in r ==>
              && g.size == CountKey(items, g.key) > 0
              && g.sum == SumKey(items, g.key)
              && g.mean == Round2(g.sum / g.size as real)
  {
    forall k | k in KeySet(gs) ensures k in KeySet(r) {
      var i :| 0 <= i < |gs| && gs[i].key == k;
      assert r[i] in r;
    }
    forall g | g in r
      ensures g.key in KeySet(gs)
      ensures g.size == CountKey(items, g.key) > 0
      ensures g.sum == SumKey(items, g.key)
      ensures g.mean == Round2(g.sum / g.size as real)
    {
      var i :| 0 <= i < |r| && r[i] == g;
      assert gs[i] in gs;
    }
  }

  /** A row of `getPerfByColumns`: key columns, numQuestions, numCorrect,
      score (rounded mean) and wrong. */
  datatype ScoreRow = ScoreRow(key: Key, numQuestions: nat, numCorrect: real, score: real, wrong: real)

  function ScoreKeys(r: seq<ScoreRow>): set<Key>
  {
    set p | p in r :: p.key
  }

  function ToScore(g: Group): ScoreRow
  {
    ScoreRow(g.key, g.size, g.sum, g.mean, g.size as real - g.sum)
  }

  /** getPerfByColumns: one row per key of `df`, ascending, counting that key's
      questions, right and wrong answers, with the fraction right rounded to
      two decimals. */
  function PerfByColumns(df: seq<Answer>, cols: seq<Column>): (r: seq<ScoreRow>)
    ensures forall i, j :: 0 <= i < j < |r| ==> KeyLess(r[i].key, r[j].key)
    ensures ScoreKeys(r) == RowKeys(df, cols)
    ensures forall p :: p in r ==> ScoreRowOf(df, cols, p)
  {
    var gs := GroupDataRounded(CorrectItems(df, cols));
    var r := seq(|gs|, i requires 0 <= i < |gs| => ToScore(gs[i]));
    PerfByColumnsCorrect(df, cols, r);
    r
  }

  /** What a row of getPerfByColumns says about `df`. */
  ghost predicate ScoreRowOf(df: seq<Answer>, cols: seq<Column>, p: ScoreRow)
  {
    && p.numQuestions == Asked(df, cols, p.key) > 0
    && p.numCorrect == Right(df, cols, p.key) as real
    && p.wrong == Missed(df, cols, p.key) as real
    && 0.0 <= p.wrong <= p.numQuestions as real
    && p.score == Round2(p.numCorrect / p.numQuestions as real)
    && 0.0 <= p.score <= 1.0
  }

  lemma {:induction false} PerfByColumnsCorrect(df: seq<Answer>, cols: seq<Column>, r: seq<ScoreRow>)
    requires var gs := GroupDataRounded(CorrectItems(df, cols));
             r == seq(|gs|, i requires 0 <= i < |gs| => ToScore(gs[i]))
    ensures forall i, j :: 0 <= i < j < |r| ==> KeyLess(r[i].key, r[j].key)
    ensures ScoreKeys(r) == RowKeys(df, cols)
    ensures forall p :: p in r ==> ScoreRowOf(df, cols, p)
  {
    var gs := GroupDataRounded(CorrectItems(df, cols));
    CorrectItemsCountAll(df, cols);
    ScoresKeys(gs, r);
    forall p | p in r ensures ScoreRowOf(df, cols, p) {
      var i :| 0 <= i < |r| && r[i] == p;
      assert gs[i] in gs;
      FractionInUnit(Right(df, cols, p.key), Asked(df, cols, p.key));
    }
  }

  /** Rows built group by group have the groups' keys. */
  lemma {:induction false} ScoresKeys(ex: seq<Group>, r: seq<ScoreRow>)
    requires |r| == |ex|
    requires forall i :: 0 <= i < |ex| ==> r[i].key == ex[i].key
    ensures ScoreKeys(r) == KeySet(ex)
  {
    forall k | k in KeySet(ex) ensures k in ScoreKeys(r) {
      var i :| 0 <= i < |ex| && ex[i].key == k;
      assert r[i] in r;
    }
    forall k | k in ScoreKeys(r) ensures k in KeySet(ex) {
      var i :| 0 <= i < |r| && r[i].key == k;
      assert ex[i] in ex;
    }
  }

  lemma {:induction false} FractionInUnit(part: nat, whole: nat)
    requires 0 < whole && part <= whole
    ensures 0.0 <= part as real / whole as real <= 1.0
  {
    assert part as real / whole as real * whole as real == part as real;
  }
}
