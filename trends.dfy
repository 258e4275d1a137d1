/** getTrendsOverTime (yleana_util.py): the average score per subject and
    test number over a series of tests, the test number being one character
    of the testID. */
module Trends {
  import opened Cells
  import opened Aggregator
  import opened Answers
  import opened Sorting

  /** Where the test number sits in a testID: the last character of an "OL"
      test, the fourth of a "PP_SAT" test. Any other series leaves the
      position unset, and the function fails when it reads it. */
  function SequencePos(testString: string): (r: Option<int>)
    ensures r.Some? <==> testString == "OL" || testString == "PP_SAT"
    ensures testString == "OL" ==> r == Some(-1)
    ensures testString == "PP_SAT" ==> r == Some(3)
  {
    if testString == "OL" then Some(-1)
    else if testString == "PP_SAT" then Some(3)
    else None
  }

  /** pandas' `Series.str[pos]` on one string: Python indexing (negative
      positions count from the end), NaN (`Missing`) out of range. */
  function CharAt(s: string, pos: int): (r: Cell)
    ensures r != Missing <==> -|s| <= pos < |s|
    ensures 0 <= pos < |s| ==> r == Str([s[pos]])
    ensures -|s| <= pos < 0 ==> r == Str([s[|s| + pos]])
  {
    if 0 <= pos < |s| then Str([s[pos]])
    else if -|s| <= pos < 0 then Str([s[|s| + pos]])
    else Missing
  }

  /** `df[df.testID.str.contains(testString)]`. */
  function InSeries(df: seq<Answer>, testString: string): (r: seq<Answer>)
    ensures forall a :: a in r <==> a in df && Contains(a.testID, testString)
  {
    Filter(df, (a: Answer) => Contains(a.testID, testString))
  }

  /** `ol[['subject', 'testNum', 'correct']]`, each row as (key, correct). */
  function TrendItems(ol: seq<Answer>, pos: int): (r: seq<Item>)
    ensures |r| == |ol|
    ensures forall i :: 0 <= i < |ol| ==> r[i] == Item([Str(ol[i].subject), CharAt(ol[i].testID, pos)], ol[i].correct as real)
  {
    seq(|ol|, i requires 0 <= i < |ol| => Item([Str(ol[i].subject), CharAt(ol[i].testID, pos)], ol[i].correct as real))
  }

  /** A testID of the series is long enough to hold its test number. */
  lemma {:induction false} TestNumPresent(testID: string, testString: string)
    requires Contains(testID, testString)
    requires SequencePos(testString).Some?
    ensures CharAt(testID, SequencePos(testString).value) != Missing
  {
    ContainsIsLonger(testID, testString);
  }

  /** getTrendsOverTime with the default columns ['subject', 'testNum']:
      `None` for a series other than "OL" and "PP_SAT" (the unset position
      raises); otherwise one group per (subject, test number) of the
      series rows, in ascending order, each with the number of series rows
      of that key and the fraction of them answered correctly, every test
      number present, and no row of the series lost. */
  function TrendsOverTime(df: seq<Answer>, testString: string): (r: Option<seq<Group>>)
    ensures r.None? <==> testString != "OL" && testString != "PP_SAT"
    ensures r.Some? ==>
              var items := TrendItems(InSeries(df, testString), SequencePos(testString).value);
              && Ascending(r.value)
              && KeySet(r.value) == ItemKeys(items)
              && SizeTotal(r.value) == |InSeries(df, testString)|
              && forall g :: g in r.value ==>
                   && g.size == CountKey(items, g.key) > 0
                   && g.mean == SumKey(items, g.key) / g.size as real
                   && (exists a :: a in df && Contains(a.testID, testString)
                        && g.key == [Str(a.subject), CharAt(a.testID, SequencePos(testString).value)])
                   && KeyAt(g.key, 1) != Missing
                   && 0.0 <= g.mean <= 1.0
  {
    match SequencePos(testString)
    case None => None
    case Some(pos) =>
      var ol := InSeries(df, testString);
      var items := TrendItems(ol, pos);
      var gs := Aggregate(items);
      SizesSumToRowCount(items);
      TrendGroups(df, testString, pos, ol, items, gs);
      Some(gs)
  }

  lemma {:induction false} TrendGroups(df: seq<Answer>, testString: string, pos: int, ol: seq<Answer>, items: seq<Item>, gs: seq<Group>)
    requires SequencePos(testString) == Some(pos)
    requires forall a :: a in ol <==> a in df && Contains(a.testID, testString)
    requires |items| == |ol|
    requires forall i :: 0 <= i < |ol| ==> items[i] == Item([Str(ol[i].subject), CharAt(ol[i].testID, pos)], ol[i].correct as real)
    requires KeySet(gs) == ItemKeys(items)
    requires forall g :: g in gs ==> g.size == CountKey(items, g.key) > 0 && g.sum == SumKey(items, g.key) && g.mean == g.sum / g.size as real
    ensures forall g :: g in gs ==>
              && (exists a :: a in df && Contains(a.testID, testString) && g.key == [Str(a.subject), CharAt(a.testID, pos)])
              && KeyAt(g.key, 1) != Missing
              && 0.0 <= g.mean <= 1.0
  {
    forall g | g in gs
      ensures exists a :: a in df && Contains(a.testID, testString) && g.key == [Str(a.subject), CharAt(a.testID, pos)]
      ensures KeyAt(g.key, 1) != Missing
      ensures 0.0 <= g.mean <= 1.0
    {
      assert g.key in ItemKeys(items);
      var i :| 0 <= i < |items| && items[i].key == g.key;
      assert ol[i] in ol;
      TestNumPresent(ol[i].testID, testString);
      SumKeyInUnit(items, g.key);
      UnitMean(g.sum, g.size);
    }
  }

  lemma {:induction false} UnitMean(sum: real, size: nat)
    requires 0 < size && 0.0 <= sum <= size as real
    ensures 0.0 <= sum / size as real <= 1.0
  {
    assert sum / size as real * size as real == sum;
  }
}
