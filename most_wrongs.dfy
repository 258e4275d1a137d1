/** getMostWrongs and groupConcepts (yleana_util.py): per (subject, concept,
    student) counts of right and wrong answers, each row joined with the
    mean number of concepts of its concept's questions, most wrong first. */
module MostWrongs {
  import opened Cells
  import opened Aggregator
  import opened Answers
  import opened Sorting

  /** Python truthiness of the subject argument: `None` and "" select every
      subject. */
  predicate Truthy(subject: Option<string>)
  {
    subject.Some? && subject.value != ""
  }

  function SubjectRows(df: seq<Answer>, subject: Option<string>): (r: seq<Answer>)
    ensures forall a :: a in r <==> a in df && (Truthy(subject) ==> a.subject == subject.value)
  {
    if Truthy(subject) then ForSubject(df, subject.value) else df
  }

  const StatsCols: seq<Column> := [Subject, Concept, FirstName]

  /** `df[['concept', 'numConcepts']]`, each row as (key, numConcepts). */
  function NumConceptItems(df: seq<Answer>): (r: seq<Item>)
    ensures |r| == |df|
    ensures forall i :: 0 <= i < |df| ==> r[i] == Item([Str(df[i].concept)], df[i].numConcepts as real)
  {
    seq(|df|, i requires 0 <= i < |df| => Item([Str(df[i].concept)], df[i].numConcepts as real))
  }

  /** A row of the result: the statsDF columns, meanNumConcepts (NaN as
      `None` where the left merge finds no concept), and wrong. */
  datatype WrongRow = WrongRow(key: Key, size: nat, sum: real, mean: real, meanNumConcepts: Option<real>, wrong: real)

  function WithConcept(g: Group, byConcept: seq<Group>): WrongRow
  {
    var m := Find(byConcept, [KeyAt(g.key, 1)]);
    WrongRow(g.key, g.size, g.sum, g.mean, if m.Some? then Some(m.value.mean) else None, g.size as real - g.sum)
  }

  /** groupConcepts' left merge on 'concept', with the wrong column: one row
      per statsDF row, in its order. */
  function MergeConcepts(stats: seq<Group>, byConcept: seq<Group>): (r: seq<WrongRow>)
    ensures |r| == |stats|
    ensures forall i :: 0 <= i < |stats| ==> r[i] == WithConcept(stats[i], byConcept)
  {
    seq(|stats|, i requires 0 <= i < |stats| => WithConcept(stats[i], byConcept))
  }

  /** `sort('wrong', ascending=False)`. */
  function MoreWrong(a: WrongRow, b: WrongRow): bool
  {
    a.wrong >= b.wrong
  }

  lemma {:induction false} MoreWrongIsTotalPreorder()
    ensures TotalPreorder(MoreWrong)
  {
  }

  /** What a result row says about the answers. */
  ghost predicate WrongRowOf(df: seq<Answer>, subject: Option<string>, x: WrongRow)
  {
    var d := SubjectRows(df, subject);
    var items := NumConceptItems(df);
    var c := [KeyAt(x.key, 1)];
    && x.key in RowKeys(d, StatsCols)
    && (Truthy(subject) ==> KeyAt(x.key, 0) == Str(subject.value))
    && x.size == Asked(d, StatsCols, x.key) > 0
    && x.sum == Right(d, StatsCols, x.key) as real
    && x.mean == x.sum / x.size as real
    && x.wrong == Missed(d, StatsCols, x.key) as real
    && CountKey(items, c) > 0
    && x.meanNumConcepts == Some(SumKey(items, c) / CountKey(items, c) as real)
  }

  /** getMostWrongs: one row per (subject, concept, firstName) of the
      selected rows, most wrong answers first; the merge keeps every row and
      always finds the concept, whose mean is taken over all of `df`. */
  function MostWrongs(df: seq<Answer>, subject: Option<string>): (r: seq<WrongRow>)
    ensures forall k :: k in RowKeys(SubjectRows(df, subject), StatsCols) ==> exists x :: x in r && x.key == k
    ensures forall i, j :: 0 <= i < j < |r| ==> r[i].key != r[j].key
    ensures forall x :: x in r ==> WrongRowOf(df, subject, x)
    ensures forall i, j :: 0 <= i < j < |r| ==> r[i].wrong >= r[j].wrong
  {
    var d := SubjectRows(df, subject);
    var stats := Aggregate(CorrectItems(d, StatsCols));
    var byConcept := Aggregate(NumConceptItems(df));
    var merged := MergeConcepts(stats, byConcept);
    MergedRows(df, subject, stats, byConcept, merged);
    MoreWrongIsTotalPreorder();
    var r := SortBy(merged, MoreWrong);
    SortKeepsDistinctKeys(merged, r);
    forall x | x in r ensures x in merged {
      assert x in multiset(r);
    }
    forall k | k in RowKeys(d, StatsCols) ensures exists x :: x in r && x.key == k {
      var i :| 0 <= i < |merged| && merged[i].key == k;
      assert merged[i] in multiset(merged);
    }
    r
  }

  /** Each merged row is a row of statsDF with its concept's mean found. */
  lemma {:induction false} MergedRows(df: seq<Answer>, subject: Option<string>, stats: seq<Group>, byConcept: seq<Group>, merged: seq<WrongRow>)
    requires stats == Aggregate(CorrectItems(SubjectRows(df, subject), StatsCols))
    requires byConcept == Aggregate(NumConceptItems(df))
    requires merged == MergeConcepts(stats, byConcept)
    ensures forall x :: x in merged ==> WrongRowOf(df, subject, x)
    ensures forall k :: k in RowKeys(SubjectRows(df, subject), StatsCols) ==> exists i :: 0 <= i < |merged| && merged[i].key == k
    ensures forall i, j :: 0 <= i < j < |merged| ==> merged[i].key != merged[j].key
  {
    var d := SubjectRows(df, subject);
    CorrectItemsKeys(d, StatsCols);
    forall g | g in stats ensures GroupOfStats(df, subject, g) {
      assert g.key in KeySet(stats);
    }
    MergedRowsOf(df, subject, stats, byConcept, merged);
    MergedKeys(stats, merged, RowKeys(d, StatsCols));
  }

  /** A group of statsDF: a selected key, with its count, sum and mean. */
  ghost predicate GroupOfStats(df: seq<Answer>, subject: Option<string>, g: Group)
  {
    && g.key in RowKeys(SubjectRows(df, subject), StatsCols)
    && g.size == CountKey(CorrectItems(SubjectRows(df, subject), StatsCols), g.key)
    && g.sum == SumKey(CorrectItems(SubjectRows(df, subject), StatsCols), g.key)
    && g.size > 0 && g.mean == g.sum / g.size as real
  }

  lemma {:induction false} MergedRowsOf(df: seq<Answer>, subject: Option<string>, stats: seq<Group>, byConcept: seq<Group>, merged: seq<WrongRow>)
    requires byConcept == Aggregate(NumConceptItems(df))
    requires forall g :: g in stats ==> GroupOfStats(df, subject, g)
    requires |merged| == |stats| && forall i :: 0 <= i < |stats| ==> merged[i] == WithConcept(stats[i], byConcept)
    ensures forall x :: x in merged ==> WrongRowOf(df, subject, x)
  {
    forall x | x in merged ensures WrongRowOf(df, subject, x) {
      var i :| 0 <= i < |merged| && merged[i] == x;
      assert stats[i] in stats;
      MergedRow(df, subject, stats[i], byConcept);
    }
  }

  /** Rows that follow ascending groups one for one, key for key, cover the
      groups' keys and repeat none. */
  lemma {:induction false} MergedKeys(stats: seq<Group>, merged: seq<WrongRow>, keys: set<Key>)
    requires Ascending(stats) && KeySet(stats) == keys
    requires |merged| == |stats| && forall i :: 0 <= i < |stats| ==> merged[i].key == stats[i].key
    ensures forall k :: k in keys ==> exists i :: 0 <= i < |merged| && merged[i].key == k
    ensures forall i, j :: 0 <= i < j < |merged| ==> merged[i].key != merged[j].key
  {
    forall k | k in keys ensures exists i :: 0 <= i < |merged| && merged[i].key == k {
      var i :| 0 <= i < |stats| && stats[i].key == k;
      assert merged[i].key == k;
    }
    forall i, j | 0 <= i < j < |merged| ensures merged[i].key != merged[j].key {
      assert KeyLess(stats[i].key, stats[j].key);
      KeyLessIrreflexive(stats[i].key);
    }
  }

  lemma {:induction false} MergedRow(df: seq<Answer>, subject: Option<string>, g: Group, byConcept: seq<Group>)
    requires byConcept == Aggregate(NumConceptItems(df))
    requires GroupOfStats(df, subject, g)
    ensures WrongRowOf(df, subject, WithConcept(g, byConcept))
  {
    var d := SubjectRows(df, subject);
    CorrectItemsCount(d, StatsCols, g.key);
    ConceptOfKey(df, subject, g.key);
    FoundConcept(NumConceptItems(df), byConcept, [KeyAt(g.key, 1)]);
  }

  /** The concept of a selected key is the concept of some row of `df`. */
  lemma {:induction false} ConceptOfKey(df: seq<Answer>, subject: Option<string>, k: Key)
    requires k in RowKeys(SubjectRows(df, subject), StatsCols)
    ensures [KeyAt(k, 1)] in ItemKeys(NumConceptItems(df))
    ensures Truthy(subject) ==> KeyAt(k, 0) == Str(subject.value)
  {
    var a :| a in SubjectRows(df, subject) && Project(a, StatsCols) == k;
    assert k == [Str(a.subject), Str(a.concept), Str(a.firstName)];
    var i :| 0 <= i < |df| && df[i] == a;
    var items := NumConceptItems(df);
    assert items[i].key == [Str(a.concept)];
  }

  /** The merge finds a present concept's group, whose mean is that of the
      concept's items. */
  lemma {:induction false} FoundConcept(items: seq<Item>, byConcept: seq<Group>, c: Key)
    requires byConcept == Aggregate(items)
    requires c in ItemKeys(items)
    ensures Find(byConcept, c).Some?
    ensures CountKey(items, c) > 0
    ensures Find(byConcept, c).value.mean == SumKey(items, c) / CountKey(items, c) as real
  {
  }

  /** A permutation of rows with distinct keys has distinct keys. */
  lemma {:induction false} SortKeepsDistinctKeys(s: seq<WrongRow>, r: seq<WrongRow>)
    requires multiset(r) == multiset(s)
    requires forall i, j :: 0 <= i < j < |s| ==> s[i].key != s[j].key
    ensures forall i, j :: 0 <= i < j < |r| ==> r[i].key != r[j].key
  {
    forall i, j | 0 <= i < j < |r| ensures r[i].key != r[j].key {
      assert r[i] in multiset(s) && r[j] in multiset(s);
      var p :| 0 <= p < |s| && s[p] == r[i];
      var q :| 0 <= q < |s| && s[q] == r[j];
      OnlyOnce(s, p);
      CountTwoPositions(r, i, j);
      assert s[p] != s[q];
    }
  }

  /** An element at two positions counts at least twice. */
  lemma {:induction false} CountTwoPositions(r: seq<WrongRow>, i: nat, j: nat)
    requires i < j < |r|
    ensures multiset(r)[r[i]] >= 1 + (if r[j] == r[i] then 1 else 0)
  {
    assert r == r[..j] + [r[j]] + r[j + 1..];
    assert r[..j][i] == r[i];
  }

  /** A row of a sequence with distinct keys occurs once. */
  lemma {:induction false} OnlyOnce(s: seq<WrongRow>, p: nat)
    requires p < |s|
    requires forall i, j :: 0 <= i < j < |s| ==> s[i].key != s[j].key
    ensures multiset(s)[s[p]] == 1
  {
    var x := s[p];
    assert s == s[..p] + [x] + s[p + 1..];
    assert forall y :: y in s[..p] ==> y.key != x.key;
    assert forall y :: y in s[p + 1..] ==> y.key != x.key by {
      forall y | y in s[p + 1..] ensures y.key != x.key {
        var i :| 0 <= i < |s[p + 1..]| && s[p + 1..][i] == y;
        assert s[p + 1 + i] == y;
      }
    }
    assert multiset(s[..p])[x] == 0;
    assert multiset(s[p + 1..])[x] == 0;
  }
}
