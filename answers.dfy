/** The graded answer table the pipeline works on: one row per student,
    question and concept tag, with the derived `correct` indicator. */
module Answers {
  import opened Cells
  import opened Aggregator
  import opened Sorting

  /** `correct` is 0 or 1. */
  type Bit = x: int | 0 <= x <= 1

  datatype Answer = Answer(
    firstName: string,
    lastName: string,
    studentID: int,
    testID: string,
    testQuestionNumber: int,
    testSectionNumber: int,
    subject: string,
    concept: string,
    difficulty: string,
    studentAnswer: string,
    correctAnswer: string,
    correct: Bit,
    numConcepts: int,
    testDate: string)

  /** The columns that appear in a grouping key. */
  datatype Column =
    | FirstName | LastName | StudentID | TestID | TestQuestionNumber
    | TestSectionNumber | Subject | Concept | Difficulty | TestDate

  function CellOf(a: Answer, c: Column): Cell
  {
    match c
    case FirstName => Str(a.firstName)
    case LastName => Str(a.lastName)
    case StudentID => Int(a.studentID)
    case TestID => Str(a.testID)
    case TestQuestionNumber => Int(a.testQuestionNumber)
    case TestSectionNumber => Int(a.testSectionNumber)
    case Subject => Str(a.subject)
    case Concept => Str(a.concept)
    case Difficulty => Str(a.difficulty)
    case TestDate => Str(a.testDate)
  }

  /** The key of a row under a list of grouping columns. */
  function Project(a: Answer, cols: seq<Column>): Key
  {
    seq(|cols|, i requires 0 <= i < |cols| => CellOf(a, cols[i]))
  }

  /** `df[columns + ['correct']]`: each row as (key, correct). */
  function CorrectItems(df: seq<Answer>, cols: seq<Column>): (r: seq<Item>)
    ensures |r| == |df|
    ensures forall i :: 0 <= i < |df| ==> r[i] == Item(Project(df[i], cols), df[i].correct as real)
  {
    if df == [] then []
    else CorrectItems(df[..|df| - 1], cols) + [Item(Project(df[|df| - 1], cols), df[|df| - 1].correct as real)]
  }

  /** Rows whose key under `cols` is `k`. */
  function Asked(df: seq<Answer>, cols: seq<Column>, k: Key): nat
  {
    if df == [] then 0
    else Asked(df[..|df| - 1], cols, k) + (if Project(df[|df| - 1], cols) == k then 1 else 0)
  }

  /** Rows whose key under `cols` is `k` and that were answered correctly. */
  function Right(df: seq<Answer>, cols: seq<Column>, k: Key): nat
  {
    if df == [] then 0
    else Right(df[..|df| - 1], cols, k) + (if Project(df[|df| - 1], cols) == k && df[|df| - 1].correct == 1 then 1 else 0)
  }

  /** Rows whose key under `cols` is `k` and that were answered wrongly. */
  function Missed(df: seq<Answer>, cols: seq<Column>, k: Key): nat
  {
    if df == [] then 0
    else Missed(df[..|df| - 1], cols, k) + (if Project(df[|df| - 1], cols) == k && df[|df| - 1].correct == 0 then 1 else 0)
  }

  /** The keys that occur in `df` under `cols`. */
  function RowKeys(df: seq<Answer>, cols: seq<Column>): set<Key>
  {
    set a | a in df :: Project(a, cols)
  }

  /** Grouping the `correct` column counts the rows of each key, sums their
      correct answers, and every key is some row's key. */
  lemma {:induction false} CorrectItemsCount(df: seq<Answer>, cols: seq<Column>, k: Key)
    ensures CountKey(CorrectItems(df, cols), k) == Asked(df, cols, k)
    ensures SumKey(CorrectItems(df, cols), k) == Right(df, cols, k) as real
    ensures Asked(df, cols, k) == Right(df, cols, k) + Missed(df, cols, k)
  {
    if df != [] {
      CorrectItemsCount(df[..|df| - 1], cols, k);
    }
  }

  lemma {:induction false} CorrectItemsKeys(df: seq<Answer>, cols: seq<Column>)
    ensures ItemKeys(CorrectItems(df, cols)) == RowKeys(df, cols)
  {
    var items := CorrectItems(df, cols);
    forall k | k in RowKeys(df, cols) ensures k in ItemKeys(items) {
      var a :| a in df && Project(a, cols) == k;
      var i :| 0 <= i < |df| && df[i] == a;
      assert items[i].key == k;
    }
  }

  /** `df.loc[df['testID'] == t]`. */
  function ForTest(df: seq<Answer>, t: string): (r: seq<Answer>)
    ensures forall a :: a in r <==> a in df && a.testID == t
    ensures forall a :: multiset(r)[a] == if a.testID == t then multiset(df)[a] else 0
  {
    Filter(df, (a: Answer) => a.testID == t)
  }

  /** The optional test filter: all tests when no testID is given. */
  function ForTestIfGiven(df: seq<Answer>, testID: Option<string>): (r: seq<Answer>)
    ensures forall a :: a in r <==> a in df && (testID.Some? ==> a.testID == testID.value)
    ensures forall a :: multiset(r)[a] == if testID.Some? ==> a.testID == testID.value then multiset(df)[a] else 0
  {
    if testID.Some? then ForTest(df, testID.value) else df
  }

  /** `df.loc[df['subject'] == s]`. */
  function ForSubject(df: seq<Answer>, s: string): (r: seq<Answer>)
    ensures forall a :: a in r <==> a in df && a.subject == s
    ensures forall a :: multiset(r)[a] == if a.subject == s then multiset(df)[a] else 0
  {
    Filter(df, (a: Answer) => a.subject == s)
  }

  /** `df.loc[df['studentID'] == id]`. */
  function ForStudent(df: seq<Answer>, id: int): (r: seq<Answer>)
    ensures forall a :: a in r <==> a in df && a.studentID == id
    ensures forall a :: multiset(r)[a] == if a.studentID == id then multiset(df)[a] else 0
  {
    Filter(df, (a: Answer) => a.studentID == id)
  }
}
