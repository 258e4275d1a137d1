/** data_prep.py: preparing the raw answer table. Rows are records from
    column name to cell, since these steps rename and add columns. */
module DataPrep {
  import opened Cells
  import opened Aggregator
  import opened Sorting

  /** One row of a data frame. */
  type Record = map<string, Cell>

  /** `row[c]`, NaN when the column is absent from the row. */
  function Get(r: Record, c: string): Cell
  {
    if c in r then r[c] else Missing
  }

  /** Every row has all the columns `cols` (a missing one raises KeyError). */
  predicate HasColumns(rows: seq<Record>, cols: seq<string>)
  {
    forall i, c :: 0 <= i < |rows| && c in cols ==> c in rows[i]
  }

  /** The cells of `r` in the columns `cols`. */
  function KeyOf(r: Record, cols: seq<string>): (k: Key)
    ensures |k| == |cols|
    ensures forall i :: 0 <= i < |cols| ==> k[i] == Get(r, cols[i])
  {
    seq(|cols|, i requires 0 <= i < |cols| => Get(r, cols[i]))
  }

  // ---------------------------------------------------------------- clean_data

  /** `rename(columns={from: to})` on one row. */
  function Renamed(r: Record, from: string, to: string): Record
  {
    if from in r then (r - {from})[to := r[from]] else r
  }

  /** The `correct` indicator: 1 when the student's answer equals the correct
      one; NaN equals nothing, so a missing answer is never correct. */
  function CorrectOf(r: Record): int
    requires "Studentsanswer" in r && "CorrectAnswer" in r
  {
    if r["Studentsanswer"] != Missing && r["Studentsanswer"] == r["CorrectAnswer"] then 1 else 0
  }

  function CleanRow(r: Record): Record
    requires "Studentsanswer" in r && "CorrectAnswer" in r
  {
    Renamed(Renamed(r, "name.1", "topic"), "name", "testID")["correct" := Int(CorrectOf(r))]
  }

  /** The columns clean_data writes or renames. */
  const CleanedCols: set<string> := {"name", "name.1", "testID", "topic", "correct"}

  /** clean_data, on a copy: the same rows; `name` becomes `testID` and
      `name.1` becomes `topic`; `correct` is 1 exactly when the answer
      matches; every other column is left as it was. */
  function CleanData(rows: seq<Record>): (out: seq<Record>)
    requires forall i :: 0 <= i < |rows| ==> "Studentsanswer" in rows[i] && "CorrectAnswer" in rows[i]
    ensures |out| == |rows|
    ensures forall i :: 0 <= i < |rows| ==>
              && "correct" in out[i]
              && (out[i]["correct"] == Int(1) <==> rows[i]["Studentsanswer"] != Missing && rows[i]["Studentsanswer"] == rows[i]["CorrectAnswer"])
              && (out[i]["correct"] == Int(0) || out[i]["correct"] == Int(1))
              && "name" !in out[i] && "name.1" !in out[i]
              && ("name" in rows[i] ==> "testID" in out[i] && out[i]["testID"] == rows[i]["name"])
              && ("name.1" in rows[i] ==> "topic" in out[i] && out[i]["topic"] == rows[i]["name.1"])
    ensures forall i, c :: 0 <= i < |rows| && c !in CleanedCols ==>
              && (c in out[i] <==> c in rows[i])
              && (c in rows[i] ==> out[i][c] == rows[i][c])
  {
    seq(|rows|, i requires 0 <= i < |rows| => CleanRow(rows[i]))
  }

  // -------------------------------------------------------------- addNumTopics

  const QuestionCols: seq<string> := ["testID", "testQuestionNumber", "testSectionNumber"]
  const StudentQuestionCols: seq<string> := ["firstName"] + QuestionCols

  /** `df[['firstName', 'testID', 'testQuestionNumber', 'testSectionNumber',
      'correct']]`, grouped for its sizes only. */
  function TopicItems(rows: seq<Record>): (r: seq<Item>)
    ensures |r| == |rows|
    ensures forall i :: 0 <= i < |rows| ==> r[i].key == KeyOf(rows[i], StudentQuestionCols)
  {
    seq(|rows|, i requires 0 <= i < |rows| => Item(KeyOf(rows[i], StudentQuestionCols), CellValue(Get(rows[i], "correct"))))
  }

  function CellValue(c: Cell): real
  {
    if c.Int? then c.i as real else 0.0
  }

  /** The question part of a (firstName, question) key. */
  function QuestionOf(k: Key): Key
  {
    if |k| > 0 then k[1..] else []
  }

  lemma {:induction false} QuestionOfKey(r: Record)
    ensures QuestionOf(KeyOf(r, StudentQuestionCols)) == KeyOf(r, QuestionCols)
  {
    var k := KeyOf(r, StudentQuestionCols);
    assert forall i :: 0 <= i < 3 ==> k[1..][i] == k[i + 1];
  }

  /** `groupby(question).max()['size']`: the largest size among the groups of
      question `q`, 0 when there are none. */
  function MaxSize(gs: seq<Group>, q: Key): (m: nat)
    ensures forall g :: g in gs && QuestionOf(g.key) == q ==> g.size <= m
    ensures m == 0 || exists g :: g in gs && QuestionOf(g.key) == q && g.size == m
    ensures (exists g :: g in gs && QuestionOf(g.key) == q) ==> exists g :: g in gs && QuestionOf(g.key) == q && g.size == m
  {
    if gs == [] then 0
    else
      var rest := MaxSize(gs[1..], q);
      assert gs == [gs[0]] + gs[1..];
      if QuestionOf(gs[0].key) == q && gs[0].size >= rest then gs[0].size else rest
  }

  /** numTopics of a question: the most rows any one student has for it. */
  function NumTopics(rows: seq<Record>, q: Key): nat
  {
    MaxSize(Aggregate(TopicItems(rows)), q)
  }

  /** addNumTopics: every row, in order, with its question's numTopics. */
  function AddNumTopics(rows: seq<Record>): (out: seq<Record>)
    ensures |out| == |rows|
    ensures forall i :: 0 <= i < |rows| ==>
              && out[i] - {"numTopics"} == rows[i] - {"numTopics"}
              && "numTopics" in out[i]
              && out[i]["numTopics"] == Int(NumTopics(rows, KeyOf(rows[i], QuestionCols)))
  {
    seq(|rows|, i requires 0 <= i < |rows| => rows[i]["numTopics" := Int(NumTopics(rows, KeyOf(rows[i], QuestionCols)))])
  }

  /** The number of rows of one student for one question. */
  function RowsOf(rows: seq<Record>, k: Key): nat
  {
    CountKey(TopicItems(rows), k)
  }

  /** numTopics is the largest number of rows one student has for the
      question: no student has more, some student has that many, and it is at
      least one. */
  lemma {:induction false} NumTopicsIsMax(rows: seq<Record>, i: nat)
    requires i < |rows|
    ensures var q := KeyOf(rows[i], QuestionCols);
            && NumTopics(rows, q) >= 1
            && (forall j :: 0 <= j < |rows| && KeyOf(rows[j], QuestionCols) == q ==>
                  RowsOf(rows, KeyOf(rows[j], StudentQuestionCols)) <= NumTopics(rows, q))
            && exists j :: 0 <= j < |rows| && KeyOf(rows[j], QuestionCols) == q &&
                  RowsOf(rows, KeyOf(rows[j], StudentQuestionCols)) == NumTopics(rows, q)
  {
    var q := KeyOf(rows[i], QuestionCols);
    var items := TopicItems(rows);
    var gs := Aggregate(items);
    forall j | 0 <= j < |rows| && KeyOf(rows[j], QuestionCols) == q
      ensures RowsOf(rows, KeyOf(rows[j], StudentQuestionCols)) <= NumTopics(rows, q)
    {
      var k := KeyOf(rows[j], StudentQuestionCols);
      GroupOfRow(rows, j);
      var g :| g in gs && g.key == k;
      QuestionOfKey(rows[j]);
    }
    GroupOfRow(rows, i);
    QuestionOfKey(rows[i]);
    var g0 :| g0 in gs && g0.key == KeyOf(rows[i], StudentQuestionCols);
    var g :| g in gs && QuestionOf(g.key) == q && g.size == NumTopics(rows, q);
    var j := RowOfGroup(rows, g);
    QuestionOfKey(rows[j]);
  }

  /** Every row's (student, question) key has a group. */
  lemma {:induction false} GroupOfRow(rows: seq<Record>, j: nat)
    requires j < |rows|
    ensures exists g :: g in Aggregate(TopicItems(rows)) && g.key == KeyOf(rows[j], StudentQuestionCols)
  {
    var items := TopicItems(rows);
    assert items[j].key in ItemKeys(items);
    assert items[j].key in KeySet(Aggregate(items));
  }

  /** Every group is the key of some row, and its size counts that key's rows. */
  lemma {:induction false} RowOfGroup(rows: seq<Record>, g: Group) returns (j: nat)
    requires g in Aggregate(TopicItems(rows))
    ensures j < |rows| && KeyOf(rows[j], StudentQuestionCols) == g.key
    ensures g.size == RowsOf(rows, g.key) > 0
  {
    var items := TopicItems(rows);
    assert g.key in ItemKeys(items);
    var i :| 0 <= i < |items| && items[i].key == g.key;
    j := i;
  }

  // ------------------------------------------------------------ makeStudentIDs

  /** `drop_duplicates`: the distinct keys, each at its first appearance. */
  function Distinct(s: seq<Key>): (r: seq<Key>)
    ensures forall i, j :: 0 <= i < j < |r| ==> r[i] != r[j]
    ensures forall k :: k in r <==> k in s
  {
    if s == [] then []
    else
      var d := Distinct(s[..|s| - 1]);
      assert s == s[..|s| - 1] + [s[|s| - 1]];
      if s[|s| - 1] in d then d else d + [s[|s| - 1]]
  }

  /** The distinct keys of a prefix come first, in the same order. */
  lemma {:induction false} DistinctPrefix(s: seq<Key>, j: nat)
    requires j <= |s|
    ensures |Distinct(s[..j])| <= |Distinct(s)|
    ensures Distinct(s)[..|Distinct(s[..j])|] == Distinct(s[..j])
    decreases |s| - j
  {
    if j < |s| {
      DistinctPrefix(s, j + 1);
      assert s[..j + 1][..j] == s[..j];
    } else {
      assert s[..j] == s;
    }
  }

  /** A sequence without repetitions has as many distinct elements as
      elements. */
  lemma {:induction false} DistinctCount(r: seq<Key>)
    requires forall i, j :: 0 <= i < j < |r| ==> r[i] != r[j]
    ensures |set k | k in r| == |r|
  {
    if r != [] {
      var init := r[..|r| - 1];
      DistinctCount(init);
      assert (set k | k in r) == (set k | k in init) + {r[|r| - 1]};
      assert r[|r| - 1] !in init;
    }
  }

  /** The keys of the rows, in order. */
  function Keys(rows: seq<Record>, cols: seq<string>): (ks: seq<Key>)
    ensures |ks| == |rows|
    ensures forall i :: 0 <= i < |rows| ==> ks[i] == KeyOf(rows[i], cols)
  {
    seq(|rows|, i requires 0 <= i < |rows| => KeyOf(rows[i], cols))
  }

  /** The studentID of a key: its index among the distinct keys. */
  function StudentID(rows: seq<Record>, cols: seq<string>, k: Key): nat
    requires k in Keys(rows, cols)
  {
    IndexOf(Distinct(Keys(rows, cols)), k)
  }

  /** makeStudentIDs' default `index_column_list`, the key `main` numbers
      students by. */
  const NameCols: seq<string> := ["firstName", "lastName"]

  /** makeStudentIDs: every row, with its key's studentID. */
  function MakeStudentIDs(rows: seq<Record>, cols: seq<string>): (out: seq<Record>)
    requires HasColumns(rows, cols)
    ensures |out| == |rows|
    ensures forall i :: 0 <= i < |rows| ==>
              out[i] == rows[i]["studentID" := Int(StudentID(rows, cols, KeyOf(rows[i], cols)))]
  {
    var ks := Keys(rows, cols);
    seq(|rows|, i requires 0 <= i < |rows| =>
      assert ks[i] == KeyOf(rows[i], cols);
      rows[i]["studentID" := Int(StudentID(rows, cols, KeyOf(rows[i], cols)))])
  }

  /** The IDs are 0 .. k-1 for the k distinct keys; two rows get the same ID
      exactly when their keys agree; and a key seen for the first time gets
      the number of distinct keys seen before it. */
  lemma {:induction false} StudentIDsFirstSeen(rows: seq<Record>, cols: seq<string>)
    ensures var ks := Keys(rows, cols);
            forall i :: 0 <= i < |rows| ==> StudentID(rows, cols, ks[i]) < |set k | k in ks|
    ensures var ks := Keys(rows, cols);
            forall i, j :: 0 <= i < |rows| && 0 <= j < |rows| ==>
              (StudentID(rows, cols, ks[i]) == StudentID(rows, cols, ks[j]) <==> ks[i] == ks[j])
    ensures var ks := Keys(rows, cols);
            forall j :: 0 <= j < |rows| && ks[j] !in ks[..j] ==>
              StudentID(rows, cols, ks[j]) == |set k | k in ks[..j]|
  {
    var ks := Keys(rows, cols);
    var d := Distinct(ks);
    DistinctCount(d);
    assert (set k | k in d) == (set k | k in ks);
    forall j | 0 <= j < |rows| && ks[j] !in ks[..j]
      ensures StudentID(rows, cols, ks[j]) == |set k | k in ks[..j]|
    {
      NewKeyPosition(ks, j);
    }
  }

  /** A key first seen at `j` comes right after the distinct keys of the rows
      before `j`. */
  lemma {:induction false} NewKeyPosition(ks: seq<Key>, j: nat)
    requires j < |ks| && ks[j] !in ks[..j]
    ensures IndexOf(Distinct(ks), ks[j]) == |set k | k in ks[..j]|
  {
    var before := Distinct(ks[..j]);
    NewKeyAppended(ks, j);
    DistinctPrefix(ks, j + 1);
    var d := Distinct(ks);
    var upTo := Distinct(ks[..j + 1]);
    assert d[..|upTo|] == upTo;
    assert d[|before|] == d[..|upTo|][|before|];
    DistinctCount(before);
    assert (set k | k in before) == (set k | k in ks[..j]);
  }

  /** A key not seen before is appended to the distinct keys. */
  lemma {:induction false} NewKeyAppended(ks: seq<Key>, j: nat)
    requires j < |ks| && ks[j] !in ks[..j]
    ensures Distinct(ks[..j + 1]) == Distinct(ks[..j]) + [ks[j]]
  {
    assert ks[..j + 1][..j] == ks[..j];
    assert ks[..j + 1][j] == ks[j];
  }

  // ------------------------------------------------------------- assignToClass

  const ClassA: seq<string> := ["Aeson", "Ahna", "Akayla", "Allan", "Alondra"]
  const ClassB: seq<string> := ["Amanda", "Ashli", "Auston", "Ayanna", "Cheyanne", "Clementina"]

  /** `df['firstName'].isin(names)`. */
  predicate NameIn(r: Record, names: seq<string>)
  {
    Get(r, "firstName").Str? && Get(r, "firstName").s in names
  }

  /** `df.loc[mask, 'class'] = value` on one row: a new column is NaN where
      the mask is false. */
  function SetClassIf(r: Record, mask: bool, value: string): Record
  {
    r["class" := if mask then Str(value) else Get(r, "class")]
  }

  /** assignToClass, on a copy: the first list's students in class "A", the
      second's in "B", everyone else keeps the class they had (none if the
      column is new). */
  function AssignToClass(rows: seq<Record>): (out: seq<Record>)
    ensures |out| == |rows|
    ensures forall i :: 0 <= i < |rows| ==>
              && out[i] - {"class"} == rows[i] - {"class"}
              && "class" in out[i]
              && out[i]["class"] == (if NameIn(rows[i], ClassB) then Str("B")
                                     else if NameIn(rows[i], ClassA) then Str("A")
                                     else Get(rows[i], "class"))
  {
    seq(|rows|, i requires 0 <= i < |rows| => SetClassIf(SetClassIf(rows[i], NameIn(rows[i], ClassA), "A"), NameIn(rows[i], ClassB), "B"))
  }

  /** No student is in both lists, so each listed student gets the class of
      the list they are in. */
  lemma {:induction false} ClassListsDisjoint(rows: seq<Record>, i: nat)
    requires i < |rows|
    ensures NameIn(rows[i], ClassA) ==> AssignToClass(rows)[i]["class"] == Str("A")
    ensures NameIn(rows[i], ClassB) ==> AssignToClass(rows)[i]["class"] == Str("B")
    ensures !NameIn(rows[i], ClassA) && !NameIn(rows[i], ClassB) && "class" !in rows[i] ==>
              AssignToClass(rows)[i]["class"] == Missing
  {
    if NameIn(rows[i], ClassA) {
      var n := Get(rows[i], "firstName").s;
      assert n in ClassA;
      assert n != "Amanda" && n != "Ashli" && n != "Auston" && n != "Ayanna" && n != "Cheyanne" && n != "Clementina" by {
        assert n == "Aeson" || n == "Ahna" || n == "Akayla" || n == "Allan" || n == "Alondra";
      }
      assert !NameIn(rows[i], ClassB);
    }
  }

  // --------------------------------------------------------------- createClass

  /** The row after `df.loc[df['firstName'].isin(students), 'class'] =
      className`. */
  function Enrolled(r: Record, students: seq<string>, className: string): Record
  {
    SetClassIf(r, NameIn(r, students), className)
  }

  /** `df['class'] == className`. */
  function InClass(className: string): Record -> bool
  {
    (r: Record) => Get(r, "class") == Str(className)
  }

  /** A data frame whose rows the caller shares. */
  class Frame {
    var rows: seq<Record>

    constructor (rows0: seq<Record>)
      ensures rows == rows0
    {
      rows := rows0;
    }

    /** The labelling half of createClass: the listed students' rows of
        this frame are put in class `className`, in place. */
    method Enroll(students: seq<string>, className: string)
      modifies this
      ensures |rows| == |old(rows)|
      ensures forall i :: 0 <= i < |rows| ==> rows[i] == Enrolled(old(rows)[i], students, className)
    {
      var i := 0;
      while i < |rows|
        invariant 0 <= i <= |rows| == |old(rows)|
        invariant forall j :: 0 <= j < i ==> rows[j] == Enrolled(old(rows)[j], students, className)
        invariant forall j :: i <= j < |rows| ==> rows[j] == old(rows)[j]
      {
        rows := rows[i := Enrolled(rows[i], students, className)];
        i := i + 1;
      }
    }

    /** `df[df['class'] == className]`: the rows of the class, in order. */
    method Select(className: string) returns (selected: seq<Record>)
      ensures selected == Filter(rows, InClass(className))
    {
      selected := [];
      var i := 0;
      while i < |rows|
        invariant 0 <= i <= |rows|
        invariant selected == Filter(rows[..i], InClass(className))
      {
        FilterStep(rows, i, InClass(className));
        if InClass(className)(rows[i]) {
          selected := selected + [rows[i]];
        }
        i := i + 1;
      }
      assert rows[..i] == rows;
    }

    /** createClass: label the listed students' rows with `className` in
        this frame, then return the rows of that class, in order, including
        rows labelled with it before. */
    method CreateClass(students: seq<string>, className: string) returns (selected: seq<Record>)
      modifies this
      ensures |rows| == |old(rows)|
      ensures forall i :: 0 <= i < |rows| ==> rows[i] == Enrolled(old(rows)[i], students, className)
      ensures selected == Filter(rows, InClass(className))
    {
      Enroll(students, className);
      selected := Select(className);
    }
  }

  /** What createClass returns: every listed student's row, every row already
      in the class, and no other row. */
  lemma {:induction false} CreateClassSelects(rows: seq<Record>, students: seq<string>, className: string, r: Record)
    requires r in rows
    ensures (Enrolled(r, students, className) in Filter(seq(|rows|, i requires 0 <= i < |rows| => Enrolled(rows[i], students, className)), InClass(className)))
              <==> NameIn(r, students) || Get(r, "class") == Str(className)
  {
    var e := seq(|rows|, i requires 0 <= i < |rows| => Enrolled(rows[i], students, className));
    var i :| 0 <= i < |rows| && rows[i] == r;
    assert e[i] == Enrolled(r, students, className);
  }
}
