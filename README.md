# yleana analytics core, modelled in Dafny

yleana turns a table of graded test answers into report material for tutors.
It has one row per student, question and concept tag. This project models the
table logic behind those reports:

- **Cleaning the raw export** (`data_prep.py`): the columns are renamed and the
  `correct` indicator is derived; each question gets its topic count; students
  get dense integer IDs; students are assigned to classes.
- **Grouping and statistics** (`yleana_util.py`): `groupData` (sorted groups
  with size, sum and mean) and per-student performance with a passing flag;
  class averages and pass rates; concept weights per subject.
- **Report tables** (`score_report.py`): the focus table, which holds the five
  concepts where a student is furthest behind the class, weighted by concept
  weight; the opportunity table, which holds the five concepts with the most
  wrong answers; scores by concept; scores of chosen concepts over time.
- **Other tables** (`yleana_util.py`): the trend of average scores over a test
  series, and the "most wrong" table with each concept's mean number of tags.

Module layout:

- `Cells`: cell values (missing, integer, string) and group keys, ordered
  lexicographically like a sorted groupby.
- `Sorting`: sorting by a total preorder, `head(n)`, and boolean-mask filters.
  These give `sort_values(...).head(n)` its "best n" meaning.
- `Aggregator`: pandas' `groupby(sort=True).agg([size, sum, mean])`.
- `Answers`: the typed answer row, and the counts per group key.
- The remaining modules follow the source functions one to one: `Performance`,
  `ClassAverager`, `ConceptWeights`, `Focus`, `Opportunity`, `Trends`,
  `MostWrongs` and `DataPrep`.

`createClass` changes the caller's data frame in place. It is a method of the
class `DataPrep.Frame`, whose field `rows` holds that frame. Everything else
works on copies and is modelled with functions.

## Model

| member | source | states |
|---|---|---|
| Aggregator.Aggregate | yleana_util.py:12-24 | groupData: the group keys are strictly ascending and are exactly the keys occurring in the rows. Each group's size is the number of its rows (at least one), its sum is the sum of its values, and its mean is sum / size |
| Aggregator.SizesSumToRowCount | yleana_util.py:20-22 | grouping loses no row: the group sizes add up to the number of rows |
| Aggregator.CountKeyPositive | yleana_util.py:21-22 | a key has a group exactly when it occurs in a row; a key that does not occur sums to 0 |
| Aggregator.AscendingUnique | yleana_util.py:21 | two sorted group tables with the same key set have the same keys position by position, so the sorted groupby order is unique |
| Aggregator.Find | yleana_util.py:222 | looking up a key in a grouped table (a merge on the key) finds a group with that key, or reports None exactly when the key is absent |
| Aggregator.SumKeyInUnit | yleana_util.py:22 | when every value is 0/1, a group's sum lies between 0 and its size |
| Sorting.SortBy | score_report.py:75 | sorting yields an ordered permutation of its input |
| Sorting.TopOfFiltered | score_report.py:75-76 | sort, then keep the matching rows, then head(n): the result is ordered and holds matching input rows, min(n, #matching) of them, each no worse than any matching row left out |
| Sorting.TopOf | score_report.py:132 | sort, then head(n): the result is ordered and is a sub-multiset of the input of size min(n, input length), and every row kept ranks no worse than every row dropped |
| Sorting.Filter | score_report.py:76 | a boolean-mask selection keeps exactly the matching rows, each as often as in the input and in input order |
| Sorting.FilterSorted | score_report.py:75-76 | selecting rows from a sorted table keeps it sorted |
| Performance.PerfByStudent | yleana_util.py:104-124 | getPerfByStudent: one row per group key present in the data, in ascending key order. numQuestions is the number of answers for the key (> 0), numCorrect the number right, wrong the number wrong, score = numCorrect / numQuestions, and passing = 1 exactly when score >= passingThreshold |
| Performance.GetPerfByStudent | yleana_util.py:115-121 | the column-by-column construction of the result (wrong, passing set to 0 then to 1 where the mean clears the threshold, renames) yields PerfByStudent |
| Performance.PassingRows | yleana_util.py:115-121 | the two passes over the grouped rows (copy each group with passing 0, then set passing to 1 where the mean reaches the threshold) give, row for row, the group's counts, its wrong count and the passing flag of PerfByStudent |
| Performance.Round2 | score_report.py:33 | round(2): the result is a whole number of hundredths within 0.005 of the input, and rounding keeps a value inside [0, 1] |
| Performance.GroupDataRounded | score_report.py:21-34 | score_report's groupData: the group keys are strictly ascending and are exactly the keys occurring in the rows; each group's size is its number of rows (at least one), its sum the sum of its values, and its mean round(sum / size, 2) |
| Performance.PerfByColumns | score_report.py:85-101 | getPerfByColumns: ascending keys, exactly the keys present in the data. Each row counts that key's answers asked, right and wrong, and carries score = round(right / asked, 2) |
| ClassAverager.ClassAvg | yleana_util.py:135-145 | getClassAvg: the student table is getPerfByStudent's. The class rows' (subject, concept) keys are strictly ascending and are exactly the pairs of the student rows, so every pair has one class row. Each class row counts the students given the pair, at least one, and its classAvg is the mean of their scores, a value in [0, 1] |
| ClassAverager.CompareToClass | yleana_util.py:126-133 | compareToClass: one row per (subject, concept) of the student rows, in strictly ascending order, with the number of students given it, the number who passed (between 0 and that number), and the pass rate, a value in [0, 1] |
| ClassAverager.DuplicateKeepsScores | yleana_util.py:104-124 | appending a second copy of one student's (or one value's) rows changes no group's key, score or passing flag |
| ClassAverager.DuplicateKeepsClassAvg | yleana_util.py:126-145 | the class averages and pass rates are per-student means, so duplicating one student's rows leaves both class tables unchanged |
| ConceptWeights.DropTestKeeps | yleana_util.py:38-40 | drop_test as evidently intended: a row survives exactly when its testID does not contain the pattern; surviving rows keep their multiplicity and matching rows are all dropped |
| ConceptWeights.DropTestAsWritten | yleana_util.py:38-40 | drop_test as written: positional matches are dropped as index labels; the call fails exactly when a matching position is not a label of the frame |
| ConceptWeights.DropTestAgreesOnFreshIndex | yleana_util.py:38-40 | on a frame indexed 0..n-1, the as-written drop_test returns exactly the intended result |
| ConceptWeights.DropTestAsWrittenDropsWrongRow | yleana_util.py:39 | on a filtered frame labelled 0, 2, 3 whose third row alone matches "BB", the as-written drop_test removes the second row (label 2) and keeps the matching one |
| ConceptWeights.DropTestAsWrittenRaises | yleana_util.py:39 | on a one-row frame labelled 5 that matches, the as-written drop_test raises, while the intended result is empty |
| ConceptWeights.ConceptWeight | yleana_util.py:42-80 | getConceptWeight: one row per (subject, concept) left after removing the "BB" and "YL_6_PP_SAT_S0111" tests, in ascending key order. Each weight is the concept's mean questions-per-student-test over the sum of those means in its subject, and lies in (0, 1] |
| ConceptWeights.WeightsSumToOne | yleana_util.py:72-77 | the concept weights of a subject add up to 1 |
| ConceptWeights.SingleConceptWeighsOne | yleana_util.py:76-77 | a subject with one concept gives it weight 1 |
| ConceptWeights.MeanQsCountsRows | yleana_util.py:56-61 | meanQsPerConcept of a (subject, concept) is its number of answer rows divided by the number of (student, test) groups that asked it |
| Focus.Scope | score_report.py:54-56 | the optional testID filter then the subject filter keep exactly the rows of that subject, and of that test when one is given, each as often as in the input |
| Focus.Ranked | score_report.py:75-76 | sort by weightedScoreDiff (missing last), select the student, head(): at most five of the student's rows, in order |
| Focus.RankedIsBestFive | score_report.py:75-76 | those are min(5, #student rows) of the student's rows, none ranked below a row left out |
| Focus.FocusTable | score_report.py:36-79 | buildFocusTable with toHTML=False, before the column drop: at most five rows, all of the student and subject with at least minWrong wrong answers. Each row's (studentID, subject, concept) occurs in the filtered data, and rows are ordered by weightedScoreDiff, missing last |
| Focus.FocusTableIsBestFive | score_report.py:59-76 | the student's qualifying rows (per-student rows with at least minWrong wrong) have distinct ascending keys and all join a class row. The table has min(5, n) rows for n such rows, no two for the same concept, each the displayed join of one of them, and a qualifying concept left out ranks no earlier than any row kept |
| Focus.FocusWsdFromUnrounded | score_report.py:59-74 | each row's weightedScoreDiff is missing exactly when its concept has no weight (the concept occurs only in the excluded tests). Each row displays an unrounded joined row of the scoped data (the student's own score, the class row's classAvg, the concept's weight), and its weightedScoreDiff is that row's (score - classAvg) * weight, taken before the two-place rounding of the displayed columns |
| Focus.MissingWeightsLast | score_report.py:75 | a row without a weight is never followed by a row with one |
| Focus.Joined | score_report.py:62-68 | every joined row pairs a student row with the class row of its (subject, concept) and with its weight (missing when the left merge finds none); scoreDiff and weightedScoreDiff are derived from them |
| Focus.JoinedComplete | score_report.py:64-65 | the inner merge loses no student row that has a class row |
| Focus.JoinedAll | score_report.py:64-65 | when every student row has a class row, the merged table has one row per student row (listed in student-row order; see "## Left out") |
| Focus.ReportFocusTable | score_report.py:76-83 | the returned table is the focus rows with studentID and subject dropped, in the same order, at most five |
| Opportunity.OpportunityScope | score_report.py:120-129 | the filters keep exactly the student's rows of the subject, of the test and the difficulty when given, and for "easy" only answered questions (not "BLANK", not empty), each as often as in the input |
| Opportunity.EasyCountsNoBlanks | score_report.py:124-127 | the blank-answer filter applies only when the difficulty is "easy"; with no difficulty every row of the student, subject and test is kept |
| Opportunity.TopWrong | score_report.py:132 | sort by wrong descending, then head(): at most five rows of the input, wrong non-increasing |
| Opportunity.TopWrongIsBestFive | score_report.py:132 | those are min(5, n) rows of the input, and none has fewer wrong answers than a row left out |
| Opportunity.OpportunityTable | score_report.py:103-139 | buildOpportunityTable with toHTML=False: at most five rows, most wrong first. Each row is the (test, subject, concept) group of a key in the filtered data, with that group's questions asked (at least one), answered right and missed, and its score round(right / asked, 2) as getPerfByColumns gives it |
| Opportunity.OpportunityTableIsBestFive | score_report.py:131-132 | the table has min(5, n) rows for the n (test, subject, concept) groups of the filtered data, each row a different group, and no group left out has more wrong answers than a row kept |
| Opportunity.StudentScoresByConcept | score_report.py:179-204 | the table written by getStudentScoresByConcept is a permutation of getPerfByColumns over the student's (and test's) rows by subject, concept and difficulty, ordered by subject descending |
| Opportunity.ConceptPerformanceOverTime | score_report.py:210-231 | the table plotted by conceptPerformanceOverTime: one point per (test, date, concept) of the student's rows with a listed concept, in ascending order, each scored round(right / asked, 2); every such row is covered |
| Trends.SequencePos | yleana_util.py:189-192 | the test-number position is set only for "OL", where it is -1 (the last character), and "PP_SAT", where it is 3 (the fourth character) |
| Trends.CharAt | yleana_util.py:194 | `str[pos]` with Python indexing: a one-character string when -len <= pos < len, NaN otherwise |
| Trends.TestNumPresent | yleana_util.py:193-194 | a testID containing the series name is long enough that its test number is never NaN |
| Trends.TrendsOverTime | yleana_util.py:188-197 | getTrendsOverTime fails exactly for a series other than "OL" and "PP_SAT". Otherwise its groups have strictly ascending keys, exactly the (subject, testNum) keys of the series rows; each group's size is the number of series rows with its key and its average score the fraction of them answered correctly, in [0, 1]; test numbers are present and no row is lost |
| MostWrongs.MostWrongs | yleana_util.py:213-235 | getMostWrongs: one row per (subject, concept, firstName) of the selected rows, every such key present once, all of the given subject when it is truthy. Each row has its counts (size > 0, sum, mean, wrong), the mean numConcepts of its concept over the whole table (the left merge always finds it), and rows come most wrong first |
| DataPrep.CleanData | data_prep.py:10-24 | clean_data: "name" becomes "testID" and "name.1" becomes "topic". correct is 1 exactly when the answer is present and equals the correct answer, else 0. All other columns are unchanged |
| DataPrep.AddNumTopics | data_prep.py:26-38 | addNumTopics: each row keeps its columns and gains numTopics, the count for its question |
| DataPrep.NumTopicsIsMax | data_prep.py:33-37 | a question's numTopics is at least 1 and is the largest number of rows any one student has for that question |
| DataPrep.MaxSize | data_prep.py:34 | the per-question max of group sizes bounds every group of the question and is attained by one |
| DataPrep.MakeStudentIDs | data_prep.py:40-52 | makeStudentIDs: each row gains studentID, the position of its name key among the distinct keys in first-seen order; `main` keys students by the default `NameCols`, firstName and lastName |
| DataPrep.StudentIDsFirstSeen | data_prep.py:45-48 | IDs are below the number of distinct students; two rows share an ID exactly when they share the key; a key seen for the first time gets the number of keys seen before it |
| DataPrep.Distinct | data_prep.py:45 | drop_duplicates: no key twice, and exactly the keys of the input |
| DataPrep.AssignToClass | data_prep.py:54-59 | assignToClass: only the class column changes; the students on the first list get "A", then those on the second list get "B" (so "B" wins for a name on both lists), and everyone else keeps their class (NaN if the column is new) |
| DataPrep.ClassListsDisjoint | data_prep.py:56-58 | the two class lists share no name, so each listed student gets their own list's class |
| DataPrep.Frame.Enroll | data_prep.py:63 | the listed students' rows of the frame are put in the class in place; every other row is unchanged |
| DataPrep.Frame.Select | data_prep.py:64 | the rows of the frame whose class is the given one, in order |
| DataPrep.Frame.CreateClass | data_prep.py:62-64 | createClass: the frame is relabelled in place and the returned rows are exactly the frame's rows of that class |
| DataPrep.CreateClassSelects | data_prep.py:62-64 | a row is returned by createClass exactly when its student is listed or it was already in that class |

## Left out

- HTML conversion (`makeHTMLTable`, the `toHTML=True` branches), CSV export, the student-name lookup, and all plotting (`plotTrends`, bar charts, heatmaps): these are output only. `getStudentScoresByConcept` and `conceptPerformanceOverTime` are modelled up to the table they write or plot.
- `getStudentScoresByConcept` builds its output path as `'...' + testID + ...`, which fails when testID is None. The model returns the table in both cases, because the path is I/O.
- `main` and its file reading, `mapConcepts`, `addNumConcepts`, `addDates` and `groupByStudentTypeConcept` are not part of this model.
- Standard deviation (`np.std`) in `groupConcepts`: only the mean it keeps is modelled, and no result column uses the std.
- The questions-per-test tables (`tt1`, `tt2`, `testQs`) in getConceptWeight are computed and never used. The sort at `d2.sort(...)`, line 78, is discarded and so has no effect. `classPerf.sort('numStudentsGivenConcept')` only reorders a table that is then merged on keys. None of these is modelled.
- Floating point: all numbers are exact reals. `Performance.Round2`: `round(2)` is modelled as exact round-half-to-even on the decimal value, and the weaker contract states only the 0.005 bound and two-place result, not binary floating-point ties.
- Sort ties: pandas' default sort is not stable, so rows with equal sort keys may come out in any order. The contracts state sortedness and permutation (or "best n") only.
- `Focus.Joined`: the row order of the inner merges in buildFocusTable is not modelled; older pandas groups the merged rows by join key, while the model lists them in student-row order. The focus rows are sorted afterwards, so only the order of ties could differ.
- `DataPrep.MakeStudentIDs`: the inner merge regroups rows by student key; the model keeps input row order and states only the ID each row receives.
- NaN grouping keys, which groupby drops: the typed answer table has no missing key cells. In `data_prep`, a missing answer is NaN and never equals the correct answer.
- `DataPrep.AddNumTopics`: rows whose firstName or question cells are missing form a group of their own in the model, where pandas' groupby drops them. A question answered only by rows without a firstName gets NaN in the source and a count in the model, and `DataPrep.NumTopicsIsMax` counts those rows too.
- `str.contains` takes a regular expression. The model treats the patterns used ("BB", "YL_6_PP_SAT_S0111", "OL", "PP_SAT") as plain substrings, which they are.
- `Focus.FocusTable`: rows whose concept has no weight are kept, with a missing weightedScoreDiff, and sorted last. This follows the code, not the stated aim of ranking weighted concepts only.
- `MostWrongs.MostWrongs`: the subject argument is a string or None, and truthiness is modelled as "present and non-empty".
- `Trends.TrendsOverTime`: only the default grouping columns `['subject', 'testNum']` are modelled. An unknown series is modelled as None where Python raises an error.

## Findings

| source | as written | input that shows it | evidently intended | confidence | as-written member | corrected member |
|---|---|---|---|---|---|---|
| yleana_util.py:39 | `df.drop(list(np.where(mask)[0]))` passes the positions of matching rows to a drop by index label, and buildFocusTable calls it on a frame it has filtered without resetting the index | pattern "BB" on a frame labelled 0, 2, 3 with testIDs "T1", "T2", "BB3": position 2 matches, so the "T2" row (label 2) is dropped and "BB3" kept; on a one-row frame labelled 5 with testID "BB" the drop raises | drop the rows whose testID contains the pattern, as on a frame indexed 0..n-1 | not executed | ConceptWeights.DropTestAsWrittenDropsWrongRow | ConceptWeights.DropTestKeeps |
