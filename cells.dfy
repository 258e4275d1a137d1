/** Table cells, group keys and the lexicographic order in which pandas
    sorts group keys (`groupby(..., sort=True)`). */
module Cells {

  datatype Option<T> = None | Some(value: T)

  /** One cell of a table. The columns used here hold strings or integers;
      `Missing` is pandas' NaN (a column that was never set for a row). */
  datatype Cell = Missing | Int(i: int) | Str(s: string)

  /** A group key: the cells of the grouping columns, in column order. */
  type Key = seq<Cell>

  /** The first position of `x` in `s` (a column among the grouping
      columns, a key among the distinct keys). */
  function IndexOf<T(==)>(s: seq<T>, x: T): (r: nat)
    requires x in s
    ensures r < |s| && s[r] == x
  {
    if s[0] == x then 0 else 1 + IndexOf(s[1..], x)
  }

  /** Column `i` of a key, `Missing` when the key is narrower. */
  function KeyAt(k: Key, i: nat): Cell
  {
    if i < |k| then k[i] else Missing
  }

  /** Lexicographic strict order on sequences, given a strict order on elements:
      a proper prefix comes first. */
  predicate SeqLess<T(==)>(a: seq<T>, b: seq<T>, less: (T, T) -> bool)
    decreases |a|
  {
    if |a| == 0 then |b| > 0
    else if |b| == 0 then false
    else less(a[0], b[0]) || (a[0] == b[0] && SeqLess(a[1..], b[1..], less))
  }

  lemma {:induction false} SeqLessIrreflexive<T>(a: seq<T>, less: (T, T) -> bool)
    requires forall x :: !less(x, x)
    ensures !SeqLess(a, a, less)
    decreases |a|
  {
    if |a| > 0 {
      SeqLessIrreflexive(a[1..], less);
    }
  }

  lemma {:induction false} SeqLessTransitive<T>(a: seq<T>, b: seq<T>, c: seq<T>, less: (T, T) -> bool)
    requires forall x :: !less(x, x)
    requires forall x, y, z :: less(x, y) && less(y, z) ==> less(x, z)
    requires SeqLess(a, b, less) && SeqLess(b, c, less)
    ensures SeqLess(a, c, less)
    decreases |a|
  {
    if |a| > 0 && |b| > 0 && |c| > 0 && a[0] == b[0] == c[0] {
      SeqLessTransitive(a[1..], b[1..], c[1..], less);
    }
  }

  lemma {:induction false} SeqLessTotal<T>(a: seq<T>, b: seq<T>, less: (T, T) -> bool)
    requires forall x, y :: x != y ==> less(x, y) || less(y, x)
    requires a != b
    ensures SeqLess(a, b, less) || SeqLess(b, a, less)
    decreases |a|
  {
    if |a| > 0 && |b| > 0 && a[0] == b[0] {
      assert a == [a[0]] + a[1..] && b == [b[0]] + b[1..];
      SeqLessTotal(a[1..], b[1..], less);
    }
  }

  predicate CharLess(x: char, y: char) { x < y }

  /** Python's string comparison: lexicographic by code point. */
  predicate StrLess(a: string, b: string) { SeqLess(a, b, CharLess) }

  /** Order between cells; within one column all cells have one kind. */
  predicate CellLess(x: Cell, y: Cell)
  {
    match (x, y)
    case (Missing, Missing) => false
    case (Missing, _) => true
    case (Int(i), Int(j)) => i < j
    case (Int(_), Str(_)) => true
    case (Str(s), Str(t)) => StrLess(s, t)
    case (_, _) => false
  }

  /** The order of group keys: lexicographic over the key columns. */
  predicate KeyLess(a: Key, b: Key) { SeqLess(a, b, CellLess) }

  lemma {:induction false} CellLessIsStrictTotal()
    ensures forall x :: !CellLess(x, x)
    ensures forall x, y, z :: CellLess(x, y) && CellLess(y, z) ==> CellLess(x, z)
    ensures forall x, y :: x != y ==> CellLess(x, y) || CellLess(y, x)
  {
    forall x ensures !CellLess(x, x) {
      if x.Str? { SeqLessIrreflexive(x.s, CharLess); }
    }
    forall x, y, z | CellLess(x, y) && CellLess(y, z) ensures CellLess(x, z) {
      if x.Str? && y.Str? && z.Str? { SeqLessTransitive(x.s, y.s, z.s, CharLess); }
    }
    forall x, y | x != y ensures CellLess(x, y) || CellLess(y, x) {
      if x.Str? && y.Str? { SeqLessTotal(x.s, y.s, CharLess); }
    }
  }

  lemma {:induction false} KeyLessIrreflexive(a: Key)
    ensures !KeyLess(a, a)
  {
    CellLessIsStrictTotal();
    SeqLessIrreflexive(a, CellLess);
  }

  lemma {:induction false} KeyLessTransitive(a: Key, b: Key, c: Key)
    requires KeyLess(a, b) && KeyLess(b, c)
    ensures KeyLess(a, c)
  {
    CellLessIsStrictTotal();
    SeqLessTransitive(a, b, c, CellLess);
  }

  lemma {:induction false} KeyLessTotal(a: Key, b: Key)
    requires a != b
    ensures KeyLess(a, b) || KeyLess(b, a)
  {
    CellLessIsStrictTotal();
    SeqLessTotal(a, b, CellLess);
  }

  lemma {:induction false} KeyLessAsymmetric(a: Key, b: Key)
    requires KeyLess(a, b)
    ensures !KeyLess(b, a)
  {
    if KeyLess(b, a) {
      KeyLessTransitive(a, b, a);
      KeyLessIrreflexive(a);
    }
  }

  /** `s` starts with `p`. */
  predicate StartsWith(s: string, p: string)
  {
    |p| <= |s| && s[..|p|] == p
  }

  /** Substring test, as pandas' `Series.str.contains` on a pattern without
      regular-expression metacharacters (every pattern used here). */
  predicate Contains(s: string, p: string)
    decreases |s|
  {
    StartsWith(s, p) || (|s| > 0 && Contains(s[1..], p))
  }

  lemma {:induction false} ContainsIsLonger(s: string, p: string)
    requires Contains(s, p)
    ensures |p| <= |s|
    decreases |s|
  {
    if !StartsWith(s, p) {
      ContainsIsLonger(s[1..], p);
    }
  }
}
