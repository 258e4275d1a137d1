/** `groupData` of yleana_util.py: group rows by key columns and aggregate one
    numeric column with size, sum and mean, one output row per distinct key,
    in ascending key order. Rows are given already projected to
    (key, value) items, as `df[columns + [statVar]]` does. */
module Aggregator {
  import opened Cells

  datatype Item = Item(key: Key, value: real)

  /** One output row of `groupData`: the key columns, then size, sum, mean. */
  datatype Group = Group(key: Key, size: nat, sum: real, mean: real)

  /** Number of items whose key is `k`. */
  function CountKey(items: seq<Item>, k: Key): nat
  {
    if items == [] then 0
    else CountKey(items[..|items| - 1], k) + (if items[|items| - 1].key == k then 1 else 0)
  }

  /** Sum of the values of the items whose key is `k`. */
  function SumKey(items: seq<Item>, k: Key): real
  {
    if items == [] then 0.0
    else SumKey(items[..|items| - 1], k) + (if items[|items| - 1].key == k then items[|items| - 1].value else 0.0)
  }

  /** Number of items whose key satisfies `f`. */
  function CountWhere(items: seq<Item>, f: Key -> bool): nat
  {
    if items == [] then 0
    else CountWhere(items[..|items| - 1], f) + (if f(items[|items| - 1].key) then 1 else 0)
  }

  /** Values between 0 and 1 sum, per key, to between 0 and the count. */
  lemma {:induction false} SumKeyInUnit(items: seq<Item>, k: Key)
    requires forall i :: 0 <= i < |items| ==> 0.0 <= items[i].value <= 1.0
    ensures 0.0 <= SumKey(items, k) <= CountKey(items, k) as real
  {
    if items != [] {
      SumKeyInUnit(items[..|items| - 1], k);
    }
  }

  /** Values of at least 1 sum, per key, to at least the count. */
  lemma {:induction false} SumKeyAtLeastCount(items: seq<Item>, k: Key)
    requires forall i :: 0 <= i < |items| ==> 1.0 <= items[i].value
    ensures CountKey(items, k) as real <= SumKey(items, k)
  {
    if items != [] {
      SumKeyAtLeastCount(items[..|items| - 1], k);
    }
  }

  /** With no negative values, a key's sum is at least any one of its values. */
  lemma {:induction false} SumKeyAtLeastItem(items: seq<Item>, i: nat)
    requires forall j :: 0 <= j < |items| ==> 0.0 <= items[j].value
    requires i < |items|
    ensures items[i].value <= SumKey(items, items[i].key)
  {
    var init := items[..|items| - 1];
    if i < |items| - 1 {
      SumKeyAtLeastItem(init, i);
    } else {
      SumKeyInRange(init, items[i].key);
    }
  }

  lemma {:induction false} SumKeyInRange(items: seq<Item>, k: Key)
    requires forall j :: 0 <= j < |items| ==> 0.0 <= items[j].value
    ensures 0.0 <= SumKey(items, k)
  {
    if items != [] {
      SumKeyInRange(items[..|items| - 1], k);
    }
  }

  lemma {:induction false} SumKeyConcat(a: seq<Item>, b: seq<Item>, k: Key)
    ensures SumKey(a + b, k) == SumKey(a, k) + SumKey(b, k)
    ensures CountKey(a + b, k) == CountKey(a, k) + CountKey(b, k)
  {
    if b == [] {
      assert a + b == a;
    } else {
      assert (a + b)[..|a + b| - 1] == a + b[..|b| - 1];
      SumKeyConcat(a, b[..|b| - 1], k);
    }
  }

  /** A key held by one item only sums to that item's value. */
  lemma {:induction false} SumKeyOnly(items: seq<Item>, i: nat)
    requires i < |items|
    requires forall j :: 0 <= j < |items| && j != i ==> items[j].key != items[i].key
    ensures SumKey(items, items[i].key) == items[i].value
  {
    var init := items[..|items| - 1];
    if i < |items| - 1 {
      SumKeyOnly(init, i);
    } else {
      CountKeyPositive(init, items[i].key);
      assert items[i].key !in ItemKeys(init);
    }
  }

  function ItemKeys(items: seq<Item>): set<Key>
  {
    set i | 0 <= i < |items| :: items[i].key
  }

  function KeySet(gs: seq<Group>): set<Key>
  {
    set g | g in gs :: g.key
  }

  /** Keys strictly ascending: sorted and no key twice. */
  predicate Ascending(gs: seq<Group>)
  {
    forall i, j :: 0 <= i < j < |gs| ==> KeyLess(gs[i].key, gs[j].key)
  }

  /** Sum of the sizes of the groups whose key satisfies `f`. */
  function SizesWhere(gs: seq<Group>, f: Key -> bool): nat
  {
    if gs == [] then 0 else (if f(gs[0].key) then gs[0].size else 0) + SizesWhere(gs[1..], f)
  }

  function Single(k: Key, v: real): Group
  {
    Group(k, 1, v, v)
  }

  function Add(g: Group, v: real): Group
  {
    Group(g.key, g.size + 1, g.sum + v, (g.sum + v) / (g.size + 1) as real)
  }

  /** Count item (k, v) into the ascending group list `gs`. */
  function Insert(gs: seq<Group>, k: Key, v: real): seq<Group>
  {
    if gs == [] then [Single(k, v)]
    else if gs[0].key == k then [Add(gs[0], v)] + gs[1..]
    else if KeyLess(k, gs[0].key) then [Single(k, v)] + gs
    else [gs[0]] + Insert(gs[1..], k, v)
  }

  /** What inserting does to an ascending group list: keeps it ascending,
      bumps the group of `k` or adds a fresh one, and leaves the rest alone. */
  ghost predicate InsertedInto(r: seq<Group>, gs: seq<Group>, k: Key, v: real)
  {
    && Ascending(r)
    && KeySet(r) == KeySet(gs) + {k}
    && (forall g :: g in r && g.key != k ==> g in gs)
    && (forall g :: g in gs && g.key != k ==> g in r)
    && (forall g, h :: g in r && h in gs && g.key == k && h.key == k ==> g == Add(h, v))
    && (k !in KeySet(gs) ==> forall g :: g in r && g.key == k ==> g == Single(k, v))
  }

  lemma {:induction false} InsertCorrect(gs: seq<Group>, k: Key, v: real)
    requires Ascending(gs)
    ensures InsertedInto(Insert(gs, k, v), gs, k, v)
  {
    if gs == [] {
    } else if gs[0].key == k {
      InsertBump(gs, k, v);
    } else if KeyLess(k, gs[0].key) {
      InsertFront(gs, k, v);
    } else {
      AscendingTail(gs);
      InsertCorrect(gs[1..], k, v);
      InsertBehind(gs, k, v, Insert(gs[1..], k, v));
    }
  }

  lemma {:induction false} InsertBump(gs: seq<Group>, k: Key, v: real)
    requires Ascending(gs) && gs != [] && gs[0].key == k
    ensures InsertedInto([Add(gs[0], v)] + gs[1..], gs, k, v)
  {
    AscendingTail(gs);
    assert gs == [gs[0]] + gs[1..];
  }

  lemma {:induction false} InsertFront(gs: seq<Group>, k: Key, v: real)
    requires Ascending(gs) && gs != [] && KeyLess(k, gs[0].key)
    ensures InsertedInto([Single(k, v)] + gs, gs, k, v)
  {
    forall i | 0 <= i < |gs| ensures KeyLess(k, gs[i].key) {
      if i > 0 { KeyLessTransitive(k, gs[0].key, gs[i].key); }
    }
    forall g | g in gs ensures g.key != k { KeyLessIrreflexive(k); }
    var r := [Single(k, v)] + gs;
    forall i, j | 0 <= i < j < |r| ensures KeyLess(r[i].key, r[j].key) {
      if i > 0 { assert r[i] == gs[i - 1] && r[j] == gs[j - 1]; }
      else { assert r[j] == gs[j - 1]; }
    }
  }

  lemma {:induction false} InsertBehind(gs: seq<Group>, k: Key, v: real, rest: seq<Group>)
    requires Ascending(gs) && gs != [] && gs[0].key != k && !KeyLess(k, gs[0].key)
    requires InsertedInto(rest, gs[1..], k, v)
    ensures InsertedInto([gs[0]] + rest, gs, k, v)
  {
    KeyLessTotal(k, gs[0].key);
    AscendingTail(gs);
    BehindAscending(gs, k, rest);
    var r := [gs[0]] + rest;
    assert gs == [gs[0]] + gs[1..];
    KeySetCons(gs[0], rest);
    KeySetCons(gs[0], gs[1..]);
    forall g | g in r && g.key != k ensures g in gs {
      if g != gs[0] { assert g in rest; }
    }
    forall g | g in gs && g.key != k ensures g in r {
      if g != gs[0] { assert g in gs[1..]; }
    }
  }

  lemma {:induction false} KeySetCons(g: Group, t: seq<Group>)
    ensures KeySet([g] + t) == {g.key} + KeySet(t)
  {
    var c := [g] + t;
    forall x | x in KeySet(c) ensures x in {g.key} + KeySet(t) {
      var h :| h in c && h.key == x;
      if h != g { assert h in t; }
    }
    forall x | x in {g.key} + KeySet(t) ensures x in KeySet(c) {
      if x != g.key {
        var h :| h in t && h.key == x;
        assert h in c;
      } else {
        assert g in c;
      }
    }
  }

  /** The head of an ascending list stays in front of a list whose keys are
      its tail's keys and a key above it. */
  lemma {:induction false} BehindAscending(gs: seq<Group>, k: Key, rest: seq<Group>)
    requires Ascending(gs) && gs != [] && KeyLess(gs[0].key, k)
    requires Ascending(rest) && KeySet(rest) == KeySet(gs[1..]) + {k}
    ensures Ascending([gs[0]] + rest)
  {
    forall g | g in rest ensures KeyLess(gs[0].key, g.key) {
      if g.key != k {
        assert g.key in KeySet(rest);
        assert g.key in KeySet(gs[1..]);
        var i :| 0 <= i < |gs[1..]| && gs[1..][i].key == g.key;
        assert gs[i + 1].key == g.key;
      }
    }
    var r := [gs[0]] + rest;
    forall i, j | 0 <= i < j < |r| ensures KeyLess(r[i].key, r[j].key) {
      if i == 0 { assert r[j] in rest; }
      else { assert r[i] == rest[i - 1] && r[j] == rest[j - 1]; }
    }
  }

  /** groupData: one group per distinct key, keys strictly ascending, each with
      the number of its items, their sum and their mean. */
  function Aggregate(items: seq<Item>): (r: seq<Group>)
    ensures Ascending(r)
    ensures KeySet(r) == ItemKeys(items)
    ensures forall g :: g in r ==>
              && g.size == CountKey(items, g.key) > 0
              && g.sum == SumKey(items, g.key)
              && g.mean == g.sum / g.size as real
  {
    if items == [] then []
    else
      var prev := Aggregate(items[..|items| - 1]);
      InsertCorrect(prev, items[|items| - 1].key, items[|items| - 1].value);
      AggregateStep(items, prev, Insert(prev, items[|items| - 1].key, items[|items| - 1].value));
      Insert(prev, items[|items| - 1].key, items[|items| - 1].value)
  }

  /** The invariant of `Aggregate`: `gs` is the grouping of `items`. */
  ghost predicate Groups(gs: seq<Group>, items: seq<Item>)
  {
    && Ascending(gs)
    && KeySet(gs) == ItemKeys(items)
    && forall g :: g in gs ==>
         && g.size == CountKey(items, g.key) > 0
         && g.sum == SumKey(items, g.key)
         && g.mean == g.sum / g.size as real
  }

  lemma {:induction false} AggregateStep(items: seq<Item>, prev: seq<Group>, r: seq<Group>)
    requires items != []
    requires Groups(prev, items[..|items| - 1])
    requires InsertedInto(r, prev, items[|items| - 1].key, items[|items| - 1].value)
    ensures Groups(r, items)
  {
    var init := items[..|items| - 1];
    var last := items[|items| - 1];
    assert ItemKeys(items) == ItemKeys(init) + {last.key} by {
      forall k | k in ItemKeys(items) ensures k in ItemKeys(init) + {last.key} {
        var i :| 0 <= i < |items| && items[i].key == k;
        if i < |items| - 1 { assert init[i] == items[i]; }
      }
      forall k | k in ItemKeys(init) ensures k in ItemKeys(items) {
        var i :| 0 <= i < |init| && init[i].key == k;
        assert items[i] == init[i];
      }
    }
    forall g | g in r
      ensures g.size == CountKey(items, g.key) > 0 && g.sum == SumKey(items, g.key)
      ensures g.mean == g.sum / g.size as real
    {
      if g.key == last.key {
        if last.key in KeySet(prev) {
          var h :| h in prev && h.key == last.key;
        } else {
          CountKeyPositive(init, last.key);
        }
      }
    }
  }

  lemma {:induction false} CountKeyPositive(items: seq<Item>, k: Key)
    ensures CountKey(items, k) > 0 <==> k in ItemKeys(items)
    ensures k !in ItemKeys(items) ==> SumKey(items, k) == 0.0
  {
    if items != [] {
      var init := items[..|items| - 1];
      CountKeyPositive(init, k);
      if k in ItemKeys(items) && items[|items| - 1].key != k {
        var i :| 0 <= i < |items| && items[i].key == k;
        assert init[i] == items[i];
      }
      if k in ItemKeys(init) {
        var i :| 0 <= i < |init| && init[i].key == k;
        assert items[i] == init[i];
      }
    }
  }

  lemma {:induction false} InsertSizesWhere(gs: seq<Group>, k: Key, v: real, f: Key -> bool)
    requires Ascending(gs)
    ensures SizesWhere(Insert(gs, k, v), f) == SizesWhere(gs, f) + (if f(k) then 1 else 0)
  {
    if gs != [] && gs[0].key != k && !KeyLess(k, gs[0].key) {
      AscendingTail(gs);
      InsertSizesWhere(gs[1..], k, v, f);
    }
  }

  /** The group sizes of the keys satisfying `f` add up to the number of items
      with such a key; with `f` true everywhere, the sizes sum to the row count. */
  lemma {:induction false} AggregateSizesWhere(items: seq<Item>, f: Key -> bool)
    ensures SizesWhere(Aggregate(items), f) == CountWhere(items, f)
  {
    if items != [] {
      var init := items[..|items| - 1];
      AggregateSizesWhere(init, f);
      InsertSizesWhere(Aggregate(init), items[|items| - 1].key, items[|items| - 1].value, f);
    }
  }

  lemma {:induction false} CountWhereAll(items: seq<Item>)
    ensures CountWhere(items, k => true) == |items|
  {
    if items != [] { CountWhereAll(items[..|items| - 1]); }
  }

  function SizeTotal(gs: seq<Group>): nat
  {
    if gs == [] then 0 else gs[0].size + SizeTotal(gs[1..])
  }

  lemma {:induction false} SizeTotalIsSizesWhere(gs: seq<Group>)
    ensures SizeTotal(gs) == SizesWhere(gs, k => true)
  {
    if gs != [] { SizeTotalIsSizesWhere(gs[1..]); }
  }

  /** groupData loses no row: the group sizes add up to the input row count. */
  lemma {:induction false} SizesSumToRowCount(items: seq<Item>)
    ensures SizeTotal(Aggregate(items)) == |items|
  {
    AggregateSizesWhere(items, k => true);
    CountWhereAll(items);
    SizeTotalIsSizesWhere(Aggregate(items));
  }

  /** The first group with key `k`, if any (a merge on the key columns). */
  function Find(gs: seq<Group>, k: Key): (r: Option<Group>)
    ensures r.Some? ==> r.value in gs && r.value.key == k
    ensures r.None? <==> k !in KeySet(gs)
  {
    if gs == [] then None
    else if gs[0].key == k then Some(gs[0])
    else
      var r := Find(gs[1..], k);
      assert gs == [gs[0]] + gs[1..];
      r
  }

  /** Two ascending group lists over the same key set list the same keys in
      the same places: grouped output is fixed by its keys. */
  lemma {:induction false} AscendingUnique(a: seq<Group>, b: seq<Group>)
    requires Ascending(a) && Ascending(b) && KeySet(a) == KeySet(b)
    ensures |a| == |b|
    ensures forall i :: 0 <= i < |a| ==> a[i].key == b[i].key
  {
    assert a != [] ==> a[0].key in KeySet(a);
    assert b != [] ==> b[0].key in KeySet(b);
    if a != [] {
      assert b != [];
      assert b[0].key in KeySet(a);
      var i :| 0 <= i < |b| && b[i].key == a[0].key;
      var j :| 0 <= j < |a| && a[j].key == b[0].key;
      if i > 0 {
        assert KeyLess(b[0].key, a[0].key);
        if j > 0 { KeyLessAsymmetric(a[0].key, b[0].key); } else { KeyLessIrreflexive(a[0].key); }
      }
      assert a[0].key == b[0].key;
      AscendingTail(a);
      AscendingTail(b);
      AscendingUnique(a[1..], b[1..]);
    }
  }

  lemma {:induction false} AscendingTail(a: seq<Group>)
    requires Ascending(a) && a != []
    ensures Ascending(a[1..])
    ensures KeySet(a[1..]) == KeySet(a) - {a[0].key}
  {
    assert a == [a[0]] + a[1..];
    forall g | g in a[1..] ensures g.key != a[0].key {
      var i :| 0 <= i < |a[1..]| && a[1..][i] == g;
      assert a[i + 1] == g;
      KeyLessIrreflexive(a[0].key);
    }
  }
}
