/** The table's single-key sort: the comparator lambda handed to `std::sort`,
    dispatched on the column index, and the in-place sort itself. */
module Sorting {
  import opened Rows

  // ---------------------------------------------------------------------------
  // Three-way comparisons used by the comparator

  /** `std::string::compare`, reduced to its sign: -1, 0 or 1. */
  function LexCompare(a: string, b: string): (r: int)
    ensures -1 <= r <= 1
    ensures r == 0 <==> a == b
  {
    if a == [] then (if b == [] then 0 else -1)
    else if b == [] then 1
    else if a[0] < b[0] then -1
    else if a[0] > b[0] then 1
    else LexCompare(a[1..], b[1..])
  }

  /** `a` is below `b` in dictionary order: a proper prefix of `b`, or smaller at
      the first position where the two differ. */
  ghost predicate LexBelow(a: string, b: string) {
    (|a| < |b| && a == b[..|a|]) ||
    exists k :: 0 <= k < |a| && k < |b| && a[..k] == b[..k] && a[k] < b[k]
  }

  /** The comparison agrees with dictionary order. */
  lemma {:induction false} LexCompareIsDictionaryOrder(a: string, b: string)
    ensures LexCompare(a, b) < 0 <==> LexBelow(a, b)
  {
    if a == [] || b == [] {
      if a == [] && b != [] {
        assert a == b[..0];
      }
    } else if a[0] < b[0] {
      assert a[..0] == b[..0];
    } else if a[0] > b[0] {
      forall k | 0 < k <= |a| && k <= |b|
        ensures a[..k] != b[..k]
      {
        assert a[..k][0] != b[..k][0];
      }
      assert a[..|a|] == a;
    } else {
      LexCompareIsDictionaryOrder(a[1..], b[1..]);
      if LexBelow(a[1..], b[1..]) {
        if |a[1..]| < |b[1..]| && a[1..] == b[1..][..|a[1..]|] {
          assert a == [a[0]] + a[1..] && b[..|a|] == [b[0]] + b[1..][..|a[1..]|];
        } else {
          var k :| 0 <= k < |a[1..]| && k < |b[1..]| && a[1..][..k] == b[1..][..k] && a[1..][k] < b[1..][k];
          assert a[..k + 1] == [a[0]] + a[1..][..k] && b[..k + 1] == [b[0]] + b[1..][..k];
          assert a[k + 1] < b[k + 1];
        }
      }
      if LexBelow(a, b) {
        if |a| < |b| && a == b[..|a|] {
          calc {
            a[1..];
            b[..|a|][1..];
            { assert forall i :: 0 <= i < |a| - 1 ==> b[..|a|][1..][i] == b[1..][..|a| - 1][i]; }
            b[1..][..|a[1..]|];
          }
        } else {
          var k :| 0 <= k < |a| && k < |b| && a[..k] == b[..k] && a[k] < b[k];
          if k == 0 {
            assert false;
          } else {
            assert a[1..][..k - 1] == a[..k][1..] && b[1..][..k - 1] == b[..k][1..];
            assert a[1..][k - 1] < b[1..][k - 1];
          }
        }
      }
    }
  }

  /** Swapping the operands negates the comparison. */
  lemma {:induction false} LexCompareAntisymmetric(a: string, b: string)
    ensures LexCompare(b, a) == -LexCompare(a, b)
  {
    if a != [] && b != [] && a[0] == b[0] {
      LexCompareAntisymmetric(a[1..], b[1..]);
    }
  }

  /** "Not above" is transitive. */
  lemma {:induction false} LexCompareTransitive(a: string, b: string, c: string)
    requires LexCompare(a, b) <= 0 && LexCompare(b, c) <= 0
    ensures LexCompare(a, c) <= 0
  {
    if a != [] && b != [] && c != [] && a[0] == b[0] == c[0] {
      LexCompareTransitive(a[1..], b[1..], c[1..]);
    }
  }

  /** `int(x)` for a float `x`: truncation toward zero. */
  function TruncateToInt(x: real): (r: int)
    ensures 0.0 <= x ==> r as real <= x < r as real + 1.0
    ensures x < 0.0 ==> r as real - 1.0 < x <= r as real
  {
    if x >= 0.0 then x.Floor else -((-x).Floor)
  }

  function BoolToInt(b: bool): int {
    if b then 1 else 0
  }

  // ---------------------------------------------------------------------------
  // The comparator

  const SortAscending := 1
  const HeadingColumn := 4

  /** The column sort spec ImGui reports: column index and sort direction. */
  datatype ColumnSortSpec = ColumnSortSpec(columnIndex: int, sortDirection: int)

  /** `cmp` of the comparator lambda: negative when `a` goes before `b`. */
  function Compare(column: int, a: Row, b: Row): (r: int)
    ensures 0 <= column <= 3 ==> -1 <= r <= 1
    ensures column == 0 ==> (r == 0 <==> a.reg == b.reg)
    ensures column == 1 ==> (r == 0 <==> a.typecode == b.typecode)
    ensures column == 2 ==> (r == 0 <==> a.model == b.model)
    ensures column == 3 ==> (r == 0 <==> a.owner == b.owner)
    ensures column == 0 ==> (r < 0 <==> LexBelow(a.reg, b.reg))
    ensures column == 1 ==> (r < 0 <==> LexBelow(a.typecode, b.typecode))
    ensures column == 2 ==> (r < 0 <==> LexBelow(a.model, b.model))
    ensures column == 3 ==> (r < 0 <==> LexBelow(a.owner, b.owner))
    ensures column == HeadingColumn ==>
              (r < 0 <==> b.heading - a.heading >= 1.0) && (r > 0 <==> a.heading - b.heading >= 1.0)
    ensures column == 5 ==>
              (r < 0 <==> !a.turnsLeft && b.turnsLeft) && (r > 0 <==> a.turnsLeft && !b.turnsLeft)
    ensures !(0 <= column <= 5) ==> r == 0
  {
    LexCompareIsDictionaryOrder(a.reg, b.reg);
    LexCompareIsDictionaryOrder(a.typecode, b.typecode);
    LexCompareIsDictionaryOrder(a.model, b.model);
    LexCompareIsDictionaryOrder(a.owner, b.owner);
    if column == 0 then LexCompare(a.reg, b.reg)
    else if column == 1 then LexCompare(a.typecode, b.typecode)
    else if column == 2 then LexCompare(a.model, b.model)
    else if column == 3 then LexCompare(a.owner, b.owner)
    else if column == HeadingColumn then TruncateToInt(a.heading - b.heading)
    else if column == 5 then BoolToInt(a.turnsLeft) - BoolToInt(b.turnsLeft)
    else 0
  }

  /** The comparator lambda handed to `std::sort`. */
  function Less(spec: ColumnSortSpec, a: Row, b: Row): (r: bool)
    ensures spec.sortDirection == SortAscending ==> (r <==> Compare(spec.columnIndex, a, b) < 0)
    ensures spec.sortDirection != SortAscending ==> (r <==> Compare(spec.columnIndex, b, a) < 0)
  {
    CompareAntisymmetric(spec.columnIndex, a, b);
    if spec.sortDirection == SortAscending then Compare(spec.columnIndex, a, b) < 0
    else Compare(spec.columnIndex, a, b) > 0
  }

  function RowLess(spec: ColumnSortSpec): (Row, Row) -> bool {
    (a: Row, b: Row) => Less(spec, a, b)
  }

  lemma CompareAntisymmetric(column: int, a: Row, b: Row)
    ensures Compare(column, b, a) == -Compare(column, a, b)
  {
    if column == 0 {
      LexCompareAntisymmetric(a.reg, b.reg);
    } else if column == 1 {
      LexCompareAntisymmetric(a.typecode, b.typecode);
    } else if column == 2 {
      LexCompareAntisymmetric(a.model, b.model);
    } else if column == 3 {
      LexCompareAntisymmetric(a.owner, b.owner);
    } else if column == HeadingColumn {
      var x := a.heading - b.heading;
      assert b.heading - a.heading == -x;
    }
  }

  lemma CompareTransitive(column: int, a: Row, b: Row, c: Row)
    requires column != HeadingColumn
    requires Compare(column, a, b) <= 0 && Compare(column, b, c) <= 0
    ensures Compare(column, a, c) <= 0
  {
    if column == 0 {
      LexCompareTransitive(a.reg, b.reg, c.reg);
    } else if column == 1 {
      LexCompareTransitive(a.typecode, b.typecode, c.typecode);
    } else if column == 2 {
      LexCompareTransitive(a.model, b.model, c.model);
    } else if column == 3 {
      LexCompareTransitive(a.owner, b.owner, c.owner);
    }
  }

  /** The heading comparator: a row goes before another only when its heading
      is at least a whole degree smaller (ascending) or larger (descending);
      headings less than one degree apart compare equal. */
  lemma HeadingLessIff(spec: ColumnSortSpec, a: Row, b: Row)
    requires spec.columnIndex == HeadingColumn
    ensures spec.sortDirection == SortAscending ==>
              (Less(spec, a, b) <==> b.heading - a.heading >= 1.0)
    ensures spec.sortDirection != SortAscending ==>
              (Less(spec, a, b) <==> a.heading - b.heading >= 1.0)
  {
  }

  /** Headings 10.9, 10.1 and 11.0 all compare equal under the truncated
      difference, in either direction: no pair is more than one degree apart. */
  lemma HeadingTruncationTies(spec: ColumnSortSpec, a: Row, b: Row, c: Row)
    requires spec.columnIndex == HeadingColumn
    requires a.heading == 10.9 && b.heading == 10.1 && c.heading == 11.0
    ensures !Less(spec, a, b) && !Less(spec, b, a)
    ensures !Less(spec, a, c) && !Less(spec, c, a)
    ensures !Less(spec, b, c) && !Less(spec, c, b)
  {
    HeadingLessIff(spec, a, b);
    HeadingLessIff(spec, b, a);
    HeadingLessIff(spec, a, c);
    HeadingLessIff(spec, c, a);
    HeadingLessIff(spec, b, c);
    HeadingLessIff(spec, c, b);
  }

  // ---------------------------------------------------------------------------
  // Orderings

  /** What `std::sort` needs of its comparator to deliver a sorted range:
      asymmetric, and "not before" is transitive. */
  ghost predicate StrictWeakOrder<T(!new)>(less: (T, T) -> bool) {
    && (forall x, y :: less(x, y) ==> !less(y, x))
    && (forall x, y, z :: !less(y, x) && !less(z, y) ==> !less(z, x))
  }

  ghost predicate SortedBy<T>(s: seq<T>, less: (T, T) -> bool) {
    forall i, j :: 0 <= i < j < |s| ==> !less(s[j], s[i])
  }

  /** The comparator is a strict weak order for every column except the
      heading: there the truncated difference makes "compare equal" not
      transitive (0.0 ~ 0.6 ~ 1.2, but 0.0 goes before 1.2). */
  lemma RowLessStrictWeakIff(spec: ColumnSortSpec)
    ensures StrictWeakOrder(RowLess(spec)) <==> spec.columnIndex != HeadingColumn
  {
    var less := RowLess(spec);
    var col := spec.columnIndex;
    if col != HeadingColumn {
      forall x, y | less(x, y)
        ensures !less(y, x)
      {
        CompareAntisymmetric(col, x, y);
      }
      forall x, y, z | !less(y, x) && !less(z, y)
        ensures !less(z, x)
      {
        CompareAntisymmetric(col, x, y);
        CompareAntisymmetric(col, y, z);
        CompareAntisymmetric(col, x, z);
        if spec.sortDirection == SortAscending {
          CompareTransitive(col, x, y, z);
        } else {
          CompareTransitive(col, z, y, x);
        }
      }
    } else {
      var low := Row("", "", "", "", 0.0, false, true);
      var mid := low.(heading := 0.6);
      var high := low.(heading := 1.2);
      HeadingLessIff(spec, low, mid);
      HeadingLessIff(spec, mid, low);
      HeadingLessIff(spec, mid, high);
      HeadingLessIff(spec, high, mid);
      HeadingLessIff(spec, low, high);
      HeadingLessIff(spec, high, low);
      if spec.sortDirection == SortAscending {
        assert !less(mid, high) && !less(low, mid) && less(low, high);
      } else {
        assert !less(mid, low) && !less(high, mid) && less(high, low);
      }
    }
  }

  /** A range sorted by the comparator is ordered by the chosen column: each
      row compares at most equal to every later row (ascending) or at least
      equal (descending). */
  lemma SortedByColumn(spec: ColumnSortSpec, s: seq<Row>)
    requires SortedBy(s, RowLess(spec))
    ensures forall i, j :: 0 <= i < j < |s| ==>
              if spec.sortDirection == SortAscending
              then Compare(spec.columnIndex, s[i], s[j]) <= 0
              else Compare(spec.columnIndex, s[i], s[j]) >= 0
  {
    forall i, j | 0 <= i < j < |s|
      ensures if spec.sortDirection == SortAscending
              then Compare(spec.columnIndex, s[i], s[j]) <= 0
              else Compare(spec.columnIndex, s[i], s[j]) >= 0
    {
      assert !RowLess(spec)(s[j], s[i]);
      CompareAntisymmetric(spec.columnIndex, s[i], s[j]);
    }
  }

  /** A column index outside 0..5 makes the comparator compare every pair of
      rows equal, so every order of the table counts as sorted. */
  lemma OutOfRangeColumnComparesEqual(spec: ColumnSortSpec, s: seq<Row>)
    requires spec.columnIndex < 0 || spec.columnIndex > 5
    ensures forall a, b :: !Less(spec, a, b)
    ensures SortedBy(s, RowLess(spec))
  {
  }

  // ---------------------------------------------------------------------------
  // The sort

  /** The first `n` elements of `a` are sorted by `less`. */
  ghost predicate SortedPrefix<T>(a: array<T>, n: int, less: (T, T) -> bool)
    reads a
  {
    forall p, q :: 0 <= p < q < n && q < a.Length ==> !less(a[q], a[p])
  }

  method Swap<T>(a: array<T>, i: int, j: int)
    requires 0 <= i < a.Length && 0 <= j < a.Length
    modifies a
    ensures a[i] == old(a[j]) && a[j] == old(a[i])
    ensures forall k :: 0 <= k < a.Length && k != i && k != j ==> a[k] == old(a[k])
    ensures multiset(a[..]) == multiset(old(a[..]))
  {
    a[i], a[j] := a[j], a[i];
  }

  /** One insertion step: moves `a[i]` down past every element it goes before,
      so that the first `i + 1` elements are sorted when the first `i` were. */
  method InsertDown<T(!new)>(a: array<T>, i: int, less: (T, T) -> bool, ghost weak: bool)
    requires 0 <= i < a.Length
    requires weak ==> StrictWeakOrder(less) && SortedPrefix(a, i, less)
    modifies a
    ensures multiset(a[..]) == multiset(old(a[..]))
    ensures weak ==> SortedPrefix(a, i + 1, less)
  {
    var j := i;
    while j > 0 && less(a[j], a[j - 1])
      invariant 0 <= j <= i
      invariant multiset(a[..]) == multiset(old(a[..]))
      invariant weak ==> forall p, q :: 0 <= p < q <= i && p != j && q != j ==> !less(a[q], a[p])
      invariant weak ==> forall q :: j < q <= i ==> !less(a[q], a[j])
    {
      Swap(a, j - 1, j);
      j := j - 1;
    }
    if weak && j > 0 {
      forall p | 0 <= p < j - 1
        ensures !less(a[j], a[p])
      {
        assert !less(a[j - 1], a[p]) && !less(a[j], a[j - 1]);
      }
    }
  }

  /** Sorts `a` in place with `less`, standing in for `std::sort`: the result is
      a permutation of the input, and sorted whenever `less` is a strict weak
      order (for any other comparator `std::sort` promises no order). */
  method SortInPlace<T(!new)>(a: array<T>, less: (T, T) -> bool)
    modifies a
    ensures multiset(a[..]) == multiset(old(a[..]))
    ensures StrictWeakOrder(less) ==> SortedBy(a[..], less)
  {
    ghost var weak := StrictWeakOrder(less);
    var i := 0;
    while i < a.Length
      invariant 0 <= i <= a.Length
      invariant multiset(a[..]) == multiset(old(a[..]))
      invariant weak ==> SortedPrefix(a, i, less)
    {
      InsertDown(a, i, less, weak);
      i := i + 1;
    }
  }
}
