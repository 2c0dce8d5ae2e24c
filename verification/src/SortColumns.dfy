/** Sorting the columns of a query result: `sortColumns`. */
module SortColumns {
  import opened Bytes
  import opened Distinctness

  type Cell = string

  // ------------------------------------------------------------------------------
  // sort.Strings
  // ------------------------------------------------------------------------------

  /** Go's order on strings: byte by byte. */
  predicate Leq(a: bytes, b: bytes) {
    a == [] || (b != [] && (a[0] < b[0] || (a[0] == b[0] && Leq(a[1..], b[1..]))))
  }

  /** A name comes before another one if it is a prefix of it, or smaller in the first byte
      in which they differ. */
  lemma {:induction false} LeqExactly(a: bytes, b: bytes)
    ensures Leq(a, b) <==> a <= b || exists i :: 0 <= i < |a| && i < |b| && a[..i] == b[..i] && a[i] < b[i]
  {
    if a != [] && b != [] {
      LeqExactly(a[1..], b[1..]);
      if a[0] == b[0] {
        assert a == [a[0]] + a[1..] && b == [b[0]] + b[1..];
        if i :| 0 <= i < |a| && i < |b| && a[..i] == b[..i] && a[i] < b[i] {
          assert a[1..][..i - 1] == a[..i][1..] && b[1..][..i - 1] == b[..i][1..];
          assert a[1..][i - 1] < b[1..][i - 1];
        }
        if i :| 0 <= i < |a[1..]| && i < |b[1..]| && a[1..][..i] == b[1..][..i] && a[1..][i] < b[1..][i] {
          assert a[..i + 1] == [a[0]] + a[1..][..i] && b[..i + 1] == [b[0]] + b[1..][..i];
        }
      } else {
        assert a[..0] == b[..0];
        assert forall i :: 0 < i < |a| && i < |b| && a[..i] == b[..i] ==> a[..i][0] == b[..i][0];
      }
    }
  }

  lemma {:induction false} LeqTotal(a: bytes, b: bytes)
    ensures Leq(a, b) || Leq(b, a)
  {
    if a != [] && b != [] {
      LeqTotal(a[1..], b[1..]);
    }
  }

  lemma {:induction false} LeqAntisymmetric(a: bytes, b: bytes)
    requires Leq(a, b) && Leq(b, a)
    ensures a == b
  {
    if a != [] {
      LeqAntisymmetric(a[1..], b[1..]);
      assert a == [a[0]] + a[1..] && b == [b[0]] + b[1..];
    }
  }

  lemma {:induction false} LeqTransitive(a: bytes, b: bytes, c: bytes)
    requires Leq(a, b) && Leq(b, c)
    ensures Leq(a, c)
  {
    if a != [] && a[0] == b[0] && b[0] == c[0] {
      LeqTransitive(a[1..], b[1..], c[1..]);
    }
  }

  predicate Sorted(s: seq<bytes>) {
    forall i, j :: 0 <= i < j < |s| ==> Leq(s[i], s[j])
  }

  function Insert(x: bytes, s: seq<bytes>): (r: seq<bytes>)
    ensures |r| == |s| + 1 && multiset(r) == multiset(s) + multiset{x}
  {
    if s == [] then [x]
    else if Leq(x, s[0]) then [x] + s
    else
      assert s == [s[0]] + s[1..];
      [s[0]] + Insert(x, s[1..])
  }

  function Sort(s: seq<bytes>): (r: seq<bytes>)
    ensures |r| == |s| && multiset(r) == multiset(s)
  {
    if s == [] then []
    else
      assert s == [s[0]] + s[1..];
      Insert(s[0], Sort(s[1..]))
  }

  lemma {:induction false} InsertSorted(x: bytes, s: seq<bytes>)
    requires Sorted(s)
    ensures Sorted(Insert(x, s))
  {
    if s != [] {
      if Leq(x, s[0]) {
        forall j | 0 <= j < |s|
          ensures Leq(x, s[j])
        {
          if j > 0 {
            LeqTransitive(x, s[0], s[j]);
          }
        }
      } else {
        LeqTotal(x, s[0]);
        InsertSorted(x, s[1..]);
        var r := Insert(x, s[1..]);
        forall j | 0 <= j < |r|
          ensures Leq(s[0], r[j])
        {
          assert r[j] in multiset(r);
          if r[j] != x {
            assert r[j] in multiset(s[1..]);
            assert r[j] in s[1..];
          }
        }
      }
    }
  }

  lemma {:induction false} SortSorted(s: seq<bytes>)
    ensures Sorted(Sort(s))
  {
    if s != [] {
      SortSorted(s[1..]);
      InsertSorted(s[0], Sort(s[1..]));
    }
  }

  /** Sorting has one result, so it does not matter how the library finds it. */
  lemma {:induction false} SortedIsUnique(s: seq<bytes>, t: seq<bytes>)
    requires Sorted(s) && Sorted(t) && multiset(s) == multiset(t)
    ensures s == t
  {
    SameLength(s, t);
    if s != [] {
      HeadsAgree(s, t);
      TailsAgree(s, t);
      SortedIsUnique(s[1..], t[1..]);
      assert s == [s[0]] + s[1..] && t == [t[0]] + t[1..];
    }
  }

  lemma SameLength(s: seq<bytes>, t: seq<bytes>)
    requires multiset(s) == multiset(t)
    ensures |s| == |t|
  {
    assert |multiset(s)| == |s| && |multiset(t)| == |t|;
  }

  lemma HeadsAgree(s: seq<bytes>, t: seq<bytes>)
    requires Sorted(s) && Sorted(t) && multiset(s) == multiset(t) && s != [] && t != []
    ensures s[0] == t[0]
  {
    assert s[0] in multiset(t) && t[0] in multiset(s);
    HeadIsLeast(s, t[0]);
    HeadIsLeast(t, s[0]);
    LeqAntisymmetric(s[0], t[0]);
  }

  lemma TailsAgree(s: seq<bytes>, t: seq<bytes>)
    requires multiset(s) == multiset(t) && s != [] && t != [] && s[0] == t[0]
    ensures multiset(s[1..]) == multiset(t[1..])
  {
    assert s == [s[0]] + s[1..] && t == [t[0]] + t[1..];
    assert multiset(s[1..]) == multiset(s) - multiset{s[0]};
    assert multiset(t[1..]) == multiset(t) - multiset{t[0]};
  }

  lemma HeadIsLeast(s: seq<bytes>, x: bytes)
    requires s != [] && Sorted(s) && x in s
    ensures Leq(s[0], x)
  {
    LeqTotal(x, x);
  }

  // ------------------------------------------------------------------------------
  // Rows
  // ------------------------------------------------------------------------------

  function IndexOf(cols: seq<bytes>, c: bytes): (i: nat)
    requires c in cols
    ensures i < |cols| && cols[i] == c
  {
    if cols[0] == c then 0 else 1 + IndexOf(cols[1..], c)
  }

  predicate Wide(cols: seq<bytes>, rows: seq<seq<Cell>>) {
    forall k :: 0 <= k < |rows| ==> |rows[k]| >= |cols|
  }

  lemma SortHasSame(cols: seq<bytes>)
    ensures forall c :: c in Sort(cols) <==> c in cols
  {
    assert forall c :: c in Sort(cols) <==> c in multiset(Sort(cols));
  }

  /** A row with its cells in the order of the sorted columns. */
  function Reordered(cols: seq<bytes>, vals: seq<Cell>): (r: seq<Cell>)
    requires |vals| >= |cols|
    ensures |r| == |cols|
  {
    SortHasSame(cols);
    seq(|cols|, i requires 0 <= i < |cols| => vals[IndexOf(cols, Sort(cols)[i])])
  }

  lemma IndexIsUnique(cols: seq<bytes>, i: nat)
    requires Distinct(cols) && i < |cols|
    ensures IndexOf(cols, cols[i]) == i
  {
    var j := IndexOf(cols, cols[i]);
    assert cols[j] == cols[i];
  }

  lemma SortKeepsDistinct(cols: seq<bytes>)
    requires Distinct(cols)
    ensures Distinct(Sort(cols))
  {
    DistinctPermutation(cols, Sort(cols));
  }

  /** Under every column name stands the same cell as before. */
  lemma SameCells(cols: seq<bytes>, vals: seq<Cell>, c: bytes)
    requires Distinct(cols) && |vals| >= |cols| && c in cols
    ensures c in Sort(cols) && Reordered(cols, vals)[IndexOf(Sort(cols), c)] == vals[IndexOf(cols, c)]
  {
    SortHasSame(cols);
  }

  /** Sorting again changes nothing. */
  lemma SortTwice(cols: seq<bytes>, vals: seq<Cell>)
    requires Distinct(cols) && |vals| >= |cols|
    ensures Sort(Sort(cols)) == Sort(cols)
    ensures Reordered(Sort(cols), Reordered(cols, vals)) == Reordered(cols, vals)
  {
    var s := Sort(cols);
    SortHasSame(cols);
    SortSorted(cols);
    SortSorted(s);
    SortedIsUnique(Sort(s), s);
    SortKeepsDistinct(cols);
    forall i | 0 <= i < |s|
      ensures Reordered(s, Reordered(cols, vals))[i] == Reordered(cols, vals)[i]
    {
      IndexIsUnique(s, i);
    }
  }

  /** A row is wide enough and `r` is the same row in the order of the sorted columns. */
  predicate IsReordered(cols: seq<bytes>, vals: seq<Cell>, r: seq<Cell>) {
    |vals| >= |cols| && r == Reordered(cols, vals)
  }

  predicate AllReordered(cols: seq<bytes>, rows: seq<seq<Cell>>, rows': seq<seq<Cell>>) {
    |rows'| == |rows| && forall k :: 0 <= k < |rows| ==> IsReordered(cols, rows[k], rows'[k])
  }

  class Row {
    var columns: seq<bytes>
    var values: seq<seq<Cell>>

    /** sortColumns. Duplicate names leave everything as it is; a row that is too short
        makes it panic after the columns, but not the values, have been replaced. */
    method SortColumns() returns (panicked: bool)
      modifies this
      ensures !Distinct(old(columns)) ==> !panicked && columns == old(columns) && values == old(values)
      ensures Distinct(old(columns)) ==> columns == Sort(old(columns)) && (panicked <==> !Wide(old(columns), old(values)))
      ensures panicked ==> values == old(values)
      ensures Distinct(old(columns)) && !panicked ==> AllReordered(old(columns), old(values), values)
    {
      var duplicate, colMap := ColumnMap(columns);
      if duplicate {
        return false;
      }
      ghost var cols := columns;
      columns := Sort(columns);
      var valArray;
      panicked, valArray := NewValues(cols, colMap, columns, values);
      if !panicked {
        values := valArray;
      }
    }
  }

  method NewValues(ghost cols: seq<bytes>, colMap: map<bytes, nat>, columns: seq<bytes>, values: seq<seq<Cell>>)
    returns (short: bool, valArray: seq<seq<Cell>>)
    requires Distinct(cols) && columns == Sort(cols) && MapsColumns(cols, colMap)
    ensures short <==> !Wide(cols, values)
    ensures !short ==> AllReordered(cols, values, valArray)
  {
    valArray := [];
    var i := 0;
    while i < |values|
      invariant 0 <= i <= |values|
      invariant AllReordered(cols, values[..i], valArray)
    {
      var newVals;
      short, newVals := NewRowOf(cols, colMap, columns, values[i]);
      if short {
        return;
      }
      OneMoreRow(cols, values[..i], valArray, values[i], newVals);
      assert values[..i + 1] == values[..i] + [values[i]];
      valArray := valArray + [newVals];
      i := i + 1;
    }
    assert values[..i] == values;
    ReorderedIsWide(cols, values, valArray);
    return false, valArray;
  }

  /** A row is reordered exactly if it is wide enough. */
  method NewRowOf(ghost cols: seq<bytes>, colMap: map<bytes, nat>, columns: seq<bytes>, vals: seq<Cell>)
    returns (short: bool, newVals: seq<Cell>)
    requires Distinct(cols) && columns == Sort(cols) && MapsColumns(cols, colMap)
    ensures short <==> |vals| < |cols|
    ensures !short ==> IsReordered(cols, vals, newVals)
  {
    MappedBelow(cols, colMap, columns);
    short, newVals := NewRow(colMap, columns, vals);
    if !short {
      LastColumnSeen(cols, colMap, columns, |vals|);
      RowIsReordered(cols, colMap, columns, vals, newVals);
    }
  }

  lemma OneMoreRow(cols: seq<bytes>, rows: seq<seq<Cell>>, rows': seq<seq<Cell>>, vals: seq<Cell>, r: seq<Cell>)
    requires AllReordered(cols, rows, rows') && IsReordered(cols, vals, r)
    ensures AllReordered(cols, rows + [vals], rows' + [r])
  {
  }

  lemma ReorderedIsWide(cols: seq<bytes>, rows: seq<seq<Cell>>, rows': seq<seq<Cell>>)
    requires AllReordered(cols, rows, rows')
    ensures Wide(cols, rows)
  {
    forall k | 0 <= k < |rows|
      ensures |rows[k]| >= |cols|
    {
      assert IsReordered(cols, rows[k], rows'[k]);
    }
  }

  /** The map holds every column under its index. */
  predicate MapsColumns(cols: seq<bytes>, colMap: map<bytes, nat>) {
    forall c :: c in cols ==> c in colMap && colMap[c] == IndexOf(cols, c)
  }

  method ColumnMap(columns: seq<bytes>) returns (duplicate: bool, colMap: map<bytes, nat>)
    ensures duplicate <==> !Distinct(columns)
    ensures !duplicate ==> MapsColumns(columns, colMap)
  {
    colMap := map[];
    var i := 0;
    while i < |columns|
      invariant 0 <= i <= |columns|
      invariant Distinct(columns[..i])
      invariant forall c :: c in colMap <==> c in columns[..i]
      invariant forall c :: c in colMap ==> colMap[c] < i && columns[colMap[c]] == c
    {
      assert columns[..i + 1] == columns[..i] + [columns[i]];
      if columns[i] in colMap {
        assert columns[colMap[columns[i]]] == columns[i];
        return true, colMap;
      }
      colMap := colMap[columns[i] := i];
      i := i + 1;
    }
    assert columns[..i] == columns;
    forall c | c in columns
      ensures colMap[c] == IndexOf(columns, c)
    {
      IndexIsUnique(columns, colMap[c]);
    }
    return false, colMap;
  }

  /** The cells of one row in the new order; `short` when one of them is missing. */
  method NewRow(colMap: map<bytes, nat>, columns: seq<bytes>, vals: seq<Cell>) returns (short: bool, newVals: seq<Cell>)
    requires forall m :: 0 <= m < |columns| ==> columns[m] in colMap
    ensures short <==> exists m :: 0 <= m < |columns| && colMap[columns[m]] >= |vals|
    ensures !short ==> |newVals| == |columns| && forall m :: 0 <= m < |columns| ==> newVals[m] == vals[colMap[columns[m]]]
  {
    newVals := [];
    var j := 0;
    while j < |columns|
      invariant 0 <= j <= |columns| && |newVals| == j
      invariant forall m :: 0 <= m < j ==> colMap[columns[m]] < |vals| && newVals[m] == vals[colMap[columns[m]]]
    {
      if colMap[columns[j]] >= |vals| {
        return true, [];
      }
      newVals := newVals + [vals[colMap[columns[j]]]];
      j := j + 1;
    }
    return false, newVals;
  }

  lemma MappedBelow(cols: seq<bytes>, colMap: map<bytes, nat>, columns: seq<bytes>)
    requires MapsColumns(cols, colMap) && columns == Sort(cols)
    ensures forall m :: 0 <= m < |columns| ==> columns[m] in colMap && colMap[columns[m]] < |cols|
  {
    SortHasSame(cols);
    forall m | 0 <= m < |columns|
      ensures columns[m] in colMap && colMap[columns[m]] < |cols|
    {
      assert columns[m] in cols;
    }
  }

  lemma RowIsReordered(cols: seq<bytes>, colMap: map<bytes, nat>, columns: seq<bytes>, vals: seq<Cell>, newVals: seq<Cell>)
    requires MapsColumns(cols, colMap) && columns == Sort(cols) && |vals| >= |cols| && |newVals| == |cols|
    requires forall m :: 0 <= m < |columns| ==> columns[m] in colMap && colMap[columns[m]] < |vals| && newVals[m] == vals[colMap[columns[m]]]
    ensures IsReordered(cols, vals, newVals)
  {
    SortHasSame(cols);
    forall m | 0 <= m < |cols|
      ensures newVals[m] == Reordered(cols, vals)[m]
    {
      assert columns[m] in cols;
    }
  }

  /** The column at the end makes sure that the row is wide enough. */
  lemma LastColumnSeen(cols: seq<bytes>, colMap: map<bytes, nat>, columns: seq<bytes>, width: nat)
    requires Distinct(cols) && columns == Sort(cols)
    requires MapsColumns(cols, colMap)
    requires forall m :: 0 <= m < |columns| ==> columns[m] in colMap && colMap[columns[m]] < width
    ensures width >= |cols|
  {
    if cols != [] {
      var c := cols[|cols| - 1];
      IndexIsUnique(cols, |cols| - 1);
      SortHasSame(cols);
      assert c in columns;
      var m :| 0 <= m < |columns| && columns[m] == c;
    }
  }
}
