/** The selection and the visible-column lists of the front end's tables: a table has a fixed
    list of columns, and the user shows or hides them one at a time. Hiding
    removes the column from the visible list; showing rebuilds the visible list
    in the table's column order. */
module TableColumns {
  import opened Entities

  /** setSelectedItem: clicking the selected row clears the selection, and
      clicking any other row selects it. */
  function ToggledSelection<T(==)>(current: Option<T>, row: T): (r: Option<T>)
    ensures r == Some(row) <==> current != Some(row)
    ensures r == None <==> current == Some(row)
  {
    if current == Some(row) then None else Some(row)
  }

  /** indexOf: the position of the first occurrence, or -1 when absent. */
  function IndexOf(s: seq<string>, x: string): (r: int)
    ensures r == -1 <==> x !in s
    ensures r != -1 ==> 0 <= r < |s| && s[r] == x && x !in s[..r]
  {
    if s == [] then -1
    else if s[0] == x then 0
    else
      var j := IndexOf(s[1..], x);
      if j == -1 then -1
      else
        assert s[..j + 1] == [s[0]] + s[1..][..j];
        j + 1
  }

  /** splice(index, 1): the list without its element at `index`. */
  function RemoveAt(s: seq<string>, index: int): (r: seq<string>)
    requires 0 <= index < |s|
    ensures |r| == |s| - 1
    ensures forall k :: 0 <= k < index ==> r[k] == s[k]
    ensures forall k :: index <= k < |r| ==> r[k] == s[k + 1]
  {
    s[..index] + s[index + 1..]
  }

  /** The entries of `columns` that occur in `keep`, in the order of `columns`. */
  function KeepInOrder(columns: seq<string>, keep: seq<string>): (r: seq<string>)
    ensures forall x :: x in r <==> x in columns && x in keep
  {
    if columns == [] then []
    else
      var init := columns[..|columns| - 1];
      var last := columns[|columns| - 1];
      assert columns == init + [last];
      KeepInOrder(init, keep) + (if last in keep then [last] else [])
  }

  /** toggleColumnVisibility: a visible column loses its first occurrence; a
      hidden one is shown, and the visible list is rebuilt in table order. */
  function Toggled(visible: seq<string>, columns: seq<string>, column: string): (r: seq<string>)
    ensures column in visible ==> |r| == |visible| - 1
    ensures column !in visible ==> forall x :: x in r <==> x in columns && (x in visible || x == column)
  {
    var index := IndexOf(visible, column);
    if index != -1 then RemoveAt(visible, index)
    else KeepInOrder(columns, visible + [column])
  }

  /** Hiding a visible column cuts out its first occurrence and keeps the
      other entries in their order. */
  lemma HideRemovesFirstOccurrence(visible: seq<string>, columns: seq<string>, column: string)
    requires column in visible
    ensures exists i :: 0 <= i < |visible| && visible[i] == column && column !in visible[..i]
                        && Toggled(visible, columns, column) == visible[..i] + visible[i + 1..]
  {
    var i := IndexOf(visible, column);
    assert visible[i] == column;
  }

  /** No column is kept more often than the table lists it. */
  lemma {:induction false} KeepAtMostColumns(columns: seq<string>, keep: seq<string>)
    ensures multiset(KeepInOrder(columns, keep)) <= multiset(columns)
  {
    if columns != [] {
      var init := columns[..|columns| - 1];
      assert columns == init + [columns[|columns| - 1]];
      KeepAtMostColumns(init, keep);
    }
  }

  /** Hiding removes exactly one occurrence of the column; showing leaves
      only table columns, none more often than the table lists it. */
  lemma ToggleCounts(visible: seq<string>, columns: seq<string>, column: string)
    ensures column in visible ==>
              multiset(Toggled(visible, columns, column)) == multiset(visible) - multiset{column}
    ensures column !in visible ==> multiset(Toggled(visible, columns, column)) <= multiset(columns)
  {
    if column !in visible {
      KeepAtMostColumns(columns, visible + [column]);
    } else {
      var i := IndexOf(visible, column);
      assert visible == visible[..i] + [column] + visible[i + 1..];
    }
  }

  predicate Distinct(s: seq<string>)
  {
    forall i, j :: 0 <= i < j < |s| ==> s[i] != s[j]
  }

  /** A visible list in canonical form: table columns, in table order. */
  predicate Canonical(visible: seq<string>, columns: seq<string>)
  {
    KeepInOrder(columns, visible) == visible
  }

  /** Only which columns are kept matters, not how `keep` lists them. */
  lemma {:induction false} KeepCongruent(columns: seq<string>, keep1: seq<string>, keep2: seq<string>)
    requires forall x :: x in columns ==> (x in keep1 <==> x in keep2)
    ensures KeepInOrder(columns, keep1) == KeepInOrder(columns, keep2)
  {
    if columns != [] {
      var init := columns[..|columns| - 1];
      assert forall x :: x in init ==> x in columns;
      KeepCongruent(init, keep1, keep2);
    }
  }

  lemma {:induction false} KeepAppend(a: seq<string>, b: seq<string>, keep: seq<string>)
    ensures KeepInOrder(a + b, keep) == KeepInOrder(a, keep) + KeepInOrder(b, keep)
  {
    if b != [] {
      var init := b[..|b| - 1];
      assert (a + b)[..|a + b| - 1] == a + init;
      assert (a + b)[|a + b| - 1] == b[|b| - 1];
      KeepAppend(a, init, keep);
    } else {
      assert a + b == a;
    }
  }

  /** The kept entries of a list without repeats have no repeats. */
  lemma {:induction false} KeepDistinct(columns: seq<string>, keep: seq<string>)
    requires Distinct(columns)
    ensures Distinct(KeepInOrder(columns, keep))
  {
    if columns != [] {
      var init := columns[..|columns| - 1];
      var last := columns[|columns| - 1];
      KeepDistinct(init, keep);
      assert last !in init;
    }
  }

  /** Rebuilding with the kept list itself changes nothing. */
  lemma KeepIsCanonical(columns: seq<string>, keep: seq<string>)
    ensures Canonical(KeepInOrder(columns, keep), columns)
  {
    KeepCongruent(columns, KeepInOrder(columns, keep), keep);
  }

  lemma KeepAround(before: seq<string>, column: string, after: seq<string>, keep: seq<string>)
    ensures KeepInOrder(before + [column] + after, keep)
            == KeepInOrder(before, keep) + (if column in keep then [column] else []) + KeepInOrder(after, keep)
  {
    KeepAppend(before + [column], after, keep);
    KeepAppend(before, [column], keep);
    assert [column][..0] == [];
  }

  /** Hiding a visible column that has no earlier occurrence cuts it out. */
  lemma HideMiddle(a: seq<string>, column: string, b: seq<string>, columns: seq<string>)
    requires column !in a
    ensures Toggled(a + [column] + b, columns, column) == a + b
  {
    var s := a + [column] + b;
    var r := IndexOf(s, column);
    assert s[|a|] == column;
    assert s[..|a|] == a;
    assert s[|a| + 1..] == b;
  }

  lemma SplitAt(s: seq<string>, p: int)
    requires 0 <= p < |s|
    ensures s == s[..p] + [s[p]] + s[p + 1..]
  {
  }

  /** In a list without repeats, an entry does not occur after its position. */
  lemma NotRepeated(s: seq<string>, p: int)
    requires Distinct(s) && 0 <= p < |s|
    ensures s[p] !in s[p + 1..]
  {
  }

  /** Hiding a column just shown gives back the list it was shown on. */
  lemma DropShown(columns: seq<string>, keep: seq<string>, column: string)
    requires Distinct(columns) && column in columns && column !in keep
    ensures Toggled(KeepInOrder(columns, keep + [column]), columns, column) == KeepInOrder(columns, keep)
  {
    var p := IndexOf(columns, column);
    var before := columns[..p];
    var after := columns[p + 1..];
    SplitAt(columns, p);
    NotRepeated(columns, p);
    DropShownAt(before, column, after, keep, columns);
  }

  lemma DropShownAt(before: seq<string>, column: string, after: seq<string>, keep: seq<string>, columns: seq<string>)
    requires columns == before + [column] + after
    requires column !in before && column !in after && column !in keep
    ensures Toggled(KeepInOrder(columns, keep + [column]), columns, column) == KeepInOrder(columns, keep)
  {
    var shown := keep + [column];
    KeepAround(before, column, after, shown);
    KeepAround(before, column, after, keep);
    KeepCongruent(before, shown, keep);
    KeepCongruent(after, shown, keep);
    var a := KeepInOrder(before, keep);
    var b := KeepInOrder(after, keep);
    assert KeepInOrder(columns, shown) == a + [column] + b;
    assert KeepInOrder(columns, keep) == a + b;
    HideMiddle(a, column, b, columns);
  }

  /** Toggling keeps a canonical list canonical. */
  lemma ToggleKeepsCanonical(visible: seq<string>, columns: seq<string>, column: string)
    requires Distinct(columns) && Canonical(visible, columns)
    ensures Canonical(Toggled(visible, columns, column), columns)
  {
    if column !in visible {
      KeepIsCanonical(columns, visible + [column]);
    } else {
      HideCanonical(visible, columns, column);
    }
  }

  /** Cutting an entry out of a list without repeats: the entry is gone and
      putting it back at the end restores the same members. */
  lemma RemovedOnce(s: seq<string>, i: int)
    requires Distinct(s) && 0 <= i < |s|
    ensures s[i] !in s[..i] + s[i + 1..]
    ensures forall x :: x in s[..i] + s[i + 1..] + [s[i]] <==> x in s
  {
    var rest := s[..i] + s[i + 1..];
    forall x | x in s
      ensures x in rest + [s[i]]
    {
      var k :| 0 <= k < |s| && s[k] == x;
      if k < i {
        assert rest[k] == x;
      } else if k > i {
        assert rest[k - 1] == x;
      }
    }
  }

  /** Hiding a column of a canonical list: the rest stays canonical and the
      column is no longer visible. */
  lemma HideCanonical(visible: seq<string>, columns: seq<string>, column: string)
    requires Distinct(columns) && Canonical(visible, columns) && column in visible
    ensures Canonical(Toggled(visible, columns, column), columns)
    ensures column !in Toggled(visible, columns, column)
    ensures KeepInOrder(columns, Toggled(visible, columns, column) + [column]) == visible
  {
    var hidden := Toggled(visible, columns, column);
    KeepDistinct(columns, visible);
    var i := IndexOf(visible, column);
    RemovedOnce(visible, i);
    KeepCongruent(columns, hidden + [column], visible);
    DropShown(columns, hidden, column);
  }

  /** For a column of the table, toggling flips whether it is visible. */
  lemma ToggleFlipsVisibility(visible: seq<string>, columns: seq<string>, column: string)
    requires Distinct(columns) && Canonical(visible, columns) && column in columns
    ensures column in Toggled(visible, columns, column) <==> column !in visible
  {
    if column in visible {
      HideCanonical(visible, columns, column);
    }
  }

  /** Toggling the same column twice restores the visible list. */
  lemma ToggleTwiceRestores(visible: seq<string>, columns: seq<string>, column: string)
    requires Distinct(columns) && Canonical(visible, columns) && column in columns
    ensures Toggled(Toggled(visible, columns, column), columns, column) == visible
  {
    if column in visible {
      HideCanonical(visible, columns, column);
    } else {
      DropShown(columns, visible, column);
    }
  }

  /** Toggling a name that is not a column of the table changes nothing. */
  lemma ToggleUnknownColumn(visible: seq<string>, columns: seq<string>, column: string)
    requires Canonical(visible, columns) && column !in columns
    ensures Toggled(visible, columns, column) == visible
  {
    assert column !in visible;
    KeepCongruent(columns, visible + [column], visible);
  }
}
