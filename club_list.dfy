/** The club list page: a table of clubs with a fixed list of columns, of
    which name, country and city are visible at first. */
module ClubList {
  import opened Entities
  import opened TableColumns
  import opened TextFilter

  datatype Club = Club(id: int, name: string, country: string, city: string)

  /** The columns of the club table, in table order. */
  const ClubColumns: seq<string> := ["id", "name", "country", "city", "address", "email", "phone", "web"]

  const InitialVisibleColumns: seq<string> := ["name", "country", "city"]

  lemma KeepSnoc(init: seq<string>, last: string, keep: seq<string>)
    ensures KeepInOrder(init + [last], keep) == KeepInOrder(init, keep) + (if last in keep then [last] else [])
  {
    assert (init + [last])[..|init|] == init;
  }

  /** The club columns are all different: no two share both their first
      letter and their length. */
  lemma ClubColumnsDistinct()
    ensures Distinct(ClubColumns)
  {
    var c := ClubColumns;
    forall i, j | 0 <= i < j < |c|
      ensures c[i] != c[j]
    {
      assert |c[i]| > 0 && |c[j]| > 0;
      assert c[i][0] != c[j][0] || |c[i]| != |c[j]|;
    }
  }

  /** The first four club columns keep exactly the initial visible ones. */
  lemma InitialPrefixKept()
    ensures KeepInOrder(["id", "name", "country", "city"], InitialVisibleColumns) == InitialVisibleColumns
  {
    var v := InitialVisibleColumns;
    var c1 := ["id"];
    var c2 := c1 + ["name"];
    var c3 := c2 + ["country"];
    var c4 := c3 + ["city"];
    assert c4 == ["id", "name", "country", "city"];
    assert "id" !in v;
    KeepSnoc([], "id", v);
    assert [] + ["id"] == c1;
    KeepSnoc(c1, "name", v);
    KeepSnoc(c2, "country", v);
    KeepSnoc(c3, "city", v);
  }

  /** A name of a length no visible column has is not visible. */
  lemma NotVisibleByLength(x: string, visible: seq<string>)
    requires forall k :: 0 <= k < |visible| ==> |visible[k]| != |x|
    ensures x !in visible
  {
  }

  /** None of the last four club columns is visible at first. */
  lemma InitialSuffixHidden()
    ensures KeepInOrder(["address", "email", "phone", "web"], InitialVisibleColumns) == []
  {
    var v := InitialVisibleColumns;
    assert "address" !in v by {
      assert "address"[0] != "country"[0];
      NotVisibleByLength("address", v[..1] + v[2..]);
      assert v == v[..1] + ["country"] + v[2..];
    }
    NotVisibleByLength("email", v);
    NotVisibleByLength("phone", v);
    NotVisibleByLength("web", v);
    var c1 := ["address"];
    var c2 := c1 + ["email"];
    var c3 := c2 + ["phone"];
    var c4 := c3 + ["web"];
    assert c4 == ["address", "email", "phone", "web"];
    KeepSnoc([], "address", v);
    assert [] + ["address"] == c1;
    KeepSnoc(c1, "email", v);
    KeepSnoc(c2, "phone", v);
    KeepSnoc(c3, "web", v);
  }

  /** The initial visible columns are club columns in table order. */
  lemma InitialColumnsCanonical()
    ensures Canonical(InitialVisibleColumns, ClubColumns)
  {
    var prefix := ["id", "name", "country", "city"];
    var hidden := ["address", "email", "phone", "web"];
    assert ClubColumns == prefix + hidden;
    InitialPrefixKept();
    InitialSuffixHidden();
    KeepAppend(prefix, hidden, InitialVisibleColumns);
  }

  /** Toggling a column of the club table keeps the visible list canonical and
      flips that column's visibility; toggling any other name changes nothing. */
  lemma ClubToggle(visible: seq<string>, column: string)
    requires Canonical(visible, ClubColumns)
    ensures Canonical(Toggled(visible, ClubColumns, column), ClubColumns)
    ensures column in ClubColumns ==> (column in Toggled(visible, ClubColumns, column) <==> column !in visible)
    ensures column !in ClubColumns ==> Toggled(visible, ClubColumns, column) == visible
  {
    ClubColumnsDistinct();
    ToggleKeepsCanonical(visible, ClubColumns, column);
    if column in ClubColumns {
      ToggleFlipsVisibility(visible, ClubColumns, column);
    } else {
      ToggleUnknownColumn(visible, ClubColumns, column);
    }
  }

  class ClubListComponent {
    var columns: seq<string>
    var visibleColumns: seq<string>
    var selectedElement: Option<Club>
    /** The filter of the table's data source. */
    var dataSourceFilter: string

    /** The columns are the club columns, and the visible ones are club
        columns in table order, each once. */
    ghost predicate Valid()
      reads this
    {
      columns == ClubColumns && Canonical(visibleColumns, columns)
    }

    constructor()
      ensures Valid()
      ensures visibleColumns == InitialVisibleColumns
      ensures selectedElement.None? && dataSourceFilter == ""
    {
      columns := ClubColumns;
      visibleColumns := InitialVisibleColumns;
      selectedElement := None;
      dataSourceFilter := "";
      InitialColumnsCanonical();
    }

    /** setSelectedItem: the row becomes the selection, or the selection is
        cleared when the row was already selected. */
    method SetSelectedItem(row: Club)
      modifies this
      ensures selectedElement == ToggledSelection(old(selectedElement), row)
      ensures columns == old(columns) && visibleColumns == old(visibleColumns)
      ensures dataSourceFilter == old(dataSourceFilter)
    {
      if selectedElement == Some(row) {
        selectedElement := None;
      } else {
        selectedElement := Some(row);
      }
    }

    /** filter: the typed text, trimmed and lower-cased, filters the clubs. */
    method Filter(value: string)
      modifies this
      ensures dataSourceFilter == Normalize(value)
      ensures columns == old(columns) && visibleColumns == old(visibleColumns)
      ensures selectedElement == old(selectedElement)
    {
      dataSourceFilter := ToLower(Trim(value));
    }

    /** isColumnVisible: the column is in the visible list. */
    function IsColumnVisible(column: string): (r: bool)
      reads this
      ensures r <==> IndexOf(visibleColumns, column) != -1
    {
      column in visibleColumns
    }

    /** toggleColumnVisibility: a visible column is spliced out of the visible
        list; otherwise the list is emptied and refilled, in table order, with
        the columns that were visible or are the toggled one. The column list
        itself never changes, a club column changes its visibility and any
        other name changes nothing. */
    method ToggleColumnVisibility(column: string)
      requires Valid()
      modifies this
      ensures Valid()
      ensures visibleColumns == Toggled(old(visibleColumns), columns, column)
      ensures columns == old(columns)
      ensures column in ClubColumns ==> (IsColumnVisible(column) <==> !old(IsColumnVisible(column)))
      ensures column !in ClubColumns ==> visibleColumns == old(visibleColumns)
      ensures selectedElement == old(selectedElement) && dataSourceFilter == old(dataSourceFilter)
    {
      ClubToggle(visibleColumns, column);
      var index := IndexOf(visibleColumns, column);
      if index != -1 {
        visibleColumns := RemoveAt(visibleColumns, index);
      } else {
        var oldVisibleColumns := visibleColumns + [column];
        visibleColumns := [];
        for i := 0 to |columns|
          invariant columns == old(columns)
          invariant selectedElement == old(selectedElement) && dataSourceFilter == old(dataSourceFilter)
          invariant visibleColumns == KeepInOrder(columns[..i], oldVisibleColumns)
        {
          assert columns[..i + 1][..i] == columns[..i];
          if columns[i] in oldVisibleColumns {
            visibleColumns := visibleColumns + [columns[i]];
          }
        }
        assert columns[..|columns|] == columns;
      }
    }
  }
}
