/** The generic table of the front end: the data it shows comes with its
    columns, the columns currently visible, the selected row and the filter,
    all held in one data object that the table updates in place. */
module BasicTable {
  import opened Entities
  import opened TableColumns
  import opened TextFilter

  class BasicTableData<T(==)> {
    var columns: seq<string>
    var visibleColumns: seq<string>
    var selectedElement: Option<T>
    /** The filter of the table's data source. */
    var filter: string

    constructor(columns: seq<string>, visibleColumns: seq<string>)
      ensures this.columns == columns && this.visibleColumns == visibleColumns
      ensures selectedElement.None? && filter == ""
    {
      this.columns := columns;
      this.visibleColumns := visibleColumns;
      selectedElement := None;
      filter := "";
    }
  }

  class BasicTableComponent<T(==)> {
    var basicTableData: BasicTableData<T>

    constructor(data: BasicTableData<T>)
      ensures basicTableData == data
    {
      basicTableData := data;
    }

    /** setSelectedItem: the row becomes the selection, or the selection is
        cleared when the row was already selected. */
    method SetSelectedItem(row: T)
      modifies basicTableData
      ensures basicTableData.selectedElement == ToggledSelection(old(basicTableData.selectedElement), row)
      ensures basicTableData.columns == old(basicTableData.columns)
      ensures basicTableData.visibleColumns == old(basicTableData.visibleColumns)
      ensures basicTableData.filter == old(basicTableData.filter)
    {
      if basicTableData.selectedElement == Some(row) {
        basicTableData.selectedElement := None;
      } else {
        basicTableData.selectedElement := Some(row);
      }
    }

    /** filter: the typed text, trimmed and lower-cased, filters the data. */
    method Filter(value: string)
      modifies basicTableData
      ensures basicTableData.filter == Normalize(value)
      ensures basicTableData.columns == old(basicTableData.columns)
      ensures basicTableData.visibleColumns == old(basicTableData.visibleColumns)
      ensures basicTableData.selectedElement == old(basicTableData.selectedElement)
    {
      basicTableData.filter := ToLower(Trim(value));
    }

    /** isColumnVisible: the column is in the visible list. */
    function IsColumnVisible(column: string): (r: bool)
      reads this, basicTableData
      ensures r <==> IndexOf(basicTableData.visibleColumns, column) != -1
    {
      column in basicTableData.visibleColumns
    }

    /** toggleColumnVisibility: a visible column is spliced out of the visible
        list at its first occurrence; otherwise the visible list is emptied and
        refilled, in table order, with the columns that were visible or are the
        toggled one. */
    method ToggleColumnVisibility(column: string)
      modifies basicTableData
      ensures basicTableData.visibleColumns
              == Toggled(old(basicTableData.visibleColumns), basicTableData.columns, column)
      ensures basicTableData.columns == old(basicTableData.columns)
      ensures basicTableData.selectedElement == old(basicTableData.selectedElement)
      ensures basicTableData.filter == old(basicTableData.filter)
    {
      var data := basicTableData;
      var index := IndexOf(data.visibleColumns, column);
      if index != -1 {
        data.visibleColumns := RemoveAt(data.visibleColumns, index);
      } else {
        var oldVisibleColumns := data.visibleColumns + [column];
        data.visibleColumns := [];
        for i := 0 to |data.columns|
          invariant data.columns == old(data.columns)
          invariant data.selectedElement == old(data.selectedElement)
          invariant data.filter == old(data.filter)
          invariant data.visibleColumns == KeepInOrder(data.columns[..i], oldVisibleColumns)
        {
          assert data.columns[..i + 1][..i] == data.columns[..i];
          var tableColumn := data.columns[i];
          if tableColumn in oldVisibleColumns {
            data.visibleColumns := data.visibleColumns + [tableColumn];
          }
        }
        assert data.columns[..|data.columns|] == data.columns;
      }
    }
  }
}
