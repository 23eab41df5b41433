/**
 * Adding a tuple to a Windows Installer output
 * (WindowsInstallerBackendHelper.TryAddTupleToOutputMatchingTableDefinitions):
 * the first table definition named like the tuple's definition gets one
 * new row, whose cells are copied from the tuple's fields position by
 * position, as numbers for Number columns and as text otherwise.
 */
module WindowsInstallerBackend {
  import opened Wrappers
  import opened Data

  datatype ColumnType = Unknown | String | Localized | Number | Object | Preserved

  datatype ColumnDefinition = ColumnDefinition(name: string, columnType: ColumnType)

  datatype TableDefinition = TableDefinition(name: string, columns: seq<ColumnDefinition>)

  /** A row's cell: unset, or the value `row[i] = ...` stored. */
  datatype Cell = Unset | NumberCell(number: Option<int>) | StringCell(text: Option<string>)

  datatype Row = Row(table: TableDefinition, sourceLineNumbers: Option<SourceLineNumber>, cells: seq<Cell>)

  /** The tuple's AsNumber and AsString readings of one field. */
  datatype FieldConversions = FieldConversions(
    asNumber: Option<Field> -> Option<int>,
    asString: Option<Field> -> Option<string>)

  /** The index of the first definition with the given name (FirstOrDefault), if any. */
  function FirstNamed(definitions: seq<TableDefinition>, name: string): (r: Option<nat>)
    ensures r.None? <==> forall j :: 0 <= j < |definitions| ==> definitions[j].name != name
    ensures r.Some? ==> r.value < |definitions| && definitions[r.value].name == name
    ensures r.Some? ==> forall j :: 0 <= j < r.value ==> definitions[j].name != name
    decreases |definitions|
  {
    if |definitions| == 0 then None
    else if definitions[0].name == name then Some(0)
    else
      match FirstNamed(definitions[1..], name)
      case None => None
      case Some(k) => Some(k + 1)
  }

  /**
   * The cells of a row made from a tuple: one per column; cell i is tuple
   * field i read as a number under a Number column and as text under any
   * other column; the cells past the tuple's last field stay unset.
   */
  predicate FilledFrom(cells: seq<Cell>, tuple: IntermediateTuple, definition: TableDefinition, conversions: FieldConversions) {
    && |cells| == |definition.columns|
    && (forall i :: 0 <= i < |cells| && i < |tuple.fields| && definition.columns[i].columnType == Number ==>
          cells[i] == NumberCell(conversions.asNumber(tuple.fields[i])))
    && (forall i :: 0 <= i < |cells| && i < |tuple.fields| && definition.columns[i].columnType != Number ==>
          cells[i] == StringCell(conversions.asString(tuple.fields[i])))
    && (forall i :: |tuple.fields| <= i < |cells| ==> cells[i] == Unset)
  }

  /** The column loop of WindowsInstallerBackendHelper.TryAddTupleToOutputMatchingTableDefinitions: the row's fields, one column at a time. */
  method FillRow(tuple: IntermediateTuple, definition: TableDefinition, conversions: FieldConversions)
    returns (cells: seq<Cell>)
    ensures FilledFrom(cells, tuple, definition, conversions)
  {
    var columns := definition.columns;
    var row := new Cell[|columns|](_ => Unset);
    for i := 0 to |tuple.fields|
      invariant forall k :: 0 <= k < row.Length && k < i && columns[k].columnType == Number ==>
                  row[k] == NumberCell(conversions.asNumber(tuple.fields[k]))
      invariant forall k :: 0 <= k < row.Length && k < i && columns[k].columnType != Number ==>
                  row[k] == StringCell(conversions.asString(tuple.fields[k]))
      invariant forall k :: i <= k < row.Length ==> row[k] == Unset
    {
      if i < |columns| {
        var column := columns[i];
        match column.columnType {
          case Number => row[i] := NumberCell(conversions.asNumber(tuple.fields[i]));
          case _ => row[i] := StringCell(conversions.asString(tuple.fields[i]));
        }
      }
    }
    cells := row[..];
  }

  /** The cells of a filled row are determined by the tuple, the definition and the conversions. */
  lemma FilledRowIsUnique(c1: seq<Cell>, c2: seq<Cell>, tuple: IntermediateTuple, definition: TableDefinition,
                          conversions: FieldConversions)
    requires FilledFrom(c1, tuple, definition, conversions) && FilledFrom(c2, tuple, definition, conversions)
    ensures c1 == c2
  {
  }

  /** Fields beyond the last column are dropped: the row is the same without them. */
  lemma ExtraFieldsDropped(cells: seq<Cell>, tuple: IntermediateTuple, definition: TableDefinition,
                           conversions: FieldConversions)
    requires FilledFrom(cells, tuple, definition, conversions)
    requires |definition.columns| <= |tuple.fields|
    ensures FilledFrom(cells, tuple.(fields := tuple.fields[..|definition.columns|]), definition, conversions)
  {
  }

  /**
   * Cell i is taken from tuple field i alone: tuples that agree on field i
   * give rows that agree on cell i.
   */
  lemma CellComesFromSameField(c1: seq<Cell>, t1: IntermediateTuple, c2: seq<Cell>, t2: IntermediateTuple,
                               definition: TableDefinition, conversions: FieldConversions, i: nat)
    requires FilledFrom(c1, t1, definition, conversions) && FilledFrom(c2, t2, definition, conversions)
    requires i < |definition.columns| && i < |t1.fields| && i < |t2.fields| && t1.fields[i] == t2.fields[i]
    ensures c1[i] == c2[i]
  {
  }

  /** The rows added to the output, in order, each with the definition of the table it went to. */
  class Output {
    var rows: seq<Row>

    constructor ()
      ensures rows == []
    {
      rows := [];
    }

    /** EnsureTable(definition).CreateRow(...), with the row's fields already written. */
    method AddRow(row: Row)
      modifies this
      ensures rows == old(rows) + [row]
    {
      rows := rows + [row];
    }
  }

  /**
   * Adds the tuple as a row of the first table definition named like the
   * tuple's definition; when there is none, returns false and leaves the
   * output alone.
   */
  method TryAddTupleToOutputMatchingTableDefinitions(tuple: IntermediateTuple, output: Output,
                                                     tableDefinitions: seq<TableDefinition>,
                                                     conversions: FieldConversions)
    returns (added: bool)
    modifies output
    ensures added <==> exists j :: 0 <= j < |tableDefinitions| && tableDefinitions[j].name == tuple.definition.name
    ensures !added ==> output.rows == old(output.rows)
    ensures added ==>
              var k := FirstNamed(tableDefinitions, tuple.definition.name).value;
              && |output.rows| == |old(output.rows)| + 1
              && output.rows[..|old(output.rows)|] == old(output.rows)
              && output.rows[|old(output.rows)|].table == tableDefinitions[k]
              && output.rows[|old(output.rows)|].sourceLineNumbers == tuple.sourceLineNumbers
              && FilledFrom(output.rows[|old(output.rows)|].cells, tuple, tableDefinitions[k], conversions)
  {
    var found := FirstNamed(tableDefinitions, tuple.definition.name);
    if found.None? {
      return false;
    }

    var tableDefinition := tableDefinitions[found.value];
    var cells := FillRow(tuple, tableDefinition, conversions);
    output.AddRow(Row(tableDefinition, tuple.sourceLineNumbers, cells));
    return true;
  }
}
