/** The DataScripter class of src/DataScripter.ts: it turns a materialised
    result set into a T-SQL script that recreates the rows in a staging table
    `[#temp<tableName>]`. The script has three parts, in this order: a
    commented-out `create table` declaration, the insert header (with
    `set identity_insert ... on;` before it when some column is an identity
    column) and one `select` statement per row joined by ` UNION ALL`, followed
    by `set identity_insert ... off;` when some column is an identity column.

    The functions below give the script as a value; the class methods build the
    same pieces with the loops of the original and are proved equal to them. */
module DataScripter {
  import opened JsStrings
  import opened QuoteEscaping

  /** Column metadata: the fields of the result set's column info that the scripter reads. */
  datatype Column = Column(
    name: string,       // columnName
    typeName: string,   // dataTypeName
    size: int,          // columnSize
    precision: int,     // numericPrecision
    scale: int,         // numericScale
    allowNull: bool,    // allowDBNull
    isIdentity: bool)

  /** One cell of a row: the null flag and the already-stringified value. */
  datatype Cell = Cell(isNull: bool, display: string)

  /** The result set handed to the scripter. `rowCount` is its own field, as in
      the original; `rows` may disagree with it (see RowAt). */
  datatype ResultSet = ResultSet(columns: seq<Column>, rows: seq<seq<Cell>>, rowCount: nat)

  /** The rendering rules the type-name switch of getDataRow chooses between. */
  datatype Rule =
    | Quoted           // character types: quoted, apostrophe runs escaped
    | QuotedDateTime   // date and time types: quoted, not escaped
    | Numeric          // numbers and bit: the display value as it is
    | GuidBraced       // uniqueidentifier: quoted and wrapped in braces
    | NullOnly         // binary types: never scripted, always NULL
    | QuotedFallback   // any other type name: quoted, not escaped

  const CharacterTypes: set<string> := {"varchar", "nvarchar", "char", "nchar", "text", "ntext", "xml"}
  const DateTimeTypes: set<string> := {"date", "datetime", "datetime2", "smalldatetime", "time"}
  const NumericTypes: set<string> :=
    {"bit", "decimal", "money", "smallmoney", "int", "bigint", "smallint", "tinyint", "numeric", "real", "float"}
  const BinaryTypes: set<string> := {"binary", "image", "timestamp", "varbinary"}

  /** The column size the result set reports for `(max)` columns. */
  const MaxColumnSize: int := 2147483647

  /** The `switch (dataTypeName)` of getDataRow: exact, case-sensitive names. */
  function RuleOf(typeName: string): Rule
  {
    if typeName in CharacterTypes then Quoted
    else if typeName in DateTimeTypes then QuotedDateTime
    else if typeName in NumericTypes then Numeric
    else if typeName == "uniqueidentifier" then GuidBraced
    else if typeName in BinaryTypes then NullOnly
    else QuotedFallback
  }

  function Quote(s: string): string
  {
    "'" + s + "'"
  }

  /** The SQL literal for one cell of a column of type `typeName`: `NULL` for a
      null cell and for the binary types, the display value itself for the
      numeric types, and a quoted string literal otherwise. */
  function CellText(typeName: string, cell: Cell): (r: string)
    ensures cell.isNull || RuleOf(typeName) == NullOnly ==> r == "NULL"
    ensures !cell.isNull && RuleOf(typeName) == Numeric ==> r == cell.display
    ensures !cell.isNull && RuleOf(typeName) != Numeric && RuleOf(typeName) != NullOnly ==>
      |r| >= 2 && r[0] == Apostrophe && r[|r| - 1] == Apostrophe
  {
    if cell.isNull then "NULL"
    else match RuleOf(typeName)
      case Quoted => Quote(EscapeQuotes(cell.display))
      case QuotedDateTime => Quote(cell.display)
      case Numeric => cell.display
      case GuidBraced => Quote("{" + cell.display + "}")
      case NullOnly => "NULL"
      case QuotedFallback => Quote(cell.display)
  }

  /** The first test of getDataType: the type name contains `char` or `text`. */
  predicate IsSizedTypeName(typeName: string)
  {
    IndexOf(typeName, "char") >= 0 || IndexOf(typeName, "text") >= 0
  }

  /** getDataType: the column's type as written in the staging declaration. It
      is always the bracketed type name, possibly followed by a parenthesised
      size or precision and scale. */
  function DataType(c: Column): (r: string)
    ensures StartsWith(r, "[" + c.typeName + "]")
    ensures r[|r| - 1] == ']' || r[|r| - 1] == ')'
  {
    if IsSizedTypeName(c.typeName) then
      var r := "[" + c.typeName + "] (" + (if c.size == MaxColumnSize then "max" else NumberToString(c.size)) + ")";
      assert r[..|c.typeName| + 2] == "[" + c.typeName + "]";
      r
    else if c.typeName == "decimal" || c.typeName == "numeric" then
      var r := "[" + c.typeName + "] (" + NumberToString(c.precision) + "," + NumberToString(c.scale) + ")";
      assert r[..|c.typeName| + 2] == "[" + c.typeName + "]";
      r
    else
      "[" + c.typeName + "]"
  }

  /** hasIdentityColumn: `columnInfo.some(column => column.isIdentity)`. */
  function HasIdentityColumn(columns: seq<Column>): (r: bool)
    ensures r <==> exists i | 0 <= i < |columns| :: columns[i].isIdentity
    decreases |columns|
  {
    if columns == [] then false
    else columns[0].isIdentity || HasIdentityColumn(columns[1..])
  }

  // ----- the staging-table declaration (getTempTableSql) -----

  function DeclarationHeader(tableName: string): string
  {
    "--create table [#temp" + tableName + "] ("
  }

  /** The declaration line of one column: the bracketed name and the type,
      then the flags, then `);` on the last column and `,` on every other. */
  function ColumnLine(c: Column, isLast: bool): (r: string)
    ensures StartsWith(r, "--[" + c.name + "] " + DataType(c))
    ensures EndsWith(r, if isLast then ");" else ",")
  {
    var p := "--[" + c.name + "] " + DataType(c);
    var t := if isLast then ");" else ",";
    var r := p
      + (if c.allowNull then " NULL" else "")
      + (if c.isIdentity then " identity" else "")
      + t;
    assert r[..|p|] == p;
    assert r[|r| - |t|..] == t;
    r
  }

  function DeclarationLines(tableName: string, columns: seq<Column>): seq<string>
  {
    [DeclarationHeader(tableName)]
      + seq(|columns|, i requires 0 <= i < |columns| => ColumnLine(columns[i], i == |columns| - 1))
  }

  /** getTempTableSql's text: the declaration lines joined by line breaks. */
  function TempTableDeclaration(tableName: string, columns: seq<Column>): (r: string)
    ensures StartsWith(r, DeclarationHeader(tableName))
  {
    JoinStartsWithFirst(DeclarationLines(tableName, columns), "\n");
    Join(DeclarationLines(tableName, columns), "\n")
  }

  // ----- the insert header (getInsertTableDefinitionSql) -----

  function IdentityOnPrefix(tableName: string): string
  {
    "\nset identity_insert [#temp" + tableName + "] on;\n\n"
  }

  function IdentityOffLine(tableName: string): string
  {
    "\nset identity_insert [#temp" + tableName + "] off;"
  }

  function ColumnRefs(columns: seq<Column>): seq<string>
  {
    seq(|columns|, i requires 0 <= i < |columns| => "[" + columns[i].name + "]")
  }

  /** getInsertTableDefinitionSql's text: the on statement exactly when some
      column is an identity column, then the insert with the column list. */
  function InsertHeader(tableName: string, columns: seq<Column>): (r: string)
    ensures StartsWith(r, IdentityOnPrefix(tableName)) <==> HasIdentityColumn(columns)
    ensures !HasIdentityColumn(columns) ==> StartsWith(r, "insert [#temp" + tableName + "] (")
    ensures EndsWith(r, ")")
  {
    var on := IdentityOnPrefix(tableName);
    var insert := "insert [#temp" + tableName + "] (" + Join(ColumnRefs(columns), ",") + ")";
    var r := (if HasIdentityColumn(columns) then on else "") + insert;
    assert r[|r| - 1] == ')';
    if HasIdentityColumn(columns) then
      assert r[..|on|] == on;
      r
    else
      assert r == insert && r[0] == 'i' && on[0] == '\n';
      assert r[..|"insert [#temp" + tableName + "] ("|] == "insert [#temp" + tableName + "] (";
      r
  }

  // ----- the row statements (getDataRow) -----

  /** The literals of the first `n` cells, in column order. */
  function CellTexts(columns: seq<Column>, row: seq<Cell>, n: nat): seq<string>
    requires n <= |columns| && n <= |row|
  {
    seq(n, k requires 0 <= k < n => CellText(columns[k].typeName, row[k]))
  }

  /** The values getDataRow collects. A row shorter than the column list makes
      the lookup of the first missing cell throw a TypeError inside the `try`;
      the `catch` block records an empty value and the loop ends there. Cells
      beyond the column list are never looked at. */
  function RowValues(columns: seq<Column>, row: seq<Cell>): (r: seq<string>)
    ensures |r| == if |columns| <= |row| then |columns| else |row| + 1
    ensures forall k | 0 <= k < |columns| && k < |row| :: r[k] == CellText(columns[k].typeName, row[k])
    ensures |row| < |columns| ==> r[|row|] == ""
  {
    if |columns| <= |row| then CellTexts(columns, row, |columns|)
    else CellTexts(columns, row, |row|) + [""]
  }

  function Terminator(isLastRow: bool): string
  {
    if isLastRow then ";" else " UNION ALL"
  }

  /** getDataRow's text: `select `, the values separated by `,`, the terminator. */
  function RowStatement(columns: seq<Column>, row: seq<Cell>, isLastRow: bool): (r: string)
    ensures StartsWith(r, "select ") && EndsWith(r, Terminator(isLastRow))
  {
    var body := "select " + Join(RowValues(columns, row), ",");
    var r := body + Terminator(isLastRow);
    assert r[..7] == "select ";
    EndsWithAppended(body, Terminator(isLastRow));
    r
  }

  /** `rows[i]`: past the end of `rows` it is `undefined`, and getDataRow then
      behaves as on a row with no cells: its first cell lookup throws and the
      row's only value is the empty one the `catch` records. */
  function RowAt(rs: ResultSet, i: nat): (r: seq<Cell>)
    ensures i < |rs.rows| ==> r == rs.rows[i]
    ensures |rs.rows| <= i ==> r == []
    ensures |rs.rows| <= i && |rs.columns| > 0 ==> RowValues(rs.columns, r) == [""]
  {
    if i < |rs.rows| then rs.rows[i] else []
  }

  /** The statement Script produces for row `i` of `rowCount`. */
  function RowStatements(rs: ResultSet): seq<string>
  {
    seq(rs.rowCount, i requires 0 <= i < rs.rowCount => RowStatement(rs.columns, RowAt(rs, i), i == rs.rowCount - 1))
  }

  // ----- the whole script (Script) -----

  /** The lines joined by line breaks after the insert header. */
  function ScriptLines(rs: ResultSet, tableName: string): seq<string>
  {
    RowStatements(rs) + (if HasIdentityColumn(rs.columns) then [IdentityOffLine(tableName)] else [])
  }

  /** Script's text: the declaration, a blank line, the insert header, a space
      and a blank line, then the final lines joined by line breaks. */
  function ScriptText(rs: ResultSet, tableName: string): (r: string)
    ensures StartsWith(r, DeclarationHeader(tableName))
    ensures EndsWith(r, Join(ScriptLines(rs, tableName), "\n"))
    ensures ScriptLines(rs, tableName) == [] ==> EndsWith(r, " \n\n")
  {
    var d := TempTableDeclaration(tableName, rs.columns);
    var h := DeclarationHeader(tableName);
    var front := d + "\n\n" + InsertHeader(tableName, rs.columns) + " \n\n";
    var body := Join(ScriptLines(rs, tableName), "\n");
    StartsWithExtended(d, "\n\n", h);
    StartsWithExtended(d + "\n\n", InsertHeader(tableName, rs.columns), h);
    StartsWithExtended(d + "\n\n" + InsertHeader(tableName, rs.columns), " \n\n", h);
    StartsWithExtended(front, body, h);
    EndsWithAppended(front, body);
    EndsWithAppended(d + "\n\n" + InsertHeader(tableName, rs.columns), " \n\n");
    assert body == "" ==> front + body == front;
    front + body
  }

  /** The input the query layer promises: one row per row count, one cell per column. */
  predicate WellFormed(rs: ResultSet)
  {
    |rs.rows| == rs.rowCount && forall i | 0 <= i < |rs.rows| :: |rs.rows[i]| == |rs.columns|
  }

  lemma PrefixSnoc<T>(xs: seq<T>, n: nat)
    requires n < |xs|
    ensures xs[..n + 1] == xs[..n] + [xs[n]]
  {
  }

  lemma CellTextsSnoc(columns: seq<Column>, row: seq<Cell>, n: nat)
    requires n < |columns| && n < |row|
    ensures CellTexts(columns, row, n + 1) == CellTexts(columns, row, n) + [CellText(columns[n].typeName, row[n])]
  {
  }

  /** The scripter object. Its two fields are set by the constructor only. */
  class DataScripter {
    const resultSet: ResultSet
    const tableName: string

    constructor (resultSet: ResultSet, tableName: string)
      ensures this.resultSet == resultSet && this.tableName == tableName
    {
      this.tableName := tableName;
      this.resultSet := resultSet;
    }

    /** Script: the staging declaration, the insert header and the row statements. */
    method Script() returns (s: string)
      ensures s == ScriptText(resultSet, tableName)
    {
      var scripted: seq<string> := [];
      var i: nat := 0;
      while i != resultSet.rowCount
        invariant i <= resultSet.rowCount
        invariant scripted == RowStatements(resultSet)[..i]
      {
        var row := RowAt(resultSet, i);
        var line := GetDataRow(row, i == resultSet.rowCount - 1);
        assert line == RowStatements(resultSet)[i];
        PrefixSnoc(RowStatements(resultSet), i);
        scripted := scripted + [line];
        i := i + 1;
      }
      assert scripted == RowStatements(resultSet);
      if HasIdentityColumn(resultSet.columns) {
        scripted := scripted + [IdentityOffLine(tableName)];
      }
      assert scripted == ScriptLines(resultSet, tableName);
      var tempTable := GetTempTableSql();
      var insert := GetInsertTableDefinitionSql();
      s := tempTable + "\n\n" + insert + " \n\n" + Join(scripted, "\n");
    }

    /** getInsertTableDefinitionSql. */
    method GetInsertTableDefinitionSql() returns (s: string)
      ensures s == InsertHeader(tableName, resultSet.columns)
    {
      var columns := resultSet.columns;
      var insert: seq<string> := [];
      var identityOn := "";
      for i := 0 to |columns|
        invariant insert == ColumnRefs(columns)[..i]
      {
        insert := insert + ["[" + columns[i].name + "]"];
      }
      if HasIdentityColumn(columns) {
        identityOn := "\nset identity_insert [#temp" + tableName + "] on;\n\n";
      }
      assert insert == ColumnRefs(columns);
      s := identityOn + "insert [#temp" + tableName + "] (" + Join(insert, ",") + ")";
    }

    /** getTempTableSql. */
    method GetTempTableSql() returns (s: string)
      ensures s == TempTableDeclaration(tableName, resultSet.columns)
    {
      var columnInfo := resultSet.columns;
      var create: seq<string> := ["--create table [#temp" + tableName + "] ("];
      assert create[0] == DeclarationHeader(tableName);
      ghost var lines := DeclarationLines(tableName, columnInfo);
      var i := 0;
      while i != |columnInfo|
        invariant i <= |columnInfo|
        invariant create == lines[..i + 1]
      {
        var dataType := DataType(columnInfo[i]);
        var isNull := if columnInfo[i].allowNull then " NULL" else "";
        var isIdentity := if columnInfo[i].isIdentity then " identity" else "";
        var tail := if i == |columnInfo| - 1 then ");" else ",";
        var line := "--[" + columnInfo[i].name + "] " + dataType + isNull + isIdentity + tail;
        assert line == lines[i + 1];
        PrefixSnoc(lines, i + 1);
        create := create + [line];
        i := i + 1;
      }
      assert create == lines;
      s := Join(create, "\n");
    }

    /** getDataRow: one `select` statement for `row`. */
    method GetDataRow(row: seq<Cell>, isLastRow: bool) returns (s: string)
      ensures s == RowStatement(resultSet.columns, row, isLastRow)
    {
      var columns := resultSet.columns;
      var rowData: seq<string> := [];
      var i := 0;
      while i != |columns|
        invariant i <= |columns| && i <= |row|
        invariant rowData == CellTexts(columns, row, i)
      {
        if i == |row| {
          // row[i] is undefined: the TypeError is caught and an empty value recorded
          rowData := rowData + [""];
          break;
        }
        var typeName := columns[i].typeName;
        var cellText: string;
        if row[i].isNull {
          cellText := "NULL";
        } else {
          var value := row[i].display;
          match RuleOf(typeName)
          case Quoted =>
            cellText := "'" + EscapeQuotes(value) + "'";
          case QuotedDateTime =>
            cellText := "'" + value + "'";
          case Numeric =>
            cellText := value;
          case GuidBraced =>
            cellText := "'{" + value + "}'";
            assert cellText == Quote("{" + value + "}");
          case NullOnly =>
            cellText := "NULL";
          case QuotedFallback =>
            cellText := "'" + value + "'";
        }
        assert cellText == CellText(typeName, row[i]);
        CellTextsSnoc(columns, row, i);
        rowData := rowData + [cellText];
        i := i + 1;
      }
      s := "select " + Join(rowData, ",") + (if isLastRow then ";" else " UNION ALL");
    }
  }
}
