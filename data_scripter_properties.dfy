/** What the script generator promises, stated about the functions of module
    DataScripter: how each kind of cell is rendered, the row terminators, the
    identity bracketing, the staging declaration and the overall layout. */
module DataScripterProperties {
  import opened JsStrings
  import opened QuoteEscaping
  import opened DataScripter

  // ----- cells: the type-name switch and the escaping -----

  /** A character-typed cell is quoted once around its escaped value: inside the
      quotes every run of apostrophes has length two, the other characters are
      those of the value in order, and where the value has no two adjacent
      apostrophes SQL reads the literal back as the value. */
  lemma CharacterCellEscaped(typeName: string, cell: Cell)
    requires typeName in CharacterTypes && !cell.isNull
    ensures var r := CellText(typeName, cell);
      && |r| >= 2 && r[0] == Apostrophe && r[|r| - 1] == Apostrophe
      && r[1..|r| - 1] == EscapeQuotes(cell.display)
      && PairedQuotes(r[1..|r| - 1])
      && WithoutQuotes(r[1..|r| - 1]) == WithoutQuotes(cell.display)
      && (NoAdjacentQuotes(cell.display) ==> Unescape(r[1..|r| - 1]) == cell.display)
  {
    var r := CellText(typeName, cell);
    assert r == "'" + EscapeQuotes(cell.display) + "'";
    assert r[1..|r| - 1] == EscapeQuotes(cell.display);
    EscapeQuotesPaired(cell.display);
    EscapeQuotesKeepsText(cell.display);
    if NoAdjacentQuotes(cell.display) {
      UnescapeEscapeQuotes(cell.display);
    }
  }

  /** Date and time cells are quoted without any escaping. */
  lemma DateTimeCellUnescaped(typeName: string, cell: Cell)
    requires typeName in DateTimeTypes && !cell.isNull
    ensures CellText(typeName, cell) == "'" + cell.display + "'"
  {
    assert RuleOf(typeName) == QuotedDateTime by {
      assert typeName !in CharacterTypes;
    }
  }

  /** Cells of a type the switch does not name are quoted without any escaping. */
  lemma FallbackCellUnescaped(typeName: string, cell: Cell)
    requires RuleOf(typeName) == QuotedFallback && !cell.isNull
    ensures CellText(typeName, cell) == "'" + cell.display + "'"
  {
  }

  /** Numeric and bit cells are the display value itself, unquoted. */
  lemma NumericCellVerbatim(typeName: string, cell: Cell)
    requires typeName in NumericTypes && !cell.isNull
    ensures CellText(typeName, cell) == cell.display
  {
    RuleOfGroups(typeName);
  }

  /** A uniqueidentifier cell is the value in braces, quoted. */
  lemma GuidCellBraced(cell: Cell)
    requires !cell.isNull
    ensures CellText("uniqueidentifier", cell) == "'{" + cell.display + "}'"
  {
    RuleOfGroups("uniqueidentifier");
  }

  /** Binary cells are never scripted: NULL whatever the value. */
  lemma BinaryCellIsNull(typeName: string, cell: Cell)
    requires typeName in BinaryTypes
    ensures CellText(typeName, cell) == "NULL"
  {
    RuleOfGroups(typeName);
  }

  /** No type name is listed under two cases of the switch, so each rule is
      chosen exactly for the names of its group, and the default branch exactly
      for the names no case lists. */
  lemma RuleOfGroups(typeName: string)
    ensures RuleOf(typeName) == Quoted <==> typeName in CharacterTypes
    ensures RuleOf(typeName) == QuotedDateTime <==> typeName in DateTimeTypes
    ensures RuleOf(typeName) == Numeric <==> typeName in NumericTypes
    ensures RuleOf(typeName) == GuidBraced <==> typeName == "uniqueidentifier"
    ensures RuleOf(typeName) == NullOnly <==> typeName in BinaryTypes
    ensures RuleOf(typeName) == QuotedFallback
      <==> typeName !in CharacterTypes + DateTimeTypes + NumericTypes + BinaryTypes + {"uniqueidentifier"}
  {
  }

  lemma GuidAndBinaryExamples()
    ensures CellText("uniqueidentifier", Cell(false, "ABCD-1234")) == "'{ABCD-1234}'"
    ensures CellText("varbinary", Cell(false, "0x00FF")) == "NULL"
  {
    GuidCellBraced(Cell(false, "ABCD-1234"));
    assert "varbinary" in BinaryTypes;
    BinaryCellIsNull("varbinary", Cell(false, "0x00FF"));
  }

  /** A value such as `O'Brien`, with a single apostrophe, in a character column
      renders as `'O''Brien'`: the apostrophe is doubled and the rest copied. */
  lemma LoneQuoteCell(typeName: string, pre: string, post: string)
    requires typeName in CharacterTypes
    requires forall k | 0 <= k < |pre| :: pre[k] != Apostrophe
    requires forall k | 0 <= k < |post| :: post[k] != Apostrophe
    ensures CellText(typeName, Cell(false, pre + "'" + post)) == "'" + pre + "''" + post + "'"
  {
    RuleOfGroups(typeName);
    LoneQuoteDoubled(pre, post);
    assert [Apostrophe] == "'" && [Apostrophe, Apostrophe] == "''";
  }

  // ----- rows -----

  /** A row as the query layer delivers it yields one value per column, in column order. */
  lemma RowValuesAligned(columns: seq<Column>, row: seq<Cell>)
    requires |row| == |columns|
    ensures |RowValues(columns, row)| == |columns|
    ensures forall i | 0 <= i < |columns| :: RowValues(columns, row)[i] == CellText(columns[i].typeName, row[i])
  {
  }

  /** A row with too few cells keeps the values of the cells present and
      records one empty value for the first missing cell. */
  lemma ShortRowRecordsFault(columns: seq<Column>, row: seq<Cell>)
    requires |row| < |columns|
    ensures |RowValues(columns, row)| == |row| + 1
    ensures forall i | 0 <= i < |row| :: RowValues(columns, row)[i] == CellText(columns[i].typeName, row[i])
    ensures RowValues(columns, row)[|row|] == ""
  {
  }

  /** A row statement starts with `select ` and ends with `;` exactly when it is
      the last row, with ` UNION ALL` otherwise. */
  lemma RowStatementTerminator(columns: seq<Column>, row: seq<Cell>, isLastRow: bool)
    ensures var r := RowStatement(columns, row, isLastRow);
      && StartsWith(r, "select ")
      && (EndsWith(r, ";") <==> isLastRow)
      && (EndsWith(r, " UNION ALL") <==> !isLastRow)
  {
    var r := RowStatement(columns, row, isLastRow);
    var body := "select " + Join(RowValues(columns, row), ",");
    assert r == body + Terminator(isLastRow);
    assert r[..7] == "select ";
    EndsWithAppended(body, Terminator(isLastRow));
    if isLastRow {
      LastCharDiffers(r, " UNION ALL");
    } else {
      LastCharDiffers(r, ";");
    }
  }

  /** Script produces one statement per row count, and among them exactly the
      one for index rowCount - 1 ends with `;`. */
  lemma OneTerminatedRow(rs: ResultSet)
    ensures |RowStatements(rs)| == rs.rowCount
    ensures forall i | 0 <= i < rs.rowCount ::
      && StartsWith(RowStatements(rs)[i], "select ")
      && (EndsWith(RowStatements(rs)[i], ";") <==> i == rs.rowCount - 1)
      && (EndsWith(RowStatements(rs)[i], " UNION ALL") <==> i != rs.rowCount - 1)
  {
    forall i | 0 <= i < rs.rowCount
      ensures && StartsWith(RowStatements(rs)[i], "select ")
              && (EndsWith(RowStatements(rs)[i], ";") <==> i == rs.rowCount - 1)
              && (EndsWith(RowStatements(rs)[i], " UNION ALL") <==> i != rs.rowCount - 1)
    {
      RowStatementTerminator(rs.columns, RowAt(rs, i), i == rs.rowCount - 1);
    }
  }

  /** On well-formed input row `i` is rendered from `rows[i]`, cell by cell. */
  lemma WellFormedRowStatements(rs: ResultSet)
    requires WellFormed(rs)
    ensures forall i | 0 <= i < rs.rowCount ::
      RowStatements(rs)[i] == "select " + Join(CellTexts(rs.columns, rs.rows[i], |rs.columns|), ",")
        + (if i == rs.rowCount - 1 then ";" else " UNION ALL")
  {
  }

  // ----- identity bracketing -----

  /** The off statement is never a row statement. */
  lemma OffLineIsNoRow(rs: ResultSet, tableName: string)
    ensures IdentityOffLine(tableName) !in RowStatements(rs)
  {
    forall i | 0 <= i < |RowStatements(rs)|
      ensures RowStatements(rs)[i] != IdentityOffLine(tableName)
    {
      RowStatementTerminator(rs.columns, RowAt(rs, i), i == rs.rowCount - 1);
      assert RowStatements(rs)[i][0] == 's';
    }
  }

  /** With an identity column the insert header opens with `identity_insert ... on`
      and the script ends with `identity_insert ... off`, which appears once, as
      the last line; without one neither statement is there. */
  lemma IdentityBracketing(rs: ResultSet, tableName: string)
    ensures StartsWith(InsertHeader(tableName, rs.columns), IdentityOnPrefix(tableName))
      <==> HasIdentityColumn(rs.columns)
    ensures IdentityOffLine(tableName) in ScriptLines(rs, tableName) <==> HasIdentityColumn(rs.columns)
    ensures HasIdentityColumn(rs.columns) ==>
      && ScriptLines(rs, tableName)[|ScriptLines(rs, tableName)| - 1] == IdentityOffLine(tableName)
      && (forall i | 0 <= i < |ScriptLines(rs, tableName)| - 1 :: ScriptLines(rs, tableName)[i] != IdentityOffLine(tableName))
      && EndsWith(ScriptText(rs, tableName), IdentityOffLine(tableName))
    ensures !HasIdentityColumn(rs.columns) ==>
      StartsWith(InsertHeader(tableName, rs.columns), "insert [#temp" + tableName + "] (")
  {
    var lines := ScriptLines(rs, tableName);
    var off := IdentityOffLine(tableName);
    OffLineIsNoRow(rs, tableName);
    if HasIdentityColumn(rs.columns) {
      var rows := RowStatements(rs);
      assert lines == rows + [off];
      forall i | 0 <= i < |lines| - 1
        ensures lines[i] != off
      {
        assert lines[i] == rows[i];
      }
      JoinEndsWithLast(lines, "\n");
      EndsWithTransitive(ScriptText(rs, tableName), Join(lines, "\n"), off);
    } else {
      assert lines == RowStatements(rs);
    }
  }

  /** Without an identity column the script ends with the last row's statement,
      and so with `;`; with no rows at all it ends with the insert header's blank line. */
  lemma ScriptEndsWithLastRow(rs: ResultSet, tableName: string)
    requires !HasIdentityColumn(rs.columns)
    ensures rs.rowCount >= 1 ==>
      && EndsWith(ScriptText(rs, tableName), RowStatements(rs)[rs.rowCount - 1])
      && EndsWith(ScriptText(rs, tableName), ";")
    ensures rs.rowCount == 0 ==> EndsWith(ScriptText(rs, tableName), " \n\n")
  {
    var lines := ScriptLines(rs, tableName);
    assert lines == RowStatements(rs);
    var s := ScriptText(rs, tableName);
    if rs.rowCount >= 1 {
      var last := lines[|lines| - 1];
      JoinEndsWithLast(lines, "\n");
      EndsWithTransitive(s, Join(lines, "\n"), last);
      assert last == RowStatement(rs.columns, RowAt(rs, rs.rowCount - 1), true);
      EndsWithTransitive(s, last, ";");
    }
  }

  // ----- the staging declaration -----

  /** The trailing flags of a declaration line, read back from its end. */
  datatype LineFlags = LineFlags(allowNull: bool, isIdentity: bool, isLast: bool)

  function ReadColumnFlags(line: string): LineFlags
  {
    var isLast := EndsWith(line, ");");
    var body := if isLast then line[..|line| - 2] else if |line| > 0 then line[..|line| - 1] else line;
    var isIdentity := EndsWith(body, " identity");
    var rest := if isIdentity then body[..|body| - 9] else body;
    LineFlags(EndsWith(rest, " NULL"), isIdentity, isLast)
  }

  /** Each column line carries ` NULL` exactly when the column allows NULL,
      ` identity` exactly when it is an identity column, and `);` exactly on the
      last column (`,` otherwise): reading the flags back from the line's end
      recovers all three. */
  lemma ColumnLineFlags(c: Column, isLast: bool)
    ensures ReadColumnFlags(ColumnLine(c, isLast)) == LineFlags(c.allowNull, c.isIdentity, isLast)
    ensures EndsWith(ColumnLine(c, isLast), ");") <==> isLast
    ensures !isLast ==> EndsWith(ColumnLine(c, isLast), ",")
  {
    var p := "--[" + c.name + "] " + DataType(c);
    assert p[|p| - 1] == DataType(c)[|DataType(c)| - 1];
    var line := ColumnLine(c, isLast);
    assert line == p + (if c.allowNull then " NULL" else "") + (if c.isIdentity then " identity" else "")
      + (if isLast then ");" else ",");
    ReadFlagsOfParts(p, c.allowNull, c.isIdentity, isLast);
    if !isLast {
      assert line[|line| - 1] == ',';
      LastCharDiffers(line, ");");
    }
  }

  /** The flag reader on a line made of a prefix ending in `]` or `)`, the two
      optional marks and a terminator. */
  lemma ReadFlagsOfParts(p: string, allowNull: bool, isIdentity: bool, isLast: bool)
    requires |p| > 0 && (p[|p| - 1] == ']' || p[|p| - 1] == ')')
    ensures ReadColumnFlags(p + (if allowNull then " NULL" else "") + (if isIdentity then " identity" else "")
      + (if isLast then ");" else ",")) == LineFlags(allowNull, isIdentity, isLast)
  {
    var n := if allowNull then " NULL" else "";
    var id := if isIdentity then " identity" else "";
    var t := if isLast then ");" else ",";
    var b := p + n + id;
    var line := b + t;
    // the terminator
    if isLast {
      EndsWithAppended(b, t);
    } else {
      assert line[|line| - 1] == ',';
      LastCharDiffers(line, ");");
    }
    assert line[..|line| - |t|] == b;
    // the identity mark
    if isIdentity {
      EndsWithAppended(p + n, id);
    } else {
      assert b == p + n;
      assert b[|b| - 1] == (if allowNull then 'L' else p[|p| - 1]);
      LastCharDiffers(b, " identity");
    }
    assert b[..|b| - |id|] == p + n;
    // the NULL mark
    if allowNull {
      EndsWithAppended(p, n);
    } else {
      assert p + n == p;
      LastCharDiffers(p, " NULL");
    }
  }

  /** The declaration is the header line then one line per column, in order;
      line i + 1 names column i with its rendered type and encodes its flags. */
  lemma DeclarationShape(tableName: string, columns: seq<Column>)
    ensures |DeclarationLines(tableName, columns)| == |columns| + 1
    ensures DeclarationLines(tableName, columns)[0] == DeclarationHeader(tableName)
    ensures StartsWith(TempTableDeclaration(tableName, columns), DeclarationHeader(tableName))
    ensures forall i | 0 <= i < |columns| ::
      && StartsWith(DeclarationLines(tableName, columns)[i + 1], "--[" + columns[i].name + "] " + DataType(columns[i]))
      && ReadColumnFlags(DeclarationLines(tableName, columns)[i + 1])
         == LineFlags(columns[i].allowNull, columns[i].isIdentity, i == |columns| - 1)
      && (i < |columns| - 1 ==> EndsWith(DeclarationLines(tableName, columns)[i + 1], ","))
  {
    forall i | 0 <= i < |columns|
      ensures && StartsWith(DeclarationLines(tableName, columns)[i + 1], "--[" + columns[i].name + "] " + DataType(columns[i]))
              && ReadColumnFlags(DeclarationLines(tableName, columns)[i + 1])
                 == LineFlags(columns[i].allowNull, columns[i].isIdentity, i == |columns| - 1)
              && (i < |columns| - 1 ==> EndsWith(DeclarationLines(tableName, columns)[i + 1], ","))
    {
      DeclarationLine(tableName, columns, i);
    }
  }

  /** Line i + 1 of the declaration is the line of column i. */
  lemma DeclarationLine(tableName: string, columns: seq<Column>, i: nat)
    requires i < |columns|
    ensures StartsWith(DeclarationLines(tableName, columns)[i + 1], "--[" + columns[i].name + "] " + DataType(columns[i]))
    ensures ReadColumnFlags(DeclarationLines(tableName, columns)[i + 1])
      == LineFlags(columns[i].allowNull, columns[i].isIdentity, i == |columns| - 1)
    ensures i < |columns| - 1 ==> EndsWith(DeclarationLines(tableName, columns)[i + 1], ",")
  {
    var isLast := i == |columns| - 1;
    var line := DeclarationLines(tableName, columns)[i + 1];
    assert line == ColumnLine(columns[i], isLast);
    ColumnLineFlags(columns[i], isLast);
  }

  // ----- getDataType -----

  /** A type name containing `char` or `text` is rendered with its size, and the
      size shows as `max` exactly when it is 2147483647; otherwise it is the
      size's decimal digits, after a minus sign when it is negative. */
  lemma SizedDataType(c: Column)
    requires IsSizedTypeName(c.typeName)
    ensures (DataType(c) == "[" + c.typeName + "] (max)") <==> c.size == MaxColumnSize
    ensures c.size != MaxColumnSize ==> DataType(c) == "[" + c.typeName + "] (" + NumberToString(c.size) + ")"
    ensures 0 <= c.size != MaxColumnSize ==> DigitsValue(NumberToString(c.size)) == c.size
    ensures c.size < 0 ==> NumberToString(c.size)[0] == '-' && DigitsValue(NumberToString(c.size)[1..]) == -c.size
  {
    if c.size != MaxColumnSize {
      var digits := NumberToString(c.size);
      var prefix := "[" + c.typeName + "] (";
      assert DataType(c) == prefix + digits + ")";
      assert (prefix + digits + ")")[|prefix|] == digits[0];
      assert (prefix + "max)")[|prefix|] == 'm';
    }
  }

  /** `decimal` and `numeric` carry precision and scale. */
  lemma DecimalDataType(c: Column)
    requires c.typeName == "decimal" || c.typeName == "numeric"
    ensures DataType(c) == "[" + c.typeName + "] (" + NumberToString(c.precision) + "," + NumberToString(c.scale) + ")"
  {
    NotSized(c.typeName);
  }

  lemma {:induction false} NoOccurrenceFrom(s: string, sub: string, from: nat)
    requires from <= |s|
    requires forall k: nat | from <= k :: !OccursAt(s, sub, k)
    ensures IndexOfFrom(s, sub, from) == -1
  {
  }

  lemma NotSized(typeName: string)
    requires typeName == "decimal" || typeName == "numeric"
    ensures !IsSizedTypeName(typeName)
  {
    var s := typeName;
    forall k: nat ensures !OccursAt(s, "char", k) && !OccursAt(s, "text", k) {
      if k + 4 <= |s| {
        assert s[k..k + 4][0] == s[k];
        assert s[k..k + 4][1] == s[k + 1];
        assert s[k..k + 4][3] == s[k + 3];
      }
    }
    NoOccurrenceFrom(s, "char", 0);
    NoOccurrenceFrom(s, "text", 0);
  }

  /** getDataType's last rule: a type name that is neither sized nor `decimal`
      or `numeric` is declared as the bare bracketed name, and only such a name is. */
  lemma PlainDataType(c: Column)
    ensures DataType(c) == "[" + c.typeName + "]"
      <==> !IsSizedTypeName(c.typeName) && c.typeName != "decimal" && c.typeName != "numeric"
  {
    var bare := "[" + c.typeName + "]";
    if IsSizedTypeName(c.typeName) || c.typeName == "decimal" || c.typeName == "numeric" {
      assert |DataType(c)| > |bare|;
    }
  }

  /** Of the type names the cell switch treats as character types, all but
      `xml` are declared with a size; `xml` is declared bare. */
  lemma CharacterDataTypes(c: Column)
    requires c.typeName in CharacterTypes
    ensures c.typeName != "xml" <==> IsSizedTypeName(c.typeName)
    ensures c.typeName == "xml" ==> DataType(c) == "[xml]"
  {
    var t := c.typeName;
    if t == "xml" {
      assert IndexOf(t, "char") == -1 && IndexOf(t, "text") == -1;
    } else if t == "varchar" || t == "nvarchar" || t == "char" || t == "nchar" {
      var k := |t| - 4;
      assert t[k..k + 4] == "char";
      assert OccursAt(t, "char", k);
    } else {
      var k := |t| - 4;
      assert t[k..k + 4] == "text";
      assert OccursAt(t, "text", k);
    }
  }

  // ----- the whole script -----

  /** Running Script twice on one scripter gives the same text: it depends on
      nothing but the result set and the table name. */
  method ScriptTwice(rs: ResultSet, tableName: string) returns (first: string, second: string)
    ensures first == second
  {
    var scripter := new DataScripter(rs, tableName);
    first := scripter.Script();
    second := scripter.Script();
  }

  // ----- one identity int column and one row -----

  /** An identity `int` column named `name` that does not allow NULL. */
  function IdentityIntColumn(name: string): Column
  {
    Column(name, "int", 4, 10, 0, false, true)
  }

  /** One such column and one row holding `value`. */
  function IdentityIntResultSet(name: string, value: string): ResultSet
  {
    ResultSet([IdentityIntColumn(name)], [[Cell(false, value)]], 1)
  }

  lemma IdentityIntRows(tableName: string, name: string, value: string)
    ensures RowStatements(IdentityIntResultSet(name, value)) == ["select " + value + ";"]
    ensures ScriptLines(IdentityIntResultSet(name, value), tableName)
      == ["select " + value + ";", IdentityOffLine(tableName)]
  {
    var rs := IdentityIntResultSet(name, value);
    RuleOfGroups("int");
    assert RowValues(rs.columns, RowAt(rs, 0)) == [value];
    assert Join([value], ",") == value;
    assert RowStatements(rs)[0] == "select " + value + ";";
    assert HasIdentityColumn(rs.columns);
  }

  lemma IntColumnLine(name: string)
    ensures ColumnLine(IdentityIntColumn(name), true) == "--[" + name + "] [int] identity);"
  {
    var c := IdentityIntColumn(name);
    assert !IsSizedTypeName("int") by {
      assert IndexOf("int", "char") == -1 && IndexOf("int", "text") == -1;
    }
    PlainDataType(c);
    assert ColumnLine(c, true) == "--[" + name + "] " + "[int]" + "" + " identity" + ");";
  }

  lemma IdentityIntDeclaration(tableName: string, name: string)
    ensures TempTableDeclaration(tableName, [IdentityIntColumn(name)])
      == DeclarationHeader(tableName) + "\n--[" + name + "] [int] identity);"
  {
    var c := IdentityIntColumn(name);
    var line := ColumnLine(c, true);
    IntColumnLine(name);
    var lines := DeclarationLines(tableName, [c]);
    assert |lines| == 2 && lines[0] == DeclarationHeader(tableName) && lines[1] == line;
    JoinTwo(lines, "\n");
  }

  lemma JoinTwo(parts: seq<string>, sep: string)
    requires |parts| == 2
    ensures Join(parts, sep) == parts[0] + sep + parts[1]
  {
    assert parts[1..] == [parts[1]];
  }

  lemma IdentityIntHeader(tableName: string, name: string)
    ensures InsertHeader(tableName, [IdentityIntColumn(name)])
      == IdentityOnPrefix(tableName) + "insert [#temp" + tableName + "] ([" + name + "])"
  {
    IdentityIntHeaderParts(tableName, name);
    HeaderText(tableName, name);
  }

  lemma IdentityIntHeaderParts(tableName: string, name: string)
    ensures InsertHeader(tableName, [IdentityIntColumn(name)])
      == IdentityOnPrefix(tableName) + ("insert [#temp" + tableName + "] (" + ("[" + name + "]") + ")")
  {
    var cs := [IdentityIntColumn(name)];
    var refs := "[" + name + "]";
    assert ColumnRefs(cs) == [refs];
    assert Join(ColumnRefs(cs), ",") == refs;
    assert HasIdentityColumn(cs);
  }

  lemma HeaderText(t: string, n: string)
    ensures IdentityOnPrefix(t) + ("insert [#temp" + t + "] (" + ("[" + n + "]") + ")")
       == IdentityOnPrefix(t) + "insert [#temp" + t + "] ([" + n + "])"
  {
  }

  /** One identity int column and one row: the declaration names the column as
      `[int] identity`, the on statement precedes the insert header, the row is a
      single `select` ending in `;`, and the off statement ends the script. */
  lemma IdentityIntExample(tableName: string, name: string, value: string)
    ensures TempTableDeclaration(tableName, IdentityIntResultSet(name, value).columns)
      == DeclarationHeader(tableName) + "\n--[" + name + "] [int] identity);"
    ensures InsertHeader(tableName, IdentityIntResultSet(name, value).columns)
      == IdentityOnPrefix(tableName) + "insert [#temp" + tableName + "] ([" + name + "])"
    ensures ScriptLines(IdentityIntResultSet(name, value), tableName)
      == ["select " + value + ";", IdentityOffLine(tableName)]
    ensures EndsWith(ScriptText(IdentityIntResultSet(name, value), tableName),
      IdentityOffLine(tableName))
  {
    IdentityIntRows(tableName, name, value);
    IdentityIntDeclaration(tableName, name);
    IdentityIntHeader(tableName, name);
    IdentityBracketing(IdentityIntResultSet(name, value), tableName);
  }
}
