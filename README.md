# DataScripter in Dafny

A verified model of `DataScripter`, the script generator of the SimpleDataScripter
extension. It takes a materialised SQL result set and a table name. The result set
is ordered column metadata plus rows of cells, and each cell has a null flag and a
display string. It returns one T-SQL script with three parts, in this order:

1. a commented-out `create table [#temp<name>] (` declaration with one
   `--[col] type[ NULL][ identity]` line per column, the last one closed by `);`;
2. the insert header `insert [#temp<name>] ([c1],[c2],...)`, preceded by
   `set identity_insert [#temp<name>] on;` when some column is an identity column;
3. one `select v1,v2,...` statement per row, joined by ` UNION ALL`, the last one
   ending in `;`, then `set identity_insert [#temp<name>] off;` when some column is an
   identity column.

Files:

- `js_strings.dfy` (module `JsStrings`): the JavaScript built-ins the class relies on.
  These are `join`, `indexOf` and the decimal rendering of an integer in a template literal.
- `quote_escaping.dfy` (module `QuoteEscaping`): the `replace(/'+/g, "''")` escaping
  and its laws.
- `data_scripter.dfy` (module `DataScripter`): the entities (`Column`, `Cell`,
  `ResultSet`), the `Rule` chosen by the type-name switch, and the script as a value
  (`CellText`, `DataType`, `ColumnLine`, `InsertHeader`, `RowStatement`, `ScriptText`).
  It also holds the class `DataScripter`. Its methods `Script`, `GetDataRow`,
  `GetTempTableSql` and `GetInsertTableDefinitionSql` build the pieces with the
  original's loops and are proved equal to those functions. `getDataType` and
  `hasIdentityColumn` are pure in the original and are functions here.
- `data_scripter_properties.dfy` (module `DataScripterProperties`): the properties of
  the generated script.

Modelling decisions:

- The class's two fields are assigned only in the constructor, so they are `const`.
  The methods therefore change nothing.
- The `try`/`catch` of `getDataRow` is modelled for the faults that can really happen
  on typed input: a row with fewer cells than columns, or a row index past the end of
  `rows` (`rows[i]` is `undefined`). The cell lookup then throws a `TypeError`. The
  `catch` records an empty value and the loop stops. `RowValues` gives that result,
  and `RowAt` turns a missing row into a row with no cells, which behaves the same.
  `WellFormed` states the input the query layer promises. `RowValuesAligned` and
  `WellFormedRowStatements` give the fault-free rendering under it.
- `Unescape` is how SQL reads the body of a quoted literal (`''` stands for `'`). It
  is the reference the escaping is checked against.
- The escaping is exactly what the regular expression `/'+/g` does. Each maximal
  run of apostrophes becomes `''`, so a lone apostrophe is doubled, while a run of
  two or more shrinks to two. SQL's reading of the literal therefore gives the value
  back only when no two apostrophes are adjacent (`UnescapeEscapeQuotes`). In
  general it gives the value with each run collapsed to one apostrophe
  (`UnescapeEscapeQuotesCollapses`, `UnescapeEscapeQuotesLosesRuns`).
- Date/time cells and cells of types the switch does not list are quoted without
  any escaping, as the code does.
- All rows go into one statement; the code has no batching and no type rewrite.
- `xml` is in the switch's character group, so its cells are escaped and quoted. But
  `xml` contains neither `char` nor `text`, so `getDataType` declares it as bare
  `[xml]` (`CharacterDataTypes`).

## Model

| member | source | states |
|---|---|---|
| `JsStrings.Join` | src/DataScripter.ts:26 | `Array.prototype.join`, whose laws are stated by the three rows that follow (`join` is also used at :50, :74 and :157) |
| `JsStrings.JoinSnoc` | src/DataScripter.ts:26 | joining one more part appends the separator and that part, as `join` does |
| `JsStrings.JoinStartsWithFirst` | src/DataScripter.ts:74 | a non-empty join starts with its first part |
| `JsStrings.JoinEndsWithLast` | src/DataScripter.ts:26 | a non-empty join ends with its last part |
| `JsStrings.IndexOfFrom` | src/DataScripter.ts:80 | `indexOf` returns the first position at or after `from` where the substring occurs, or -1 when it occurs nowhere there |
| `JsStrings.IndexOf` | src/DataScripter.ts:80 | `indexOf(sub)`, which is `IndexOfFrom` from position 0; its law is the next row |
| `JsStrings.IndexOfFound` | src/DataScripter.ts:80 | `indexOf(sub) >= 0` holds exactly when `sub` occurs somewhere in the type name |
| `JsStrings.NumberToString` | src/DataScripter.ts:81-86 | an integer size, precision or scale renders as decimal digits, with a leading `-` exactly for negative numbers; the digits after the sign read back as the absolute value and have no leading zero (only 0 itself renders as `0`) |
| `JsStrings.NatToString` | src/DataScripter.ts:81 | a natural number renders as decimal digits with no leading zero; only 0 renders as `0` |
| `JsStrings.NegativeText` | src/DataScripter.ts:81 | a negative number renders as `-` followed by digits that have no leading zero and read back as its absolute value |
| `JsStrings.NatToStringRoundTrip` | src/DataScripter.ts:81 | reading the rendered digits back gives the number |
| `QuoteEscaping.SkipQuotes` | src/DataScripter.ts:111 | the `'+` match consumes exactly the maximal run of apostrophes at the front, and what follows does not start with an apostrophe |
| `QuoteEscaping.EscapeQuotes` | src/DataScripter.ts:111 | the escaped text is empty exactly when the value is; it starts with the value's first character, or with `''` when the value starts with an apostrophe |
| `QuoteEscaping.EscapeQuotesPaired` | src/DataScripter.ts:111 | in the escaped text every maximal run of apostrophes has length exactly two |
| `QuoteEscaping.PairedQuotesFixed` | src/DataScripter.ts:111 | escaping leaves a text whose apostrophe runs all have length two unchanged |
| `QuoteEscaping.FixedPairedQuotes` | src/DataScripter.ts:111 | a text that escaping leaves unchanged has only apostrophe runs of length two |
| `QuoteEscaping.EscapeQuotesFixedPoints` | src/DataScripter.ts:111 | escaping leaves a text unchanged if and only if all its apostrophe runs have length two |
| `QuoteEscaping.EscapeQuotesIdempotent` | src/DataScripter.ts:111 | escaping twice gives the same as escaping once |
| `QuoteEscaping.EscapeQuotesNotInjective` | src/DataScripter.ts:111 | `'` and `''` both escape to `''`, so escaping is not injective |
| `QuoteEscaping.EscapeQuotesKeepsText` | src/DataScripter.ts:111 | escaping keeps every non-apostrophe character of the value, in order |
| `QuoteEscaping.SkipQuotesKeepsText` | src/DataScripter.ts:111 | dropping the leading run loses no non-apostrophe character |
| `QuoteEscaping.UnescapeEscapeQuotes` | src/DataScripter.ts:111 | when no two apostrophes are adjacent in the value, SQL reads the escaped text back as the value |
| `QuoteEscaping.LoneQuoteDoubled` | src/DataScripter.ts:111 | a single apostrophe between two apostrophe-free texts is doubled, and the texts are kept unchanged |
| `QuoteEscaping.NoQuotesFixed` | src/DataScripter.ts:111 | a text without apostrophes is left unchanged by escaping |
| `QuoteEscaping.UnescapeEscapeQuotesLosesRuns` | src/DataScripter.ts:111 | a value of two apostrophes is read back as one: the round trip fails on runs |
| `QuoteEscaping.UnescapeEscapeQuotesCollapses` | src/DataScripter.ts:111 | for every value, SQL reads the escaped text back as the value with each apostrophe run collapsed to one apostrophe |
| `QuoteEscaping.CollapseRunsFixed` | src/DataScripter.ts:111 | collapsing runs changes a value exactly when it has two adjacent apostrophes, so the read-back equals the value exactly then |
| `DataScripter.RuleOf` | src/DataScripter.ts:103-145 | the `switch` on the type name; which names choose which rule is stated by `DataScripterProperties.RuleOfGroups` |
| `DataScripter.CellText` | src/DataScripter.ts:97-145 | a null cell, and any cell of a binary type, is `NULL`; a numeric cell is its display value; every other cell is a literal that starts and ends with an apostrophe |
| `DataScripter.DataType` | src/DataScripter.ts:78-91 | the declared type starts with the bracketed type name and ends in `]` or `)` |
| `DataScripter.HasIdentityColumn` | src/DataScripter.ts:53-58 | true if and only if some column is an identity column |
| `DataScripter.ColumnLine` | src/DataScripter.ts:67-72 | a column line starts with `--[name] ` and the column's type, and ends with `);` on the last column and `,` on every other |
| `DataScripter.TempTableDeclaration` | src/DataScripter.ts:62-75 | the declaration starts with `--create table [#temp<name>] (` |
| `DataScripter.InsertHeader` | src/DataScripter.ts:35-51 | the insert header starts with the on statement if and only if some column is an identity column, otherwise with `insert [#temp<name>] (`, and it ends with `)` |
| `DataScripter.RowValues` | src/DataScripter.ts:97-155 | one value per column, value k from cell k and column k; on a row with too few cells, the values of the cells present and then one empty value |
| `DataScripter.RowStatement` | src/DataScripter.ts:157 | a row statement starts with `select ` and ends with `;` on the last row, ` UNION ALL` otherwise |
| `DataScripter.RowAt` | src/DataScripter.ts:17 | `rows[i]` is row i when it exists; past the end it behaves as a row with no cells, whose only value is the empty one |
| `DataScripter.ScriptText` | src/DataScripter.ts:26 | the script starts with the declaration's first line and ends with the final lines joined by line breaks; with no final lines it ends with the header's ` \n\n` |
| `DataScripter.DataScripter.constructor` | src/DataScripter.ts:7-10 | the scripter holds the given result set and table name |
| `DataScripter.DataScripter.Script` | src/DataScripter.ts:12-27 | the loop over `rowCount` rows and the optional off line produce exactly `ScriptText`: declaration, `\n\n`, insert header, ` \n\n`, then the row statements and off line joined by `\n` |
| `DataScripter.DataScripter.GetInsertTableDefinitionSql` | src/DataScripter.ts:35-51 | the `forEach` loop produces the bracketed column names in column order, joined by `,`, inside `insert [#temp<name>] (...)`, with the on line first exactly when some column is an identity column |
| `DataScripter.DataScripter.GetTempTableSql` | src/DataScripter.ts:62-75 | the loop produces the header line and one `ColumnLine` per column, in order, joined by `\n` |
| `DataScripter.DataScripter.GetDataRow` | src/DataScripter.ts:95-158 | the loop produces one `CellText` per column in column order (or the values before a missing cell plus an empty value), joined by `,` after `select `, with `;` or ` UNION ALL` |
| `DataScripterProperties.CharacterCellEscaped` | src/DataScripter.ts:104-112 | a character-typed cell is `'` + escaped value + `'`; inside, every apostrophe run has length two, the other characters are the value's, and the value reads back when no two apostrophes are adjacent |
| `DataScripterProperties.DateTimeCellUnescaped` | src/DataScripter.ts:113-119 | a date/time cell is the raw value in quotes, not escaped |
| `DataScripterProperties.FallbackCellUnescaped` | src/DataScripter.ts:142-144 | a cell of an unlisted type is the raw value in quotes, not escaped |
| `DataScripterProperties.NumericCellVerbatim` | src/DataScripter.ts:120-132 | a numeric or bit cell is the display value itself, unquoted |
| `DataScripterProperties.GuidCellBraced` | src/DataScripter.ts:133-135 | a uniqueidentifier cell is `'{value}'` |
| `DataScripterProperties.BinaryCellIsNull` | src/DataScripter.ts:136-141 | a binary/image/timestamp/varbinary cell is `NULL` whatever its value |
| `DataScripterProperties.RuleOfGroups` | src/DataScripter.ts:103-145 | each rule of the switch is chosen exactly for the type names of its group, and the default branch exactly for the names no case lists |
| `DataScripterProperties.GuidAndBinaryExamples` | src/DataScripter.ts:133-141 | `ABCD-1234` in a uniqueidentifier column is `'{ABCD-1234}'`; a non-null varbinary cell is `NULL` |
| `DataScripterProperties.LoneQuoteCell` | src/DataScripter.ts:111 | a value such as `O'Brien`, with one apostrophe, in a character column renders as `'O''Brien'` |
| `DataScripterProperties.RowValuesAligned` | src/DataScripter.ts:98-146 | a row with one cell per column yields one value per column, value i from cell i and column i |
| `DataScripterProperties.ShortRowRecordsFault` | src/DataScripter.ts:97-155 | a row with too few cells keeps the values of the cells present and records one empty value for the first missing cell |
| `DataScripterProperties.RowStatementTerminator` | src/DataScripter.ts:157 | a row statement starts with `select `; it ends with `;` if and only if it is the last row, and with ` UNION ALL` otherwise |
| `DataScripterProperties.OneTerminatedRow` | src/DataScripter.ts:16-18 | there is one statement per row count, and exactly the one at index rowCount-1 ends with `;` |
| `DataScripterProperties.WellFormedRowStatements` | src/DataScripter.ts:16-18 | on well-formed input, statement i renders the cells of row i in column order |
| `DataScripterProperties.OffLineIsNoRow` | src/DataScripter.ts:20-23 | the identity-off line never equals a row statement |
| `DataScripterProperties.IdentityBracketing` | src/DataScripter.ts:20-50 | the insert header starts with the on line if and only if some column is an identity column. The off line is among the final lines if and only if some column is an identity column, and then only as the very last line, so the script ends with it. Otherwise the header starts with `insert [#temp<name>] (` |
| `DataScripterProperties.ScriptEndsWithLastRow` | src/DataScripter.ts:16-26 | without an identity column, the script ends with the last row statement and so with `;`; with no rows it ends with the header's ` \n\n` |
| `DataScripterProperties.ColumnLineFlags` | src/DataScripter.ts:67-73 | reading a column line back from its end recovers the column's allowNull and isIdentity flags, and whether it was the last column: ` NULL` appears iff allowDBNull, ` identity` iff isIdentity, `);` iff last, and every other line ends with `,` |
| `DataScripterProperties.ReadFlagsOfParts` | src/DataScripter.ts:69-72 | a line made of a type ending in `]` or `)`, the optional ` NULL` and ` identity` marks and a terminator is read back as exactly those marks and that terminator |
| `DataScripterProperties.DeclarationShape` | src/DataScripter.ts:62-75 | the declaration is the header line followed by exactly one line per column, in order. Line i+1 starts with `--[name] ` and the column's type, encodes the column's flags and whether it is last, and ends with `,` unless it is last |
| `DataScripterProperties.DeclarationLine` | src/DataScripter.ts:67-72 | line i+1 of the declaration is the line of column i, with its name, type, flags and terminator |
| `DataScripterProperties.SizedDataType` | src/DataScripter.ts:80-82 | for a type name containing `char` or `text`, the type reads `[t] (max)` iff the size is 2147483647; otherwise it is `[t] (size)` with the size in decimal, after a minus sign when negative |
| `DataScripterProperties.DecimalDataType` | src/DataScripter.ts:84-87 | `decimal` and `numeric` render as `[t] (precision,scale)` |
| `DataScripterProperties.NotSized` | src/DataScripter.ts:80-85 | `decimal` and `numeric` contain neither `char` nor `text`, so the substring test that comes first does not take them |
| `DataScripterProperties.PlainDataType` | src/DataScripter.ts:89-90 | the type is the bare `[t]` exactly when the name contains neither `char` nor `text` and is neither `decimal` nor `numeric` |
| `DataScripterProperties.CharacterDataTypes` | src/DataScripter.ts:78-110 | of the switch's character types, all but `xml` take the sized branch of getDataType; `xml` is declared bare as `[xml]` |
| `DataScripterProperties.ScriptTwice` | src/DataScripter.ts:12-27 | running Script twice on one scripter gives identical text |
| `DataScripterProperties.IdentityIntRows` | src/DataScripter.ts:16-23 | for one identity `int` column and one row holding v, the final lines are `select v;` and the off line |
| `DataScripterProperties.IntColumnLine` | src/DataScripter.ts:67-72 | the line of a lone identity `int` column n is `--[n] [int] identity);` |
| `DataScripterProperties.IdentityIntDeclaration` | src/DataScripter.ts:62-75 | the declaration for that column is `--create table [#temp<t>] (` then its line |
| `DataScripterProperties.IdentityIntHeader` | src/DataScripter.ts:35-51 | the insert header for that column is the on statement then `insert [#temp<t>] ([n])` |
| `DataScripterProperties.IdentityIntExample` | src/DataScripter.ts:12-75 | for any table name t, one identity `int` column n and one row v: the declaration is `--create table [#temp<t>] (` then `--[n] [int] identity);`; the header starts with the on line; the final lines are `select v;` and the off line, and the script ends with the off line |

## Left out

- src/extension.ts is not part of this model. It holds the host's command registration, input box, connection and database switching, asynchronous query execution, task status and editor insertion. All of that is host UI and network I/O.
- The `console.log(e)` in the `catch` of getDataRow is I/O and is left out. The model keeps the empty value that the `catch` records.
- The re-throw of exceptions that are not `Error` objects is left out. Only `TypeError`s from missing cells or rows can arise on typed input.
- Undefined or non-string display values cannot occur, because Dafny's types rule them out.
- Sizes, precisions and scales are modelled as integers. How JavaScript renders non-integer numbers, or integers of 10^21 and more (in exponent notation), is not modelled.
- `rowCount` is a `nat`. With a negative or fractional `rowCount` the original's `i !== rowCount` loop would never end.
- IdentityBracketing: does not claim that the on/off text occurs nowhere else in the script, because column names, the table name and display values are arbitrary text that may contain it. It states where the generated statements are placed.
- ScriptTwice: states determinism for two calls on one scripter. The functions it rests on depend only on the result set and the table name, so two scripters built from the same inputs agree as well.
