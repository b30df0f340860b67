# PREQL table algebra in Dafny

This project models the core of PREQL, a small language for collecting data from JSON, YAML and
XML files into one table, reshaping it and writing it out again as CSV, HTML, JSON or XML.

The data is a tree: a **table** has an optional name and an ordered list of **columns**; a column
has a name and a list of cells, and a cell is a number, a text, a boolean, null, a list of raw
values, or a nested table. A script is run by a chain of **builders**, each with its own job:

- the **table builder** holds the result table, names it and exports it (`assemble` dispatches
  on the output file's extension);
- an **operation builder** edits the result table: row-by-row arithmetic on two columns
  (rounded to two decimals), `sum()` and `average()` summary rows that skip the summary rows
  added before, renaming, prefixes, suffixes and removal;
- an **import builder** holds the tables read from files and folders, filters sub-folder files
  by extension and union-merges its tables by column name into the result table;
- a **select builder** narrows the imported tables: by nested path, by a target column, by a
  maximum or minimum (the top N per folder), by a list of column names, by composite or plain
  columns, and adds a column to every table.

`end()` leads from a select builder to its import builder, then to the operation builder, then to
the table builder, which is its own parent. The script parser walks the script's nodes; before
each node it climbs this chain to the builder kind that node needs (`reset`), and it names each
operation "operation1", "operation2", and so on.

The modules follow the program:

| module | file | models |
|---|---|---|
| `Wrappers` | wrappers.dfy | `Option`, `Result` and `Outcome`, and the program's error kinds |
| `Utils` | utils.dfy | the path and text helpers of `Utils.java`, and split, join and decimal text |
| `Folds` | folds.dfy | generic folds over sequences (map, filter, concatenating map) with error propagation |
| `Tables` | table.dfy | cells, columns and tables as values; column lookup and edits; `getSubTables` |
| `TableObjects` | objects.dfy | `Table.java` and `Column.java` as classes whose fields the methods update |
| `Aggregation` | aggregation.dfy | rounding, pairwise column arithmetic, number parsing, summary rows |
| `Selection` | selection.dfy | every selection the select builder performs, as functions on table lists |
| `Merging` | merging.dfy | the union merge by column name and the extension filter |
| `FileParsing` | fileparser.dfy | nested map/list/scalar values to a table tree, and the input-extension dispatch |
| `Export` | export.dfy | maximum row count, CSV and HTML text layout, JSON and XML maps, output dispatch |
| `Builders` | builders.dfy | the four builders as classes, each method proved against the functions above |
| `Dsl` | dsl.dfy | the builder chain, `reset`, the enum mappings, each node handler and the dispatch loop |

Values that the Java code mutates in place (the builders, a table, a column) are classes with
`modifies` clauses. Every method is proved against a specification function, and the
properties the program promises are proved about those functions: first-match lookups,
permutation and ranking of the top-N sort, the union-by-name merge, split/join round trips for
paths and CSV lines, the key set of the JSON map, distinct operation and file names, and where
`reset` stops or never stops.

## Model

| member | source | states |
|---|---|---|
| Utils.ToLower | Project/src/pt/up/fe/els2024/utils/Utils.java:48 | the result has the input's length and no upper-case ASCII letter |
| Utils.ToUpper | Project/src/pt/up/fe/els2024/builders/SelectBuilder.java:369 | the result has the input's length and no lower-case ASCII letter |
| Utils.LastIndexOf | Project/src/pt/up/fe/els2024/utils/Utils.java:48 | -1 exactly when the character is absent; otherwise an index holding it with no later occurrence |
| Utils.NatToString | Project/src/pt/up/fe/els2024/parser/DSLParser.java:134 | decimal text of at least one digit, two or more from 10 upwards |
| Utils.NatToStringInjective | Project/src/pt/up/fe/els2024/parser/DSLParser.java:134 | distinct counters give distinct decimal texts |
| Utils.Split | Project/src/pt/up/fe/els2024/utils/Utils.java:125 | splitting always yields at least one piece |
| Utils.SplitJoin | Project/src/pt/up/fe/els2024/utils/Utils.java:125 | joining the pieces back with the separator gives the input, and no piece contains the separator |
| Utils.JoinSplit | Project/src/pt/up/fe/els2024/utils/Utils.java:100-101 | splitting a join of separator-free pieces gives those pieces back |
| Utils.TerminatedJoin | Project/src/pt/up/fe/els2024/export/CSVExporter.java:36-39 | appending the separator after every piece equals the join plus one trailing separator |
| Utils.GetExtension | Project/src/pt/up/fe/els2024/utils/Utils.java:44-49 | absent exactly for a missing or dot-free name; otherwise dot-free text |
| Utils.RemoveExtension | Project/src/pt/up/fe/els2024/utils/Utils.java:61-66 | absent exactly when the path is absent |
| Utils.ExtensionSplit | Project/src/pt/up/fe/els2024/utils/Utils.java:44-66 | for a name with a dot: stem, "." and raw suffix rebuild the name, the suffix is dot-free, the extension is its lower-case form and the stem is shorter |
| Utils.NoDotKeepsPath | Project/src/pt/up/fe/els2024/utils/Utils.java:61-66 | a dot-free or absent path is returned unchanged and has no extension |
| Utils.ExtractFileNameShape | Project/src/pt/up/fe/els2024/utils/Utils.java:78-86 | absent exactly for an absent or empty path; otherwise contains neither '/' nor '\\' |
| Utils.DropLeadingSlashes | Project/src/pt/up/fe/els2024/utils/Utils.java:122 | result is no longer than the input, does not start with '/', and is non-empty unless the input is all slashes |
| Utils.DropTrailingSlashes | Project/src/pt/up/fe/els2024/utils/Utils.java:122 | result is a prefix of the input that does not end in '/', non-empty unless the input is all slashes |
| Utils.GetDirectorySegments | Project/src/pt/up/fe/els2024/utils/Utils.java:114-127 | no segments exactly for a missing, blank or slash-only path; otherwise the segments joined by "/" give the path without leading and trailing slash runs, and no segment holds '/' |
| Utils.GetDirectoryPath | Project/src/pt/up/fe/els2024/utils/Utils.java:98-102 | fails exactly when the path has no segments |
| Utils.ExtractFolderName | Project/src/pt/up/fe/els2024/utils/Utils.java:136-139 | fails exactly when there are fewer than two segments; otherwise the second-to-last segment, which holds no '/' |
| Utils.StripQuotes | Project/src/pt/up/fe/els2024/utils/Utils.java:147-149 | absent exactly when the input is absent |
| Utils.StripEndsBounds | Project/src/pt/up/fe/els2024/utils/Utils.java:148 | the result is a contiguous slice that drops at most one leading and at most one trailing character, each only if it is in the given set |
| Utils.StripQuotesBounds | Project/src/pt/up/fe/els2024/utils/Utils.java:147-149 | the length shrinks by at most 2, and a text that neither starts nor ends with a quote is returned unchanged |
| Utils.SplitCommaRaw | Project/src/pt/up/fe/els2024/utils/Utils.java:167 | at least one piece, none containing ',' |
| Utils.DropTrailingEmpty | Project/src/pt/up/fe/els2024/utils/Utils.java:167 | a prefix of the pieces whose last piece is non-empty (Java's split drops trailing empty strings) |
| Utils.SplitComma | Project/src/pt/up/fe/els2024/utils/Utils.java:167 | no piece contains ',' |
| Utils.UnquoteAll | Project/src/pt/up/fe/els2024/utils/Utils.java:167 | one output per piece, each the piece with its quotes stripped |
| Utils.SanitizedListAppend | Project/src/pt/up/fe/els2024/utils/Utils.java:158-171 | the sanitised list of a concatenation is the concatenation of the sanitised lists, so item order is kept |
| Utils.SanitizeItemNoComma | Project/src/pt/up/fe/els2024/utils/Utils.java:164-167 | no piece of a sanitised item contains ',' |
| Utils.SanitizedListNoComma | Project/src/pt/up/fe/els2024/utils/Utils.java:158-171 | no element of the sanitised list contains ',' |
| Utils.PlainItemKept | Project/src/pt/up/fe/els2024/utils/Utils.java:164-167 | an item with no surrounding spaces, brackets, quotes or commas comes out as itself |
| Tables.FindColumn | Project/src/pt/up/fe/els2024/Table.java:119-126 | the index of the first column with the name, or none exactly when no column has it |
| Tables.GetColumn | Project/src/pt/up/fe/els2024/Table.java:119-126 | none exactly when no column has the name; otherwise the first column with that name |
| Tables.AddedColumn | Project/src/pt/up/fe/els2024/Table.java:84-93 | one more column, the same multiset plus the new one; at the front with the rest in order, or at the back |
| Tables.AppendedToColumnEffect | Project/src/pt/up/fe/els2024/Table.java:144-152 | names and count unchanged; the first matching column gains the value at its end and all others are identical; no match leaves the columns unchanged |
| Tables.RenamedColumn | Project/src/pt/up/fe/els2024/Table.java:176-186 | same count; only the chosen column takes the new name and keeps its rows; all others are identical |
| Tables.RemovedColumn | Project/src/pt/up/fe/els2024/Table.java:194-198 | one fewer column, and exactly that column is removed from the multiset |
| Tables.RenameThenFind | Project/src/pt/up/fe/els2024/Table.java:176-186 | after renaming the first match, the new name is found at or before that position, and if found there it has the old rows |
| Tables.RemoveKeepsOthers | Project/src/pt/up/fe/els2024/Table.java:194-198 | removing the first match keeps the columns before and after it in order, and none of the earlier ones has the name |
| Tables.TablesIn | Project/src/pt/up/fe/els2024/Table.java:222-227 | the nested tables of the rows, each one a cell of the rows |
| Tables.SubTables | Project/src/pt/up/fe/els2024/Table.java:207-234 | the missing-column result (null) arises exactly when the first segment names no column; every other failure is a runtime failure |
| Tables.SubTablesOfRows | Project/src/pt/up/fe/els2024/Table.java:221-229 | failures from deeper levels are runtime failures (the addAll(null) crash) |
| Tables.SubTablesOfRowsAtEnd | Project/src/pt/up/fe/els2024/Table.java:212-215 | with no segments left, each nested table contributes itself, so the result is the nested tables of the rows |
| Tables.SubTablesOneStep | Project/src/pt/up/fe/els2024/Table.java:207-234 | a one-segment path gives null for a missing column and otherwise the nested tables of the first matching column |
| Tables.FlatRowsGiveNothing | Project/src/pt/up/fe/els2024/Table.java:222-228 | rows with no nested table contribute no subtables, whatever the rest of the path |
| TableObjects.TableObject.constructor | Project/src/pt/up/fe/els2024/Table.java:24-49 | the new table has the given name and columns |
| TableObjects.TableObject.SetName | Project/src/pt/up/fe/els2024/Table.java:65-67 | changes the name only |
| TableObjects.TableObject.AddColumn | Project/src/pt/up/fe/els2024/Table.java:74-93 | the columns become the old ones with the new column at the front or the back; the name is unchanged |
| TableObjects.TableObject.SetColumns | Project/src/pt/up/fe/els2024/Table.java:100-102 | replaces the column list; the name is unchanged |
| TableObjects.TableObject.AppendColumns | Project/src/pt/up/fe/els2024/Table.java:109-111 | the old columns followed by the given ones |
| TableObjects.TableObject.GetColumn | Project/src/pt/up/fe/els2024/Table.java:119-126 | none exactly when no column has the name, otherwise the first column with it |
| TableObjects.TableObject.AppendToColumn | Project/src/pt/up/fe/els2024/Table.java:144-152 | true exactly when some column has the name; the columns become the appended-to-first-match form, so nothing changes on false |
| TableObjects.TableObject.CheckColumn | Project/src/pt/up/fe/els2024/Table.java:161-167 | fails with "Column n doesn't exist" exactly when no column has the name; otherwise the first match |
| TableObjects.TableObject.RenameColumn | Project/src/pt/up/fe/els2024/Table.java:176-186 | fails with the "doesn't exist" error and no change exactly when the old name is absent; otherwise renames only the first match |
| TableObjects.TableObject.Remove | Project/src/pt/up/fe/els2024/Table.java:194-198 | fails with the "doesn't exist" error and no change exactly when the name is absent; otherwise removes only the first match |
| TableObjects.ColumnObject.constructor | Project/src/pt/up/fe/els2024/Column.java:22-47 | the new column has the given name and cells |
| TableObjects.ColumnObject.SetName | Project/src/pt/up/fe/els2024/Column.java:63-65 | changes the name only, never the cells |
| TableObjects.ColumnObject.SetRows | Project/src/pt/up/fe/els2024/Column.java:76-78 | replaces the cells; the name is unchanged |
| TableObjects.ColumnObject.AddRow | Project/src/pt/up/fe/els2024/Column.java:85-87 | the cells become the old cells plus the new one at the end |
| TableObjects.ColumnObject.GetValueAttribute | Project/src/pt/up/fe/els2024/Column.java:96-98 | the cell at an index below the size, null at or beyond it, and an index error for a negative index |
| Aggregation.Round2 | Project/src/pt/up/fe/els2024/builders/OperationBuilder.java:121 | rounding to two decimals moves the value by at most half a hundredth |
| Aggregation.Round2Idempotent | Project/src/pt/up/fe/els2024/builders/OperationBuilder.java:121 | rounding a rounded value changes nothing |
| Aggregation.Round2Monotone | Project/src/pt/up/fe/els2024/builders/OperationBuilder.java:121 | rounding preserves order |
| Aggregation.Combined | Project/src/pt/up/fe/els2024/builders/OperationBuilder.java:116-123 | one cell per row pair, each a number: within half a hundredth of a[i] op b[i] when that is finite, 0 for 0/0, and the largest or smallest long over 100 for a non-zero number divided by 0 |
| Aggregation.DivisionByZero | Project/src/pt/up/fe/els2024/builders/OperationBuilder.java:121 | dividing a positive number by 0 gives 92233720368547758.07, a negative one -92233720368547758.08, and only 0/0 gives 0 |
| Aggregation.CombinedAt | Project/src/pt/up/fe/els2024/builders/OperationBuilder.java:116-123 | cell i is exactly round2(a[i] op b[i]) |
| Aggregation.CombineRows | Project/src/pt/up/fe/els2024/builders/OperationBuilder.java:116-123 | the loop builds exactly the row-wise combined cells |
| Aggregation.Operate | Project/src/pt/up/fe/els2024/builders/OperationBuilder.java:101-128 | on success, exactly one new column named after the result is appended and the old columns are untouched; every failure is an operation error |
| Aggregation.OperateSucceeds | Project/src/pt/up/fe/els2024/builders/OperationBuilder.java:101-128 | succeeds exactly when both columns exist, have equal row counts and hold only numbers; the new column then has that row count and cell i is round2(a[i] op b[i]) |
| Aggregation.OperateFailures | Project/src/pt/up/fe/els2024/builders/OperationBuilder.java:103-108 | a missing first or second column, or differing row counts, fail with the source's messages, checked in that order |
| Aggregation.ParseDecimal | Project/src/pt/up/fe/els2024/builders/OperationBuilder.java:210 | only non-blank text parses as a number |
| Aggregation.ParseNatToString | Project/src/pt/up/fe/els2024/builders/OperationBuilder.java:210 | the decimal text of a natural number parses back to that number |
| Aggregation.ParseNegated | Project/src/pt/up/fe/els2024/builders/OperationBuilder.java:210 | a minus sign before a natural number's text parses to its negation |
| Aggregation.NumberTotal | Project/src/pt/up/fe/els2024/builders/OperationBuilder.java:198-201 | a total exists exactly when every cell is a number; otherwise a runtime (cast) failure |
| Aggregation.NumberTotalAppend | Project/src/pt/up/fe/els2024/builders/OperationBuilder.java:198-201 | the total of two number runs is the sum of their totals |
| Aggregation.TextTotal | Project/src/pt/up/fe/els2024/builders/OperationBuilder.java:209-216 | failures are runtime (cast) failures |
| Aggregation.DataRows | Project/src/pt/up/fe/els2024/builders/OperationBuilder.java:198 | the data rows are the column's rows without the last addedRows synthetic ones |
| Aggregation.SummaryCell | Project/src/pt/up/fe/els2024/builders/OperationBuilder.java:193-220 | fails only for an empty column or a number or text column with a non-number data row; otherwise a number or "N/A" |
| Aggregation.Summarised | Project/src/pt/up/fe/els2024/builders/OperationBuilder.java:203 | keeps the name and the old cells and adds exactly one trailing cell |
| Aggregation.SummariesShape | Project/src/pt/up/fe/els2024/builders/OperationBuilder.java:191-225 | on success every column keeps its name and gains exactly its summary cell; fails exactly when some column's summary fails |
| Aggregation.SummaryIgnoresSyntheticRow | Project/src/pt/up/fe/els2024/builders/OperationBuilder.java:198 | a summary row added earlier, counted in addedRows, does not change the next summary |
| Aggregation.SummaryIgnoresSyntheticRows | Project/src/pt/up/fe/els2024/builders/OperationBuilder.java:223 | any number of earlier summary rows counted in addedRows are ignored |
| Aggregation.SummaryOfLabels | Project/src/pt/up/fe/els2024/builders/OperationBuilder.java:207-220 | the text column named "Folder" and columns of any other first-cell type summarise to "N/A" |
| Aggregation.SummaryOfConstantColumn | Project/src/pt/up/fe/els2024/builders/OperationBuilder.java:238-251 | a column of n copies of v sums to round2(n*v) and averages to round2(v) |
| Aggregation.SumNumbers | Project/src/pt/up/fe/els2024/builders/OperationBuilder.java:198-201 | the loop computes the total of the first count cells |
| Aggregation.SumTexts | Project/src/pt/up/fe/els2024/builders/OperationBuilder.java:208-216 | the loop computes the parsed total of the first count cells, stopping at the first unparsable one |
| Aggregation.ColumnSummary | Project/src/pt/up/fe/els2024/builders/OperationBuilder.java:193-220 | the method computes exactly the column's summary cell |
| Builders.BuilderName.constructor | Project/src/pt/up/fe/els2024/builders/Builder.java:13 | the shared builder name starts unset |
| Builders.TableBuilder.constructor | Project/src/pt/up/fe/els2024/builders/TableBuilder.java:25-27 | a fresh builder holds a fresh, unnamed, empty table |
| Builders.TableBuilder.SetTable | Project/src/pt/up/fe/els2024/builders/TableBuilder.java:34-36 | the builder now holds the given table |
| Builders.TableBuilder.End | Project/src/pt/up/fe/els2024/builders/TableBuilder.java:52-54 | returns the builder itself, the fixed point of the builder chain |
| Builders.TableBuilder.WithName | Project/src/pt/up/fe/els2024/builders/TableBuilder.java:62-65 | names the table, keeps its columns and returns the same builder |
| Builders.TableBuilder.PerformOperation | Project/src/pt/up/fe/els2024/builders/TableBuilder.java:73-75 | a fresh operation builder that works on this builder's own table, with no synthetic rows, and the shared name set to the operation name |
| Builders.TableBuilder.Assemble | Project/src/pt/up/fe/els2024/builders/TableBuilder.java:85-98 | succeeds exactly when the export for the path's extension does (HTML data rows opened by `<tr>`), returning the same table with the export |
| Builders.OperationBuilder.constructor | Project/src/pt/up/fe/els2024/builders/OperationBuilder.java:32-36 | links the table builder and its table, starts addedRows at 0 and sets the shared name |
| Builders.OperationBuilder.WithImport | Project/src/pt/up/fe/els2024/builders/OperationBuilder.java:43-45 | a fresh, empty import builder over the same result table, with the shared name "Import" |
| Builders.OperationBuilder.AddColumn | Project/src/pt/up/fe/els2024/builders/OperationBuilder.java:54-59 | fails exactly for a null value, changing nothing; otherwise appends a one-cell column at the end |
| Builders.OperationBuilder.AddColumnAt | Project/src/pt/up/fe/els2024/builders/OperationBuilder.java:70-78 | fails with "Column name is null" exactly for a null value; otherwise adds a one-cell column at the front or the back |
| Builders.OperationBuilder.Operate | Project/src/pt/up/fe/els2024/builders/OperationBuilder.java:101-128 | succeeds exactly when the pairwise operation is defined, the columns then being the operation's result; on failure, the error and no change |
| Builders.OperationBuilder.SumColumns | Project/src/pt/up/fe/els2024/builders/OperationBuilder.java:139-141 | the pairwise operation with +: the result column on success, no change and the operation's error on failure; the table's name is kept |
| Builders.OperationBuilder.SubColumns | Project/src/pt/up/fe/els2024/builders/OperationBuilder.java:152-154 | the pairwise operation with -: the result column on success, no change and the operation's error on failure; the table's name is kept |
| Builders.OperationBuilder.DivColumns | Project/src/pt/up/fe/els2024/builders/OperationBuilder.java:165-167 | the pairwise operation with /: the result column on success, no change and the operation's error on failure; the table's name is kept |
| Builders.OperationBuilder.MulColumns | Project/src/pt/up/fe/els2024/builders/OperationBuilder.java:178-180 | the pairwise operation with *: the result column on success, no change and the operation's error on failure; the table's name is kept |
| Builders.OperationBuilder.SummariseColumns | Project/src/pt/up/fe/els2024/builders/OperationBuilder.java:193-221 | on success every column gains its summary cell; a failure leaves the columns before it summarised and the rest unchanged |
| Builders.OperationBuilder.Summarise | Project/src/pt/up/fe/els2024/builders/OperationBuilder.java:191-225 | as for the column summary, and addedRows grows by one exactly on success |
| Builders.OperationBuilder.Sum | Project/src/pt/up/fe/els2024/builders/OperationBuilder.java:191-225 | appends the total row and counts it in addedRows; a failure leaves the columns before the failing one summarised and the counter as it was; the table's name is kept |
| Builders.OperationBuilder.Average | Project/src/pt/up/fe/els2024/builders/OperationBuilder.java:238-274 | appends the mean row and counts it in addedRows; a failure leaves the columns before the failing one summarised and the counter as it was; the table's name is kept |
| Builders.OperationBuilder.Remove | Project/src/pt/up/fe/els2024/builders/OperationBuilder.java:283-287 | fails with "doesn't exist" and no change exactly when the name is absent; otherwise removes the first match; the table's name is kept |
| Builders.OperationBuilder.Rename | Project/src/pt/up/fe/els2024/builders/OperationBuilder.java:297-301 | fails with "doesn't exist" and no change exactly when the name is absent; otherwise renames the first match; the table's name is kept |
| Builders.OperationBuilder.AddSuffix | Project/src/pt/up/fe/els2024/builders/OperationBuilder.java:311-314 | fails exactly when the column is absent; otherwise renames the first match to "col suffix", and no change on failure; the table's name is kept |
| Builders.OperationBuilder.AddPrefix | Project/src/pt/up/fe/els2024/builders/OperationBuilder.java:324-327 | fails exactly when the column is absent; otherwise renames the first match to "prefix col", and no change on failure; the table's name is kept |
| Builders.OperationBuilder.MergeTables | Project/src/pt/up/fe/els2024/builders/OperationBuilder.java:334-336 | appends the imported table's columns after its own |
| Builders.OperationBuilder.End | Project/src/pt/up/fe/els2024/builders/OperationBuilder.java:361-364 | returns the table builder, which now holds the result table |
| Builders.ImportBuilder.constructor | Project/src/pt/up/fe/els2024/builders/ImportBuilder.java:46-50 | empty lists and no file path, the result table aliasing the operation table, and the shared name set |
| Builders.ImportBuilder.Load | Project/src/pt/up/fe/els2024/builders/ImportBuilder.java:78-84 | the loaded tables are appended and the path is recorded |
| Builders.ImportBuilder.LoadFolders | Project/src/pt/up/fe/els2024/builders/ImportBuilder.java:184 | the loaded folders are appended to the folder map, which holds the same entries as the Java map since it starts empty and the names are distinct |
| Builders.ImportBuilder.SetTables | Project/src/pt/up/fe/els2024/builders/ImportBuilder.java:222-224 | replaces the candidate tables only |
| Builders.ImportBuilder.SelectByTable | Project/src/pt/up/fe/els2024/builders/ImportBuilder.java:129-131 | a fresh selection builder exactly when the table selection (not by column) succeeds, holding its result |
| Builders.ImportBuilder.SelectByColumn | Project/src/pt/up/fe/els2024/builders/ImportBuilder.java:141-143 | the same as by table, with the by-column flag set |
| Builders.ImportBuilder.SelectByFilter | Project/src/pt/up/fe/els2024/builders/ImportBuilder.java:199-201 | the function selection with N = 1 |
| Builders.ImportBuilder.SelectNByFilter | Project/src/pt/up/fe/els2024/builders/ImportBuilder.java:213-215 | the function selection with the given N |
| Builders.ImportBuilder.MergeColumnInto | Project/src/pt/up/fe/els2024/builders/ImportBuilder.java:233-238 | succeeds exactly when merging the column succeeds, leaving the first table's columns as the merge result |
| Builders.ImportBuilder.Merge | Project/src/pt/up/fe/els2024/builders/ImportBuilder.java:230-242 | succeeds exactly when the union merge does, then holding a fresh table named after the file path with the merged columns; a failure changes nothing |
| Builders.ImportBuilder.MergeTables | Project/src/pt/up/fe/els2024/builders/ImportBuilder.java:249-256 | no tables keeps the result table, one table becomes that table, two or more are union-merged; the candidate lists are unchanged |
| Builders.ImportBuilder.Matching | Project/src/pt/up/fe/els2024/builders/ImportBuilder.java:302-315 | the loop over the folder map computes exactly the matching tables |
| Builders.ImportBuilder.MatchingFolder | Project/src/pt/up/fe/els2024/builders/ImportBuilder.java:306-314 | one folder's pass extends the matches over the folders before it |
| Builders.ImportBuilder.WhenExtension | Project/src/pt/up/fe/els2024/builders/ImportBuilder.java:301-317 | succeeds exactly when every file key has an extension, appending the matching tables after the existing ones |
| Builders.ImportBuilder.EndWhen | Project/src/pt/up/fe/els2024/builders/ImportBuilder.java:326-335 | always union-merges; on success appends the merged columns to the operation table, clears the candidates and starts a fresh unnamed result table; a failure changes neither; the sub-folder tables, the file path and the operation table's name are kept |
| Builders.ImportBuilder.End | Project/src/pt/up/fe/els2024/builders/ImportBuilder.java:342-346 | merges, then appends the result table's columns to the operation table; with no tables and no earlier endWhen they are the operation table's own columns, so they are duplicated; the candidates, the file path, the sub-folder tables and the operation table's name are kept |
| Builders.SelectBuilder.Fields | Project/src/pt/up/fe/els2024/builders/SelectBuilder.java:71-78 | records every selection parameter and takes the import builder's tables |
| Builders.SelectBuilder.ForTables | Project/src/pt/up/fe/els2024/builders/SelectBuilder.java:41-59 | a fresh builder exactly when the path and constraint selection succeeds, holding its result |
| Builders.SelectBuilder.ForFunction | Project/src/pt/up/fe/els2024/builders/SelectBuilder.java:70-84 | a fresh builder exactly when the function selection succeeds, holding its result |
| Builders.SelectBuilder.SelectedByPath | Project/src/pt/up/fe/els2024/builders/SelectBuilder.java:284-309 | the loop computes the path selection |
| Builders.SelectBuilder.SelectByPath | Project/src/pt/up/fe/els2024/builders/SelectBuilder.java:284-309 | the tables become the path selection, or the error leaves them unchanged |
| Builders.SelectBuilder.SelectedByColumn | Project/src/pt/up/fe/els2024/builders/SelectBuilder.java:202-230 | the loop computes the column selection |
| Builders.SelectBuilder.SelectByTargetColumn | Project/src/pt/up/fe/els2024/builders/SelectBuilder.java:202-230 | the tables become the column selection, or the error leaves them unchanged |
| Builders.SelectBuilder.ExtremumOf | Project/src/pt/up/fe/els2024/builders/SelectBuilder.java:93-117 | the loop computes the extremum selection |
| Builders.SelectBuilder.KeptNamed | Project/src/pt/up/fe/els2024/builders/SelectBuilder.java:235-250 | the loop keeps exactly the listed columns of each table |
| Builders.SelectBuilder.SelectedByFunction | Project/src/pt/up/fe/els2024/builders/SelectBuilder.java:257-276 | the method computes the function selection |
| Builders.SelectBuilder.SelectByFunction | Project/src/pt/up/fe/els2024/builders/SelectBuilder.java:257-276 | the tables become the function selection on success, and the path becomes the filter's directory without its last segment when it has one |
| Builders.SelectBuilder.IsCompositeColumn | Project/src/pt/up/fe/els2024/builders/SelectBuilder.java:317-323 | the loop decides whether some cell is a nested table or a list |
| Builders.SelectBuilder.KeptByType | Project/src/pt/up/fe/els2024/builders/SelectBuilder.java:330-346 | the loop keeps the columns that pass the type test |
| Builders.SelectBuilder.ConstrainedBy | Project/src/pt/up/fe/els2024/builders/SelectBuilder.java:367-375 | the loop applies the constraints in turn |
| Builders.SelectBuilder.SelectByConstraints | Project/src/pt/up/fe/els2024/builders/SelectBuilder.java:367-375 | the tables become the constrained ones, or the error leaves them unchanged |
| Builders.SelectBuilder.WithColumnAdded | Project/src/pt/up/fe/els2024/builders/SelectBuilder.java:421-440 | the loop computes the tables with the added column |
| Builders.SelectBuilder.AddColumnAt | Project/src/pt/up/fe/els2024/builders/SelectBuilder.java:415-442 | the tables become the ones with the added column at the front or the back, or the error leaves them unchanged |
| Builders.SelectBuilder.AddColumn | Project/src/pt/up/fe/els2024/builders/SelectBuilder.java:402-404 | the same, at the back |
| Builders.SelectBuilder.End | Project/src/pt/up/fe/els2024/builders/SelectBuilder.java:449-452 | hands the selected tables to the import builder and changes nothing else there |
| Selection.Renamed | Project/src/pt/up/fe/els2024/builders/SelectBuilder.java:293-295 | every subtable keeps its columns and takes the candidate's name |
| Selection.PathStep | Project/src/pt/up/fe/els2024/builders/SelectBuilder.java:291-303 | succeeds exactly when the subtables exist and are non-empty, and single unless more are allowed; they are then renamed after the candidate |
| Selection.PathSelectionShape | Project/src/pt/up/fe/els2024/builders/SelectBuilder.java:284-309 | every result is named after some candidate; with one subtable each, the results are in candidate order |
| Selection.PathSelectionEmptyPath | Project/src/pt/up/fe/els2024/builders/SelectBuilder.java:284-309 | an empty path selects every candidate unchanged |
| Selection.ColumnStep | Project/src/pt/up/fe/els2024/builders/SelectBuilder.java:209-226 | succeeds exactly when the prefix resolves to one subtable that has the target column; the result is named after the candidate and holds only that column |
| Selection.ColumnSelection | Project/src/pt/up/fe/els2024/builders/SelectBuilder.java:202-230 | a path without segments fails; on success one table per candidate, named after it, holding only the column named by the last segment |
| Selection.NumberAt | Project/src/pt/up/fe/els2024/builders/SelectBuilder.java:99-104 | a non-number value is the "not a number column" selection error |
| Selection.ComparatorOf | Project/src/pt/up/fe/els2024/builders/SelectBuilder.java:106-110 | MAX and MIN are recognised case-insensitively; anything else is unknown |
| Selection.ExtremumIndex | Project/src/pt/up/fe/els2024/builders/SelectBuilder.java:93-115 | an index into the candidates; none fails, and a single candidate is chosen without checks |
| Selection.Extremum | Project/src/pt/up/fe/els2024/builders/SelectBuilder.java:93-117 | on success a one-element list holding one of the candidates |
| Selection.ReplacesOnNumbers | Project/src/pt/up/fe/els2024/builders/SelectBuilder.java:106-110 | the best table is replaced only on a strictly greater (MAX) or strictly smaller (MIN) value |
| Selection.ExtremumIsEarliestBest | Project/src/pt/up/fe/els2024/builders/SelectBuilder.java:93-117 | with numeric values and a known function, the chosen table is at least as good as every other and strictly better than every earlier one |
| Selection.ExtremumRejectsNonNumbers | Project/src/pt/up/fe/els2024/builders/SelectBuilder.java:99-104 | with two or more candidates, one non-numeric value fails the selection |
| Selection.ExtremumRejectsUnknownFunction | Project/src/pt/up/fe/els2024/builders/SelectBuilder.java:109 | with two or more candidates, a function other than MAX or MIN fails |
| Selection.GroupKeys | Project/src/pt/up/fe/els2024/builders/SelectBuilder.java:127-135 | distinct keys, each the name of some candidate |
| Selection.GroupKeysCover | Project/src/pt/up/fe/els2024/builders/SelectBuilder.java:127-135 | every candidate's name is a key |
| Selection.RankCompare | Project/src/pt/up/fe/els2024/builders/SelectBuilder.java:147-150 | the lambda fails exactly when its first table has no first cell, or that cell is a number and the second table has none; otherwise it is the comparator: descending (MAX) or ascending (MIN) on two numbers, 0 for any other pair |
| Selection.RunEnd | Project/src/pt/up/fe/els2024/builders/SelectBuilder.java:146 | the run scan stops inside the group; every step before the stop continues the run (strictly descending, or not), and the step at the stop breaks it |
| Selection.LeadingRun | Project/src/pt/up/fe/els2024/builders/SelectBuilder.java:146 | the leading run has at least two tables, and the group comes back as a permutation of itself |
| Selection.InsertionPoint | Project/src/pt/up/fe/els2024/builders/SelectBuilder.java:146 | the binary search's place lies between its bounds |
| Selection.Moved | Project/src/pt/up/fe/els2024/builders/SelectBuilder.java:146 | moving one table down shifts the ones between up one place, a permutation of the group |
| Selection.BinarySort | Project/src/pt/up/fe/els2024/builders/SelectBuilder.java:146 | binary insertion yields a permutation of the group |
| Selection.SortGroup | Project/src/pt/up/fe/els2024/builders/SelectBuilder.java:146-160 | the sorted group is a permutation of the group |
| Selection.CompareOnNumbers | Project/src/pt/up/fe/els2024/builders/SelectBuilder.java:147-150 | on numeric first cells the lambda does not fail, and puts x first exactly when it ranks strictly higher (MAX) or lower (MIN) |
| Selection.LeadingRunRanked | Project/src/pt/up/fe/els2024/builders/SelectBuilder.java:146-160 | with numeric first cells everywhere, the leading run comes out in rank order |
| Selection.InsertionPointRanked | Project/src/pt/up/fe/els2024/builders/SelectBuilder.java:146-160 | over a ranked front, the binary search puts the pivot after every table that may come before it and before every table it may come before |
| Selection.BinarySortRanked | Project/src/pt/up/fe/els2024/builders/SelectBuilder.java:146-160 | binary insertion over a ranked front ranks the whole group |
| Selection.SortGroupRanked | Project/src/pt/up/fe/els2024/builders/SelectBuilder.java:146-160 | a group with numeric first cells sorts without failing and in rank order, descending for MAX and ascending for MIN |
| Selection.RunEndSucceeds | Project/src/pt/up/fe/els2024/builders/SelectBuilder.java:146-160 | the run scan cannot fail when every table has a first cell |
| Selection.InsertionPointSucceeds | Project/src/pt/up/fe/els2024/builders/SelectBuilder.java:146-160 | the binary search cannot fail when every table and the pivot have a first cell |
| Selection.BinarySortSucceeds | Project/src/pt/up/fe/els2024/builders/SelectBuilder.java:146-160 | binary insertion cannot fail when every table has a first cell |
| Selection.SortGroupSucceeds | Project/src/pt/up/fe/els2024/builders/SelectBuilder.java:146-160 | the sort cannot fail when every table has a first cell |
| Selection.SortGroupMixedCells | Project/src/pt/up/fe/els2024/builders/SelectBuilder.java:146-151 | with first cells 1, 2, "s", 3 under MAX the sort gives 3, 2, 1, "s": the text cell breaks the order's transitivity and the result is TimSort's, not a ranking |
| Selection.SortGroupShortCircuit | Project/src/pt/up/fe/els2024/builders/SelectBuilder.java:147 | for a table with no first cell followed by one with a text first cell, the lambda reads the text cell first and stops, so the sort succeeds; in the other order the empty table is read first and the sort fails |
| Selection.RankGroup | Project/src/pt/up/fe/els2024/builders/SelectBuilder.java:139-166 | succeeds only for groups of at least N and the exact names MAX or MIN, giving a permutation of the group |
| Selection.RankGroupSucceeds | Project/src/pt/up/fe/els2024/builders/SelectBuilder.java:139-166 | when every table has a first cell, ranking succeeds exactly for groups of at least N and MAX or MIN, and a group with numeric first cells comes out in rank order |
| Selection.SuffixedColumns | Project/src/pt/up/fe/els2024/builders/SelectBuilder.java:174-180 | every column of the i-th table, renamed "name #i" and keeping only its first cell |
| Selection.GroupTable | Project/src/pt/up/fe/els2024/builders/SelectBuilder.java:171-189 | the group's table is named after the key and filed under the folder name of the key, with a matching Folder column |
| Selection.FolderTables | Project/src/pt/up/fe/els2024/builders/SelectBuilder.java:188 | every folder entry is a key, and each key holds a table filed under it |
| Selection.CollectFolders | Project/src/pt/up/fe/els2024/builders/SelectBuilder.java:191-194 | succeeds exactly when every folder in the order has a table, listing them in that order |
| Selection.GroupTables | Project/src/pt/up/fe/els2024/builders/SelectBuilder.java:171-189 | one entry per group key, each filed under its folder |
| Selection.TopN | Project/src/pt/up/fe/els2024/builders/SelectBuilder.java:125-195 | one output table per folder key |
| Selection.TopNFolderColumn | Project/src/pt/up/fe/els2024/builders/SelectBuilder.java:182-186 | each output carries the Folder column of its folder key |
| Selection.TopNSmallGroupFails | Project/src/pt/up/fe/els2024/builders/SelectBuilder.java:141-143 | a group smaller than N fails the selection ("Target row is out of bounds") |
| Selection.TopNRejectsOtherFunctions | Project/src/pt/up/fe/els2024/builders/SelectBuilder.java:162-164 | only the exact strings MAX and MIN are accepted |
| Selection.KeepNamedMembers | Project/src/pt/up/fe/els2024/builders/SelectBuilder.java:240-244 | a column is kept exactly when it is a column of the table whose name is listed |
| Selection.Whitelisted | Project/src/pt/up/fe/els2024/builders/SelectBuilder.java:235-250 | every table keeps its name and only its listed columns, in their order |
| Selection.NonCompositeKeepsNothing | Project/src/pt/up/fe/els2024/builders/SelectBuilder.java:337 | the NON-COMPOSITE test keeps no column at all |
| Selection.CompositeKeepsComposites | Project/src/pt/up/fe/els2024/builders/SelectBuilder.java:330-346 | COMPOSITE keeps exactly the composite columns, and keeping twice changes nothing |
| Selection.ByType | Project/src/pt/up/fe/els2024/builders/SelectBuilder.java:330-346 | every table keeps its name and the columns that pass the type test |
| Selection.Constrained | Project/src/pt/up/fe/els2024/builders/SelectBuilder.java:367-375 | succeeds exactly when every constraint is COMPOSITE or NON-COMPOSITE in any case; the tables keep their names |
| Selection.NonCompositeEmptiesTables | Project/src/pt/up/fe/els2024/builders/SelectBuilder.java:367-375 | a NON-COMPOSITE constraint leaves every table without columns |
| Selection.TableSelectionShape | Project/src/pt/up/fe/els2024/builders/SelectBuilder.java:41-59 | no path and no constraints keep the candidates; any success keeps their count and names |
| Selection.FunctionSelectionKeeps | Project/src/pt/up/fe/els2024/builders/SelectBuilder.java:257-276 | with N of 1 there is exactly one result, and every result column is one of the listed names |
| Selection.ColumnValue | Project/src/pt/up/fe/els2024/builders/SelectBuilder.java:384-392 | the table's name for any word but FOLDERNAME; FOLDERNAME, in any case, gives its folder name when one exists |
| Selection.WithColumn | Project/src/pt/up/fe/els2024/builders/SelectBuilder.java:415-442 | a null name or value fails with the source's message; otherwise each table keeps its name and gains one single-cell column |
| Selection.StringValueBecomesName | Project/src/pt/up/fe/els2024/builders/SelectBuilder.java:427-429 | a text value is never kept literally: it becomes the table's name or its folder name |
| Selection.OtherValueInsertedAsIs | Project/src/pt/up/fe/els2024/builders/SelectBuilder.java:425-436 | a value that is not text is inserted unchanged |
| Merging.MergeColumn | Project/src/pt/up/fe/els2024/builders/ImportBuilder.java:233-238 | failures are runtime failures (the concurrent-modification crash) |
| Merging.MergeRowsNew | Project/src/pt/up/fe/els2024/builders/ImportBuilder.java:234-237 | a first-seen column is added whole when it has one row; with more rows the iteration crashes |
| Merging.MergeRowsFound | Project/src/pt/up/fe/els2024/builders/ImportBuilder.java:234-237 | the rows of an already-seen name are appended to the first-seen column in row order |
| Merging.MergeAll | Project/src/pt/up/fe/els2024/builders/ImportBuilder.java:230-242 | failures are runtime failures |
| Merging.MergeColumnUnion | Project/src/pt/up/fe/els2024/builders/ImportBuilder.java:233-238 | one merge step keeps the union-by-name invariant |
| Merging.MergeAllContents | Project/src/pt/up/fe/els2024/builders/ImportBuilder.java:230-242 | the merged columns are the first-seen names in order, each holding every same-named cell in table then row order |
| Merging.MergeAllFails | Project/src/pt/up/fe/els2024/builders/ImportBuilder.java:230-242 | the merge succeeds exactly when every column with two or more rows has a name seen in an earlier column |
| Merging.Merged | Project/src/pt/up/fe/els2024/builders/ImportBuilder.java:230-242 | the merged table is named after the file path |
| Merging.SingleRowTablesMerge | Project/src/pt/up/fe/els2024/builders/ImportBuilder.java:263-275 | tables whose columns have at most one row always merge |
| Merging.Imported | Project/src/pt/up/fe/els2024/builders/ImportBuilder.java:249-256 | no tables means nothing to merge, one table is itself, two or more are the union merge |
| Merging.MatchingTables | Project/src/pt/up/fe/els2024/builders/ImportBuilder.java:301-317 | failures are runtime failures |
| Merging.WithExtension | Project/src/pt/up/fe/els2024/builders/ImportBuilder.java:311 | only entries whose file has the extension |
| Merging.MatchingTablesFails | Project/src/pt/up/fe/els2024/builders/ImportBuilder.java:309-311 | fails exactly when some file key has no extension |
| Merging.MatchingTablesKeeps | Project/src/pt/up/fe/els2024/builders/ImportBuilder.java:301-317 | on success, exactly the tables whose file has the extension, in folder order |
| FileParsing.Put | Project/src/pt/up/fe/els2024/parser/FileParser.java:71 | a new key is appended; an existing key keeps its place and takes the new value |
| FileParsing.Pairs | Project/src/pt/up/fe/els2024/parser/FileParser.java:61-75 | no more entries than the input, each one an input entry |
| FileParsing.PairsKeys | Project/src/pt/up/fe/els2024/parser/FileParser.java:61-75 | the copied keys are distinct and exactly the input's keys |
| FileParsing.PairsOfDistinct | Project/src/pt/up/fe/els2024/parser/FileParser.java:61-75 | a map with distinct keys is copied unchanged, in order |
| FileParsing.ExtractPairs | Project/src/pt/up/fe/els2024/parser/FileParser.java:61-75 | the copy loop computes the copied entries |
| FileParsing.Scalar | Project/src/pt/up/fe/els2024/parser/FileParser.java:125 | a number, text, boolean or null value becomes the same cell |
| FileParsing.ParseColumns | Project/src/pt/up/fe/els2024/parser/FileParser.java:95-130 | one column per requested key |
| FileParsing.ParseColumn | Project/src/pt/up/fe/els2024/parser/FileParser.java:97-126 | the column is named after its key |
| FileParsing.ParseList | Project/src/pt/up/fe/els2024/parser/FileParser.java:115-117 | one cell per list element |
| FileParsing.RootColumns | Project/src/pt/up/fe/els2024/parser/FileParser.java:90-133 | the root table is named after the file and has one column per key, in key order |
| FileParsing.ParseColumnsAt | Project/src/pt/up/fe/els2024/parser/FileParser.java:95-130 | column k is the parse of key k |
| FileParsing.ColumnShapes | Project/src/pt/up/fe/els2024/parser/FileParser.java:97-126 | a scalar gives one cell; a map gives one nested table named after the key; a list of maps gives one nested table per element, in order; any other list gives one list cell; an empty list gives no cells |
| FileParsing.ParseListAt | Project/src/pt/up/fe/els2024/parser/FileParser.java:114-117 | cell k is element k parsed as a table named after the key |
| FileParsing.FileParserFor | Project/src/pt/up/fe/els2024/parser/Parser.java:67-76 | only json, yaml and xml have a parser; no extension fails, and any other fails with "Unknown input extension: ..." |
| FileParsing.ParseFile | Project/src/pt/up/fe/els2024/parser/Parser.java:40-49 | the parsed table is named after the file; a dot-free name fails |
| FileParsing.UpperCaseJson | Project/src/pt/up/fe/els2024/parser/Parser.java:70 | ".JSON" is read by the JSON parser |
| FileParsing.YmlRejected | Project/src/pt/up/fe/els2024/parser/Parser.java:74 | ".yml" is rejected as an unknown input extension |
| FileParsing.ExtensionOf | Project/src/pt/up/fe/els2024/utils/Utils.java:44-49 | the extension is the lower-cased text after the last dot |
| FileParsing.LastDotIsExtension | Project/src/pt/up/fe/els2024/utils/Utils.java:48 | the raw suffix is the text after the last dot |
| Export.MaxRows | Project/src/pt/up/fe/els2024/export/Exporter.java:35-41 | at least every column's cell count, equal to some column's count, and 0 without columns |
| Export.GetMaxRows | Project/src/pt/up/fe/els2024/export/Exporter.java:35-41 | the running-maximum loop computes the maximum cell count |
| Export.ExportUnimplemented | Project/src/pt/up/fe/els2024/export/Exporter.java:25-27 | the base export always fails with "Export method not implemented!" |
| Export.CsvFiles | Project/src/pt/up/fe/els2024/export/CSVExporter.java:29-79 | a table without columns fails; on success the main file is written last, at the given path |
| Export.CsvRows | Project/src/pt/up/fe/els2024/export/CSVExporter.java:46-76 | one line per row |
| Export.CsvFields | Project/src/pt/up/fe/els2024/export/CSVExporter.java:49-73 | one field per column |
| Export.CsvFieldsPieces | Project/src/pt/up/fe/els2024/export/CSVExporter.java:49-73 | the fields are the line's per-column fields, in column order |
| Export.CsvRowsLine | Project/src/pt/up/fe/els2024/export/CSVExporter.java:74-75 | each line is its fields joined by "," plus a newline |
| Export.CsvLineRoundTrip | Project/src/pt/up/fe/els2024/export/CSVExporter.java:46-76 | a line ends with a newline, and splitting the rest on ',' gives back its fields when none holds a comma |
| Export.CsvHeaderRoundTrip | Project/src/pt/up/fe/els2024/export/CSVExporter.java:33-40 | the header ends with a newline, and splitting the rest on ',' gives the column names when none holds a comma |
| Export.CsvFieldsFlat | Project/src/pt/up/fe/els2024/export/CSVExporter.java:54-62 | a row of a table without nested tables writes no extra files |
| Export.CsvRowsFlat | Project/src/pt/up/fe/els2024/export/CSVExporter.java:54-62 | rows of a table without nested tables write no extra files |
| Export.CsvFlatTable | Project/src/pt/up/fe/els2024/export/CSVExporter.java:29-79 | a flat table with columns gives exactly one file: the header followed by one line per row up to the maximum cell count |
| Export.CsvFilesOfRows | Project/src/pt/up/fe/els2024/export/CSVExporter.java:29-79 | the nested files come first, then the main file holding the header and the lines; a failed row fails the export |
| Export.CsvHeaderLine | Project/src/pt/up/fe/els2024/export/CSVExporter.java:33-40 | a table without columns fails when the trailing separator is trimmed; otherwise the header line |
| Export.CsvExport | Project/src/pt/up/fe/els2024/export/CSVExporter.java:29-79 | the exporter computes exactly the CSV files |
| Export.CsvLines | Project/src/pt/up/fe/els2024/export/CSVExporter.java:46-76 | the row loop appends exactly the CSV lines to the buffer |
| Export.CsvLine | Project/src/pt/up/fe/els2024/export/CSVExporter.java:49-75 | the column loop builds exactly one CSV line |
| Export.CsvCell | Project/src/pt/up/fe/els2024/export/CSVExporter.java:50-71 | one cell's field text and its nested files |
| Export.ReplaceCharRemoves | Project/src/pt/up/fe/els2024/export/HTMLExporter.java:158-159 | replacing a character with text that does not contain it removes every occurrence |
| Export.ReplaceCharAbsent | Project/src/pt/up/fe/els2024/export/HTMLExporter.java:158-159 | replacing an absent character changes nothing |
| Export.EscapeClean | Project/src/pt/up/fe/els2024/export/HTMLExporter.java:158-159 | escaped text contains neither '<' nor '>', and text without them is unchanged |
| Export.ListTextClean | Project/src/pt/up/fe/els2024/export/HTMLExporter.java:155-160 | a list cell's text contains neither '<' nor '>' |
| Export.HtmlCellText | Project/src/pt/up/fe/els2024/export/HTMLExporter.java:126-163 | fails exactly for a list cell holding a null element; a list cell's text has no '<' or '>' |
| Export.HtmlFilesWith | Project/src/pt/up/fe/els2024/export/HTMLExporter.java:103-175 | on success the main page is written last, at the given path |
| Export.HtmlRows | Project/src/pt/up/fe/els2024/export/HTMLExporter.java:120-171 | one line per row |
| Export.HtmlCells | Project/src/pt/up/fe/els2024/export/HTMLExporter.java:124-168 | one data cell per column |
| Export.HtmlCellsContent | Project/src/pt/up/fe/els2024/export/HTMLExporter.java:124-168 | cell k is the <td> of column k's text |
| Export.HtmlRowsRow | Project/src/pt/up/fe/els2024/export/HTMLExporter.java:120-171 | each row line is the opening line, the row's cells, then the closing line |
| Export.HtmlRowsAreTableRows | Project/src/pt/up/fe/els2024/export/HTMLExporter.java:120-171 | with the corrected opening line, every data row is a well-formed table row |
| Export.HtmlRowsAsWrittenUnopened | Project/src/pt/up/fe/els2024/export/HTMLExporter.java:121 | with the opening line as written, no data row is a well-formed table row |
| Export.RowIdDistinct | Project/src/pt/up/fe/els2024/export/HTMLExporter.java:133 | in a column of two or more rows, distinct rows get distinct "-i" suffixes |
| Export.HtmlNestedNamesDistinct | Project/src/pt/up/fe/els2024/export/HTMLExporter.java:134 | distinct rows of such a column get distinct nested page names |
| Export.HtmlNestedPathsDistinct | Project/src/pt/up/fe/els2024/export/HTMLExporter.java:135 | distinct rows of such a column get distinct nested file paths |
| Export.HtmlExport | Project/src/pt/up/fe/els2024/export/HTMLExporter.java:103-175 | the exporter computes exactly the HTML pages, each data row opened by `<tr>` where the source writes `</tr>` |
| Export.HtmlExportWith | Project/src/pt/up/fe/els2024/export/HTMLExporter.java:103-175 | the exporter computes exactly the pages of any row layout, the as-written `</tr>` one included |
| Export.HtmlBody | Project/src/pt/up/fe/els2024/export/HTMLExporter.java:117-171 | the row loop appends exactly the row lines, for any row layout |
| Export.HtmlHeading | Project/src/pt/up/fe/els2024/export/HTMLExporter.java:110-114 | the header row with one <th> per column, in column order |
| Export.HtmlLine | Project/src/pt/up/fe/els2024/export/HTMLExporter.java:124-170 | the column loop builds exactly one row's cells, for any row layout |
| Export.HtmlCell | Project/src/pt/up/fe/els2024/export/HTMLExporter.java:125-167 | one cell's text and its nested files |
| Export.ColumnValue | Project/src/pt/up/fe/els2024/export/JSONExporter.java:36-51 | a single-cell column maps to that element; any other column maps to the list of its elements, in order |
| Export.Elements | Project/src/pt/up/fe/els2024/export/JSONExporter.java:40-46 | element n is cell n, with nested tables converted |
| Export.ColumnsMapKeys | Project/src/pt/up/fe/els2024/export/JSONExporter.java:30-55 | the keys are exactly the names of the columns seen |
| Export.ColumnsMapLast | Project/src/pt/up/fe/els2024/export/JSONExporter.java:51 | a name maps to the value of its last column |
| Export.MapOfColumns | Project/src/pt/up/fe/els2024/export/JSONExporter.java:30-55 | the key set is exactly the column names (the table name is not a key), and each name maps to its last column's value |
| Export.MapCreator | Project/src/pt/up/fe/els2024/export/JSONExporter.java:30-55 | the map-building loop computes exactly the table's map |
| Export.ColumnElements | Project/src/pt/up/fe/els2024/export/JSONExporter.java:36-51 | the element loop computes exactly the column's value |
| Export.XmlDocument | Project/src/pt/up/fe/els2024/export/XMLExporter.java:68-70 | a root map whose only key is the table name, holding the table's map |
| Export.FormatOf | Project/src/pt/up/fe/els2024/builders/TableBuilder.java:89-95 | csv, html, json and xml each select their exporter; no extension fails, and any other fails with "Unknown export extension: ..." |
| Export.Assembled | Project/src/pt/up/fe/els2024/builders/TableBuilder.java:85-98 | an unknown or missing extension fails with the dispatch error; success implies a known format; HTML pages open data rows with `<tr>` |
| Export.ExportTo | Project/src/pt/up/fe/els2024/builders/TableBuilder.java:85-98 | the dispatch computes exactly the assembled export |
| Export.AssembleFlatCsv | Project/src/pt/up/fe/els2024/builders/TableBuilder.java:90 | a flat table exported to a .csv path gives one page, at that path |
| Dsl.ResetStops | Project/src/pt/up/fe/els2024/parser/DSLParser.java:64-69 | the climb reaches the target exactly when it is not deeper than the start, after exactly the rank difference and not before; a deeper target is never reached |
| Dsl.Parent | Project/src/pt/up/fe/els2024/builders/Builder.java:21 | end() follows the chain Select, Import, Operation, Table, and Table to itself |
| Dsl.Ancestor | Project/src/pt/up/fe/els2024/parser/DSLParser.java:64-69 | the builder above in the chain has the target kind |
| Dsl.End | Project/src/pt/up/fe/els2024/builders/ImportBuilder.java:342-346 | end() on a non-table builder is its parent in the chain; only an import builder's end() can fail, with a runtime failure; a select builder hands its candidates to the import builder, an import builder merges them into the operation table exactly as `ImportEndColumns` says (failing exactly when that does), and an operation builder hands its table to the table builder |
| Dsl.Reset | Project/src/pt/up/fe/els2024/parser/DSLParser.java:64-69 | success is the ancestor of the target kind, and the builder itself, unchanged, when it already has that kind; a deeper target never finishes (Diverges); climbing past an import builder succeeds exactly when its merge does and leaves the merged columns in the operation table, with a select builder's candidates handed over first; reaching the table builder leaves it holding the operation table |
| Dsl.ExtensionName | Project/src/pt/up/fe/els2024/parser/DSLParser.java:77-84 | no name exactly for the NULL type |
| Dsl.ExtensionNameReadable | Project/src/pt/up/fe/els2024/parser/DSLParser.java:77-84 | every named extension is one the file parser reads and is the extension of a file named with it |
| Dsl.ExtensionNameUnquoted | Project/src/pt/up/fe/els2024/parser/DSLParser.java:284 | stripping quotes keeps every extension name |
| Dsl.ConstraintName | Project/src/pt/up/fe/els2024/parser/DSLParser.java:92-98 | no constraint exactly for the NULL type |
| Dsl.ConstraintNameRecognised | Project/src/pt/up/fe/els2024/parser/DSLParser.java:92-98 | every named constraint is upper case and is COMPOSITE or NON-COMPOSITE |
| Dsl.Filters | Project/src/pt/up/fe/els2024/parser/DSLParser.java:230-231 | no list exactly for the NULL type; otherwise the one constraint |
| Dsl.AtStart | Project/src/pt/up/fe/els2024/parser/DSLParser.java:106-111 | only FIRST inserts at the start |
| Dsl.FunctionName | Project/src/pt/up/fe/els2024/parser/DSLParser.java:119-125 | no function exactly for the NULL type |
| Dsl.FunctionNameRecognised | Project/src/pt/up/fe/els2024/parser/DSLParser.java:119-125 | every named function is upper case and is MAX or MIN |
| Dsl.TablePath | Project/src/pt/up/fe/els2024/parser/DSLParser.java:299 | no path exactly for "*" |
| Dsl.QuotedStarIsEveryTable | Project/src/pt/up/fe/els2024/parser/DSLParser.java:298-299 | a quoted "*" selects every table once the quotes are stripped |
| Dsl.SumInText | Project/src/pt/up/fe/els2024/parser/DSLParser.java:369 | any row operation text containing "SUM" sums |
| Dsl.OperationNamesDistinct | Project/src/pt/up/fe/els2024/parser/DSLParser.java:132-135 | operation names never repeat |
| Dsl.FolderImport | Project/src/pt/up/fe/els2024/builders/ImportBuilder.java:111-119 | no more tables than files, and the file path is set exactly when some table was read |
| Dsl.ReadFiles | Project/src/pt/up/fe/els2024/builders/ImportBuilder.java:111-119 | the listing with every file's table, in listing order |
| Dsl.FolderImportMatches | Project/src/pt/up/fe/els2024/builders/ImportBuilder.java:111-119 | when every file reads, the folder import picks the same tables in the same order as the extension filter does |
| Dsl.FolderTableNamesDistinct | Project/src/pt/up/fe/els2024/builders/ImportBuilder.java:179 | two different files in sub-folders never get the same table name |
| Dsl.SubFolderTables | Project/src/pt/up/fe/els2024/builders/ImportBuilder.java:184 | each file's table keeps its columns and is named root + sub + "/" + file |
| Dsl.FolderTables | Project/src/pt/up/fe/els2024/builders/ImportBuilder.java:155-188 | one entry per sub-folder, holding its renamed tables |
| Dsl.Step | Project/src/pt/up/fe/els2024/parser/DSLParser.java:459-479 | at the level of kinds, a step fails only for an unknown node or by never finishing |
| Dsl.TableThenDeeperDiverges | Project/src/pt/up/fe/els2024/parser/DSLParser.java:64-69 | once the builder is back at the table builder, a node needing any other builder never finishes, whatever follows |
| Dsl.ImportSelectAddRuns | Project/src/pt/up/fe/els2024/parser/DSLParser.java:459-479 | an import, then a selection, then a nested column runs and ends on a select builder |
| Dsl.DslParser.constructor | Project/src/pt/up/fe/els2024/parser/DSLParser.java:48-54 | the counter starts at 0 and extension mode is off |
| Dsl.DslParser.GetOperationName | Project/src/pt/up/fe/els2024/parser/DSLParser.java:132-135 | the counter goes up first, then names the operation |
| Dsl.DslParser.CreateTableNode | Project/src/pt/up/fe/els2024/parser/DSLParser.java:145-149 | back at the table builder, which takes the unquoted name; from a table builder it keeps its columns |
| Dsl.DslParser.OutputTableNode | Project/src/pt/up/fe/els2024/parser/DSLParser.java:159-164 | back at the table builder, exporting its table to the unquoted path; a failed export fails the node |
| Dsl.DslParser.NewImport | Project/src/pt/up/fe/els2024/parser/DSLParser.java:211-215 | a fresh empty import builder over the table builder's table, under the next operation name and then the shared name "Import"; from a table builder it cannot fail |
| Dsl.DslParser.ImportDataFileNode | Project/src/pt/up/fe/els2024/parser/DSLParser.java:209-217 | the read table becomes the only candidate and the unquoted path the file path; a read failure fails the node |
| Dsl.DslParser.ImportDataFolderNode | Project/src/pt/up/fe/els2024/parser/DSLParser.java:174-182 | from a table builder, succeeds exactly when the folder is listed and its import succeeds, taking its tables and path |
| Dsl.DslParser.ImportDataFoldersNode | Project/src/pt/up/fe/els2024/parser/DSLParser.java:192-199 | the sub-folders' renamed tables are recorded and there are no candidates yet |
| Dsl.DslParser.ExtensionBuilder | Project/src/pt/up/fe/els2024/parser/DSLParser.java:278-280 | resets to the import builder; a select builder in extension mode first ends and then merges its candidates into the operation table; the import builder reached keeps its sub-folder tables and holds its own candidates, none after that merge, or the select builder's |
| Dsl.DslParser.ExtensionNode | Project/src/pt/up/fe/els2024/parser/DSLParser.java:276-286 | extension mode is on; the candidates become those the import builder held on arrival, followed by the tables of the loaded sub-folders whose file has the extension, in folder order; the sub-folder tables are kept |
| Dsl.DslParser.SelectionColumnNode | Project/src/pt/up/fe/els2024/parser/DSLParser.java:227-233 | a fresh select builder holding the by-column selection of the candidates; from an import builder, succeeds exactly when that selection does |
| Dsl.DslParser.SelectionTableNode | Project/src/pt/up/fe/els2024/parser/DSLParser.java:296-303 | the same, by table path, where "*" is every table |
| Dsl.DslParser.FilterNodeHandler | Project/src/pt/up/fe/els2024/parser/DSLParser.java:313-325 | a fresh select builder holding the function selection over the sanitised column list |
| Dsl.DslParser.AddColumnNestedNode | Project/src/pt/up/fe/els2024/parser/DSLParser.java:243-249 | on a select builder, succeeds exactly when adding the column named after the node does, the candidates then being the result; its cell names the candidate's folder (FOLDERNAME) or the candidate itself (any other word) |
| Dsl.DslParser.NewOperation | Project/src/pt/up/fe/els2024/parser/DSLParser.java:263-265 | a fresh operation builder on the table builder's table under the next operation name; from a lower builder it fails exactly when the climb's import fails, and the table then holds the operation builder's columns or, from an import or select builder, those the import appends |
| Dsl.DslParser.AddColumnGlobalNode | Project/src/pt/up/fe/els2024/parser/DSLParser.java:259-266 | a new operation builder adds a one-cell column with the type text to the table: from a table builder to its columns, from an operation builder to that builder's table, and from an import or select builder to the columns the climb's import leaves, failing exactly when that import fails |
| Dsl.DslParser.DefineSuffixNode | Project/src/pt/up/fe/els2024/parser/DSLParser.java:335-340 | on an operation builder, succeeds exactly when the column exists, renaming the first match to "name suffix" |
| Dsl.DslParser.DefinePrefixNode | Project/src/pt/up/fe/els2024/parser/DSLParser.java:350-355 | on an operation builder, succeeds exactly when the column exists, renaming the first match to "prefix name" |
| Dsl.DslParser.RowOperationNode | Project/src/pt/up/fe/els2024/parser/DSLParser.java:365-372 | on an operation builder, the summary row the text names is appended and counted |
| Dsl.DslParser.RemoveColumnNode | Project/src/pt/up/fe/els2024/parser/DSLParser.java:382-386 | on an operation builder, succeeds exactly when the column exists, removing the first match |
| Dsl.DslParser.RenameColumnNode | Project/src/pt/up/fe/els2024/parser/DSLParser.java:396-401 | on an operation builder, succeeds exactly when the column exists, renaming the first match |
| Dsl.DslParser.OperationAtRowsNode | Project/src/pt/up/fe/els2024/parser/DSLParser.java:411-424 | on an operation builder, succeeds exactly when the row arithmetic does, the columns then being its result |
| Dsl.DslParser.ApplyImport | Project/src/pt/up/fe/els2024/parser/DSLParser.java:462-464 | an import node moves the builder as its kind-level step says and counts one operation; the new import builder works for the chain's table builder and holds the read file, the folder's matching tables and path, or the sub-folders' tables, as the node names |
| Dsl.DslParser.ApplyAtTable | Project/src/pt/up/fe/els2024/parser/DSLParser.java:459-479 | the table-level nodes move the builder as their step says |
| Dsl.DslParser.ApplyAtImport | Project/src/pt/up/fe/els2024/parser/DSLParser.java:459-479 | the extension and selection nodes move the builder as their step says and name no operation |
| Dsl.DslParser.ApplyOnSelection | Project/src/pt/up/fe/els2024/parser/DSLParser.java:459-479 | the filter and nested-column nodes move the builder as their step says and name no operation |
| Dsl.DslParser.ApplyAtOperation | Project/src/pt/up/fe/els2024/parser/DSLParser.java:472-477 | the operation-level nodes move the builder as their step says |
| Dsl.DslParser.ApplyChange | Project/src/pt/up/fe/els2024/parser/DSLParser.java:459-479 | every non-exporting node moves the builder as its step says |
| Dsl.DslParser.ApplyOutput | Project/src/pt/up/fe/els2024/parser/DSLParser.java:466 | the output node returns to the table builder and exports exactly one result, the assembled export of its table to the unquoted path; from a table builder it succeeds exactly when that export does |
| Dsl.DslParser.Apply | Project/src/pt/up/fe/els2024/parser/DSLParser.java:459-479 | one node moves the builder as its step says; an unknown node fails as not implemented |
| Dsl.DslParser.Parse | Project/src/pt/up/fe/els2024/parser/DSLParser.java:451-484 | succeeds only when the script runs at the level of kinds; returns one export per output node, counts every operation name used, and turns extension mode on when the script has an extension node |

## Left out

- File-system reads are inputs: a parsed file is a `Result<Table>`, a folder listing a sequence of file names with their parse results, and `fromFolders` a sequence of sub-folders with their files. The JSON, YAML and XML readers are not part of this model; their output is the nested `Value` datatype.
- File writes are outputs: every exporter returns the pages it would write (`Written` path and content). `writeToFile` and the recursive nested-file exports happen only as these records.
- The Gson and Jackson serialisation of the JSON and XML maps is not modelled. The model stops at the map (`MapOf`, `XmlDocument`).
- HashMap iteration order is unspecified in Java. The order of the `fromFoldersMap` keys is a parameter (`order`, `FolderNames`), top-N groups appear in order of first appearance, and the JSON and XML maps are Dafny maps, which have no order.
- Java `double` is modelled as an exact `real`. `Math.round(x*100)/100` is `Round2` on reals, with no rounding error. A division by zero gives the infinity or NaN that `Aggregation.Rounded` rounds as `Math.round` does: the largest or smallest long over 100, or 0 for 0/0. The mean of a column with only synthetic rows gives 0, which is where Java's NaN rounds to.
- Aggregation.Round2: a finite value beyond the long range is rounded exactly, where `Math.round` saturates at the largest or smallest long.
- Java's Integer and Double are one `real`. A number read from a file stays an Integer in Java and prints as "3"; a computed Double prints as "3.0". The exporters' `fmt` parameter sees only the value, so it cannot tell the two apart.
- Aggregation.ParseDecimal: accepts only an optional sign, digits and an optional fraction, with surrounding blanks. `Double.parseDouble` also accepts exponents, hexadecimal, "NaN", "Infinity" and type suffixes.
- Turning a number into text in the exporters is a parameter `fmt`, because `Double.toString` is not modelled.
- `toLowerCase` and `toUpperCase` are modelled on ASCII letters only. Locale rules and Unicode case mapping are left out.
- The `$` in Java's patterns also matches before a final line terminator: in the list-sanitising pattern, in `/+$` (Utils.java:122) and in `['"]$` (Utils.java:148). That case is not modelled.
- Object aliasing between tables is not modelled, because columns are values. `Column(name, rows)` sharing the caller's list, `mergeTables` appending columns by reference, and merged rows landing in the source table's first-seen column are therefore not visible. Within one merge, the concurrent-modification failure when a first-seen column has two or more rows is computed (`Merging.MergeRowsNew`).
- Builders.ImportBuilder.WhenExtension and Merging.MatchingTables: the sub-folder tables are values here, where Java adds the `fromFoldersMap` Table objects themselves to the candidates. A selection's `setColumns` and a merge's appended rows then change those objects. A script with a second `when` for the same extension therefore re-adds tables Java has already changed: columns a selection removed come back in the model, and where the first merge grew a first-seen column, Java's second merge throws a ConcurrentModificationException while the model's succeeds.
- Column names are never null, so the CSV header's skipping of null names is not modelled. A CSV header of a table with columns therefore lists every column.
- The exception classes become the `Error` datatype. Their messages keep the source's text. Every Java runtime exception (null dereference, index out of bounds, failed cast, concurrent modification) is the single `RuntimeFailure`, and the `reset` loop that never ends is the result `Diverges`.
- The script parser's EMF and Xtext set-up, its resource loading and its error printing are not part of this model. A script is a sequence of `Node` values, and `DSLException` wrapping keeps the inner error as `DslError`.
- `Main.java` and `getFileExtension` are not part of this model. The table name the CSV exporter passes to its nested exports is dropped, because CSV output never writes it.
- Dsl.DslParser.CreateTableNode: the kept columns are stated only when the builder already is a table builder. From a deeper builder the contract states the reset and the new name.
- Dsl.DslParser.OutputTableNode: that the node succeeds exactly when the export does is stated only from a table builder.
- Dsl.DslParser.SelectionColumnNode: that it succeeds exactly when the selection does is stated only from an import builder. From a select builder the `end()` on the way is covered only by the reset's contract.
- Dsl.DslParser.SelectionTableNode: the same as the column selection, from an import builder only.
- Dsl.DslParser.FilterNodeHandler: the same, from an import builder only.
- Dsl.DslParser.AddColumnNestedNode: the effect on the candidates is stated only from a select builder.
- Dsl.DslParser.DefineSuffixNode: the renaming is stated only from an operation builder.
- Dsl.DslParser.DefinePrefixNode: the renaming is stated only from an operation builder.
- Dsl.DslParser.RowOperationNode: the summary row is stated only from an operation builder.
- Dsl.DslParser.RemoveColumnNode: the removal is stated only from an operation builder.
- Dsl.DslParser.RenameColumnNode: the renaming is stated only from an operation builder.
- Dsl.DslParser.OperationAtRowsNode: the arithmetic is stated only from an operation builder.
- Dsl.DslParser.ApplyAtImport, Dsl.DslParser.ApplyOnSelection, Dsl.DslParser.ApplyAtTable, Dsl.DslParser.ApplyAtOperation, Dsl.DslParser.ApplyChange and Dsl.DslParser.Apply state each node's effect at the level of builder kinds and counters. The per-node table effects are in the handlers' contracts.
- Dsl.DslParser.Parse: states the kind-level trace, the number of exports, the operation counter and the extension mode. The table contents follow from the handlers and are not restated for a whole script.
- Selection.SortGroup: models `List.sort` as TimSort runs it on fewer than 32 tables (leading run, reversal, binary insertion). A group of 32 or more, where TimSort also merges runs, is sorted the same way in the model, so with a non-number first cell among numbers such a group may come out in a different order than in Java.
- Export.HtmlExport, Export.Assembled, Export.ExportTo and Builders.TableBuilder.Assemble write each HTML data row opened by `<tr>`, the corrected form of HTMLExporter.java:121 (see Findings). The pages as written are `Export.HtmlFilesAsWritten`, which `Export.HtmlExportWith` also computes.
- Selection.TopN: its own contract states only the output count. The grouping, ranking, suffixes and Folder column are stated by `Selection.SortGroupRanked`, `Selection.RankGroup`, `Selection.SuffixedColumns`, `Selection.TopNFolderColumn` and `Selection.TopNSmallGroupFails`.

## Findings

| source | as written | input that shows it | evidently intended | confidence | as-written member | corrected member |
|---|---|---|---|---|---|---|
| Project/src/pt/up/fe/els2024/export/HTMLExporter.java:121 | each data row opens with the closing tag `</tr>` | any table with at least one column and one row of cells | each data row opens with `<tr>` | not executed | Export.HtmlRowsAsWrittenUnopened | Export.HtmlRowsAreTableRows |

The as-written layout is `Export.HtmlFilesAsWritten`; `Export.HtmlRowsAsWrittenUnopened` proves that none of its data rows is a well-formed table row. The exporter `Export.HtmlExport` and the output dispatch `Export.Assembled` use the corrected layout, `Export.HtmlFiles`, and `Export.HtmlRowsAreTableRows` proves every data row of that layout well formed.
