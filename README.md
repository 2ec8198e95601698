# SqlExplorer: a verified model of the command line, the foreign-key DTO and the report writer

SqlExplorer is a command-line tool. It connects to a SQL Server database and writes four
reports into an output directory:

- a dependency report, with one block per table in dependency order;
- a tables CSV, with one line per column;
- a views CSV and a routines CSV, each showing the first 50 characters of every definition.

This project models, in Dafny, the parts of the tool that decide things:

- `Cli` (SqlExplorerCli/Program.cs):
  - `HandleArgs`, the parse loop over the argument array. Flags are matched case-insensitively. `-c` and `-d` consume the next argument verbatim. An unknown or truncated argument raises an error.
  - `Validate`, the two required-setting checks and the loop that strips trailing `/` and `\` from the output directory.
  - The branch in `Main` that shows help instead of validating.

  Program's static fields are the fields of the class `Cli.Program`. Its methods update them, and each method is proved against a function of the old fields: `HandleArgsFrom`, `ValidationFailure` and `Validated`, and `LaunchFrom`. A second, independent reading of the arguments, `Lex` followed by `Apply`, is proved equal to the loop. The per-flag properties are proved on that reading.
- `ForeignKeys` (SqlServer/ForeignKeyDto.cs):
  - the constructor's seven guarded assignments, which check in a fixed order;
  - the typed and the untyped `Equals`;
  - `GetHashCode`, a 32-bit wrapping fold. `int32` and `Wrap` make the C# unchecked arithmetic explicit.
- `Reports` (SqlExplorerCli/Reports.cs):
  - the constructor's guards, `CleanupDbName`, the report file names and `CheckExistingFile`;
  - the 50-character definition truncation with newline collapsing;
  - the exact text that `CreateTableReportAsync`, `CreateViewReportAsync`, `CreateRoutineReportAsync` and `CreateDependencyReportAsync` write, each as a method with its loops.
- `Text`: the .NET string primitives these files use. These are `IsNullOrWhiteSpace`, `ToLower` and the ordinal, left-to-right, non-overlapping `Replace`. `Join` and `Split` describe comma-separated lines.
- `Wrappers`: `Option` and `Result`.

Modelling conventions:

- A null reference is `None`.
- A thrown exception is an error value: `Failure`, `Some(error)` or a `LaunchOutcome`.
- What a report method writes to its stream is returned as a string.
- `Environment.NewLine` is a non-empty `newline` parameter.
- Several inputs are parameters:
  - whether a file exists;
  - the string hash;
  - the orderings and queries the report methods obtain from the database.

## Model

| member | source | states |
|---|---|---|
| Cli.Program.HandleArgs | SqlExplorerCli/Program.cs:61-92 | The fields and the error after the loop are those of `HandleArgsFrom` run from index 0 on the old fields. |
| Cli.HandleArgsIsLexThenApply | SqlExplorerCli/Program.cs:63-91 | The parse loop equals reading the arguments into tokens and then applying the tokens in order. Its outcome is the applied settings together with the tokeniser's error. |
| Cli.LexReadsArguments | SqlExplorerCli/Program.cs:63-91 | The tokens cover the arguments from `a` one after another. Each index is a flag or the value of the `-c`/`-d` just before it. Every token is what the argument at its index says, and a value is the next argument verbatim. There is no error iff every argument was read. An error stops at the unknown argument, or at a `-c`/`-d` with nothing after it. |
| Cli.UnknownArgumentStops | SqlExplorerCli/Program.cs:88-89 | An unrecognised argument in flag position ends the parse with "Unknown argument" carrying the argument as written. The fields are left as they were. |
| Cli.ConnectionStringValueConsumed | SqlExplorerCli/Program.cs:69-73 | When `-c` is not last, the next argument becomes the connection string verbatim, is not parsed as a flag, and parsing resumes after it. |
| Cli.ApplyConnectionString | SqlExplorerCli/Program.cs:72 | The connection string is the value of the last `-c` token, or is unchanged when there is none. |
| Cli.ApplyOutputDirectory | SqlExplorerCli/Program.cs:77 | The output directory is the value of the last `-d` token, or is unchanged when there is none. |
| Cli.ApplySwitches | SqlExplorerCli/Program.cs:79-87 | `overwriteFiles` and `showHelp` each end up true iff they were true before or an `-o`/`-h` token occurs. They are never reset. |
| Cli.RecognizeIgnoresCase | SqlExplorerCli/Program.cs:65-87 | Each flag kind is recognised iff the argument equals one of its spellings, ignoring letter case. |
| Cli.ValidationFailure | SqlExplorerCli/Program.cs:96-97 | Validation fails with "connection string required" iff the connection string is null or blank. It fails with "output directory required" iff the connection string is fine and the directory is null or blank. It succeeds iff neither is. |
| Cli.StripTrailingSeparators | SqlExplorerCli/Program.cs:99-102 | The result is a prefix of the input and does not end with `/` or `\`. Everything removed is a separator. |
| Cli.Program.Validate | SqlExplorerCli/Program.cs:94-102 | Returns `ValidationFailure` of the old fields. On an error nothing changes. On success only the output directory changes, to its stripped form. |
| Cli.Program.Run | SqlExplorerCli/Program.cs:20-40 | Main's outcome is as follows. An argument error escapes Main's try. With help requested, help is shown without validating. Otherwise validation either rejects with its message or the validated settings go on to the reports. In that last case the static fields the reports read hold exactly those settings. |
| Cli.HelpSkipsValidation | SqlExplorerCli/Program.cs:27-33 | When the arguments parse and ask for help, the program shows help and exits with 0, even with no `-c` or `-d`. |
| Cli.ExitCode | SqlExplorerCli/Program.cs:21-52 | An argument error escapes before `Environment.Exit`. Otherwise the exit code is 0 or -1. It is 0 iff help was shown, or validation passed and neither creating the directory, connecting nor writing a report threw. |
| Cli.ReadyToReportIsValidated | SqlExplorerCli/Program.cs:27-33 | Reports are only reached with a non-blank connection string, an output directory that has no trailing separator, and no help flag. |
| ForeignKeys.Create | SqlServer/ForeignKeyDto.cs:21-36 | Construction succeeds iff all seven arguments are non-null and not blank. Otherwise the error names the first failing parameter in the order name, schema, tableName, columnName, referenceSchema, referenceTableName, referenceColumnName. On success each property equals its argument. |
| ForeignKeys.EqualsIsFieldEquality | SqlServer/ForeignKeyDto.cs:88-98 | The typed `Equals` with a non-null argument is true iff all seven fields are equal. |
| ForeignKeys.EqualsDtoNull | SqlServer/ForeignKeyDto.cs:90 | The typed `Equals` is false for null. |
| ForeignKeys.EqualsObjectAgrees | SqlServer/ForeignKeyDto.cs:78-81 | `Equals(object)` is false for null and for an object that is not a ForeignKeyDto, and otherwise agrees with the typed `Equals`. |
| ForeignKeys.EqualsReflexive | SqlServer/ForeignKeyDto.cs:88-98 | Every DTO equals itself. |
| ForeignKeys.EqualsSymmetric | SqlServer/ForeignKeyDto.cs:88-98 | Equality is symmetric. |
| ForeignKeys.EqualsTransitive | SqlServer/ForeignKeyDto.cs:88-98 | Equality is transitive. |
| ForeignKeys.GetHashCode | SqlServer/ForeignKeyDto.cs:104-115 | The seven in-place updates of `hashCode` compute the wrapping fold `HashCode` with seed 671857233 and multiplier -1521134295. |
| ForeignKeys.FoldPrefix | SqlServer/ForeignKeyDto.cs:106-114 | Folding the first `n` hashes and then the rest is the whole fold. |
| ForeignKeys.FoldIsWrappedPolynomial | SqlServer/ForeignKeyDto.cs:106-114 | Wrapping to 32 bits after every multiply and add gives the same value as computing exactly and wrapping once. |
| ForeignKeys.HashCodeIsWrappedPolynomial | SqlServer/ForeignKeyDto.cs:104-115 | The hash code is the exact polynomial in the field hashes, reduced once to a 32-bit two's-complement value. |
| ForeignKeys.EqualImpliesEqualHash | SqlServer/ForeignKeyDto.cs:78-115 | Objects that `Equals` reports equal have the same hash code, for any string hash. |
| Reports.NewReports | SqlExplorerCli/Reports.cs:26-31 | Construction succeeds iff the database is non-null and the directory name is neither null nor blank. The database is checked first. `overwriteFiles` is stored as given. |
| Reports.CleanupDbName | SqlExplorerCli/Reports.cs:188-191 | The length is preserved. Every space becomes `_` and every other character is unchanged. |
| Reports.ReportFileName | SqlExplorerCli/Reports.cs:39 | A report's file name is the directory, a backslash, the database name with each space turned into `_` and every other character kept, and then the report's suffix. |
| Reports.ReportFileNamesDistinct | SqlExplorerCli/Reports.cs:39-128 | Reports with different suffixes go to different files. |
| Reports.CheckExistingFile | SqlExplorerCli/Reports.cs:180-186 | It raises "already exists" for the file iff the file exists and overwriting is off. |
| Reports.TruncatedDefinition | SqlExplorerCli/Reports.cs:83 | The result has at most 50 characters and contains no newline. A head of the definition that has no newline is shown unchanged. For a one-character newline the result has the head's length and is the head with each newline character turned into a space. |
| Reports.TruncatedAtFirstNewline | SqlExplorerCli/Reports.cs:83 | For a newline of any length, the shown head is copied up to its first newline, that newline becomes one space, and the rest is collapsed the same way. |
| Reports.CollapseNewlines | SqlExplorerCli/Reports.cs:112 | Replacing each newline with a space does not lengthen the string. It leaves no newline when the newline value contains no space. A string without a newline is unchanged. A one-character newline is replaced position by position. |
| Text.ReplaceFirstOccurrence | SqlExplorerCli/Reports.cs:83 | `Replace` copies the text before the first occurrence, substitutes that occurrence, and continues on the text after it. |
| Text.ReplaceCharByChar | SqlExplorerCli/Reports.cs:190 | Replacing one character by another keeps the length and maps the string position by position. |
| Text.ReplaceRemovesAll | SqlExplorerCli/Reports.cs:83 | After `Replace`, no occurrence of the old value remains when the new value shares no character with it. |
| Text.ReplaceAbsent | SqlExplorerCli/Reports.cs:83 | `Replace` leaves a string with no occurrence of the old value unchanged. |
| Text.ReplaceNoLonger | SqlExplorerCli/Reports.cs:83 | `Replace` by a value no longer than the old one does not lengthen the string. |
| Reports.OrderedKeys | SqlExplorerCli/Reports.cs:51 | `OrderBy(c => c.Key)` on the column positions lists every key exactly once, in strictly ascending order. |
| Reports.TableRowsFollowPositions | SqlExplorerCli/Reports.cs:51-54 | A table contributes one data line per column, the line for the column at the `j`-th smallest position coming `j`-th. |
| Reports.AppendTableRows | SqlExplorerCli/Reports.cs:51-57 | The inner loop appends exactly the table's data lines to what was written before. |
| Reports.NatTextValue | SqlExplorerCli/Reports.cs:54 | The decimal text of a number reads back as that number. |
| Reports.IntText | SqlExplorerCli/Reports.cs:54 | An integer is written as a minus sign exactly when it is negative, followed by the decimal digits of its magnitude with no leading zero (a lone `0` for zero). |
| Reports.ColumnRowFields | SqlExplorerCli/Reports.cs:54 | When no text field contains a comma, a tables CSV line reads back at its commas as nine fields in header order. These are schema, table, the column's own `OrdinalPosition` (not its map key), name and data type; then precision, max length and default, each empty when null; and `True` or `False` for nullability. |
| Text.SplitJoin | SqlExplorerCli/Reports.cs:54 | Splitting fields joined by a separator gives them back when no field contains the separator. |
| Reports.CreateTableReport | SqlExplorerCli/Reports.cs:37-62 | If the file exists and overwriting is off, it fails with "already exists". Otherwise it writes the header line and then every table's data lines, in the table order given. |
| Reports.TablesRowsCount | SqlExplorerCli/Reports.cs:49-57 | The number of data lines is the total column count. |
| Reports.ColumnCountPermutation | SqlExplorerCli/Reports.cs:49 | The total column count does not depend on the order the tables are listed in. |
| Reports.TableReportShape | SqlExplorerCli/Reports.cs:44-57 | For any ordering of the database's tables, the CSV starts with the header and has one line plus one line per column of the database. |
| Reports.DefinitionRow | SqlExplorerCli/Reports.cs:83-84 | A views or routines data line is `schema,name,` followed by `TruncatedDefinition` of the definition. That tail has at most 50 characters. It has no newline when the newline value contains no space. It is the definition's head unchanged when that head has no newline. For a one-character newline it is the head with each newline character turned into a space. |
| Reports.CreateViewReport | SqlExplorerCli/Reports.cs:68-91 | It fails with "already exists" as `CheckExistingFile` says. Otherwise a view with a null definition makes it fail with a null reference. With every definition present it writes the header and one `DefinitionRow` per view, in the order given. |
| Reports.CreateRoutineReport | SqlExplorerCli/Reports.cs:97-120 | It fails with "already exists" as `CheckExistingFile` says. Otherwise a routine with a null definition makes it fail with a null reference. With every definition present it writes the header and one `DefinitionRow` per routine, in the order given. |
| Reports.TableInfo | SqlExplorerCli/Reports.cs:138-170 | The StringBuilder of one table ends holding exactly the lines of that table's block. |
| Reports.AppendTableDependencies | SqlExplorerCli/Reports.cs:145-152 | Appends the "Table Dependencies" section, which holds one indented child-table full name per foreign key and is empty when there are none. |
| Reports.AppendViewDependencies | SqlExplorerCli/Reports.cs:154-161 | Appends the "View Dependencies" section, which holds one indented full name per view and is empty when there are none. |
| Reports.AppendRoutineDependencies | SqlExplorerCli/Reports.cs:163-170 | Appends the "Routine Dependencies" section, which holds one indented full name per routine and is empty when there are none. |
| Reports.CreateDependencyReport | SqlExplorerCli/Reports.cs:126-178 | It fails with "already exists" as `CheckExistingFile` says. Otherwise it writes the blocks of the tables in the sorter's order. |
| Reports.DependencyReportAppend | SqlExplorerCli/Reports.cs:136-173 | The report for two runs of tables is the report for the first followed by the report for the second. |
| Reports.DependencyReportBlocks | SqlExplorerCli/Reports.cs:131-173 | The report is exactly one block per table in the sorter's order. Table `k`'s block stands between the blocks of the tables before it and those after it. |
| Reports.BlockHeaders | SqlExplorerCli/Reports.cs:139-170 | A block begins with `Schema.Name`, and each of the three section headers appears in it iff its list is non-empty. |
| Reports.BlockPositions | SqlExplorerCli/Reports.cs:145-170 | The sections come in the fixed order table, view, routine. Each header is followed by one `\t\t`-prefixed full-name line per item, in enumeration order. For a foreign key the name is its child table's. |
| Reports.SectionLayout | SqlExplorerCli/Reports.cs:145-152 | A non-empty section is its header followed by one indented line per item. An empty section has no lines. |
| Reports.HeaderInSection | SqlExplorerCli/Reports.cs:145-170 | An item line never reads as a header, so a header occurs in a section only as that section's own heading. |

## Left out

- File and stream I/O are not modelled: `File.Create`, `WriteAsync`, `FlushAsync`, `Close` and the UTF-8 encoding of the text. The model returns the text a report writes. Whether the file exists is a boolean parameter.
- `async`/`Task`: everything is sequential.
- The `Directory.Exists`/`CreateDirectory` step at the end of `Validate` (SqlExplorerCli/Program.cs:104-107) is file-system I/O. So is a directory that strips to the empty string and then reaches `CreateDirectory`.
- `ShowHelp`'s console output, `Environment.Exit` and the database connection are not modelled. The model ends Main at its outcome. The exit code after validation succeeds depends on whether creating the directory, connecting or a report throws; that is a parameter of `ExitCode`.
- `GenerateReportAsync` uses reflection through `Activator.CreateInstance`. The report classes it instantiates (`DependencyReport`, `TablesReport`, `ViewsReport`, `RoutinesReport`) are not part of this model. The `Reports` class is modelled as written in Reports.cs.
- SqlServer/Database.cs is query plumbing over SQL Server and is not part of this model.
- The dependency sorter and the reference queries are parameters of the dependency report: `GetTablesSortedByDependency`, `GetChildForeignKeysForTable`, `GetViewsReferencingTable` and `GetRoutinesReferencingTable`.
- The culture-sensitive `OrderBy(t => t.FullName)` is not modelled. The ordered tables, views and routines are parameters. The row count is proved for every ordering of the database's tables.
- The record types Table, Column, View, Routine and ForeignKey are minimal records with the fields the reports read. Column values are formatted as .NET formats `int`, `int?`, `bool` and `string` under the invariant culture. The source formats with the current culture, so another culture (for example, a different minus sign) is not modelled.
- `EqualityComparer<string>.Default.GetHashCode` is randomised per process. It is a function parameter.
- `ToLower` uses the current culture. It is modelled for ASCII letters only, and `EndsWith` is modelled as ordinal.
- Strings are sequences of Dafny characters, not UTF-16 code units.
- Reports.TruncatedDefinition: the "no newline remains" guarantee is proved only for a newline value that contains no space character. Both real values, "\n" and "\r\n", qualify. The position-by-position form is proved for a one-character newline. For "\r\n" the result is given occurrence by occurrence, by `TruncatedAtFirstNewline`.
- A null view or routine definition throws only after the header and the earlier lines have been written to the file. The model returns just the failure, not that partial text.
