/**
 * The report writer of SqlExplorerCli (Reports.cs): the constructor's
 * guards, the file name and overwrite check, the definition truncation,
 * and the exact text of the tables, views, routines and dependency
 * reports.
 *
 * What a report method writes to its stream is returned as a string.  The
 * orderings and queries the methods obtain from the database (the tables
 * sorted by dependency, the child foreign keys and the views and routines
 * that reference a table, and the tables, views and routines ordered by
 * full name) are parameters.
 */
module Reports {
  import opened Wrappers
  import opened Text

  // ---------------------------------------------------------------------
  // The schema objects, as far as the reports read them

  datatype Column = Column(
    name: string,
    ordinalPosition: int,
    dataType: string,
    numericPrecision: Option<int>,
    maxLength: Option<int>,
    isNullable: bool,
    columnDefault: Option<string>)

  /** A table: its columns keyed by ordinal position. */
  datatype Table = Table(schema: string, name: string, fullName: string, columns: map<int, Column>)

  /** A view; its definition is null when the database does not return it. */
  datatype View = View(schema: string, name: string, fullName: string, definition: Option<string>)

  /** A routine; its definition is null when the database does not return it. */
  datatype Routine = Routine(schema: string, name: string, fullName: string, definition: Option<string>)

  /** A foreign key; the dependency report reads only its child table. */
  datatype ForeignKey = ForeignKey(childTable: Table)

  datatype Database = Database(name: string, tables: seq<Table>, views: seq<View>, routines: seq<Routine>)

  // ---------------------------------------------------------------------
  // Construction

  /** The three read-only fields of a Reports object. */
  datatype Reports = Reports(database: Database, directoryName: string, overwriteFiles: bool)

  datatype ReportError =
    | ArgumentNull(paramName: string)     // ArgumentNullException from the constructor
    | FileAlreadyExists(fileName: string) // the Exception thrown by CheckExistingFile
    | NullDefinition                      // NullReferenceException from reading a null definition

  function ReportErrorMessage(e: ReportError): string
  {
    match e
    case ArgumentNull(p) => "Value cannot be null. (Parameter '" + p + "')"
    case FileAlreadyExists(f) => "File '" + f + "' already exists; use -o to overwrite."
    case NullDefinition => "Object reference not set to an instance of an object."
  }

  /** The constructor: a null database is rejected first, then a null or
      blank directory name; `overwriteFiles` is stored as given. */
  function NewReports(database: Option<Database>, directoryName: Option<string>, overwriteFiles: bool)
    : (r: Result<Reports, ReportError>)
    ensures r.Success? <==> database.Some? && !IsNullOrWhiteSpace(directoryName)
    ensures database.None? ==> r == Failure(ArgumentNull("database"))
    ensures database.Some? && IsNullOrWhiteSpace(directoryName) ==> r == Failure(ArgumentNull("directoryName"))
    ensures r.Success? ==>
      Some(r.value.database) == database && Some(r.value.directoryName) == directoryName &&
      r.value.overwriteFiles == overwriteFiles
  {
    if database.None? then Failure(ArgumentNull("database"))
    else if IsNullOrWhiteSpace(directoryName) then Failure(ArgumentNull("directoryName"))
    else Success(Reports(database.value, directoryName.value, overwriteFiles))
  }

  // ---------------------------------------------------------------------
  // File names and the overwrite check

  /** The database name with every space replaced by `_`. */
  function CleanupDbName(databaseName: string): (r: string)
    ensures |r| == |databaseName|
    ensures forall i :: 0 <= i < |r| ==> r[i] == (if databaseName[i] == ' ' then '_' else databaseName[i])
  {
    ReplaceCharByChar(databaseName, " ", "_");
    Replace(databaseName, " ", "_")
  }

  const TablesSuffix := "_Tables.csv"
  const ViewsSuffix := "_Views.csv"
  const RoutinesSuffix := "_Routines.csv"
  const DependencySuffix := "_Dependency.txt"

  /** `{directoryName}\{CleanupDbName(database.Name)}{suffix}`: the directory,
      a backslash, the database name with its spaces turned into `_`, and
      the report's suffix. */
  function ReportFileName(r: Reports, suffix: string): (f: string)
    ensures var dir := r.directoryName;
      var name := r.database.name;
      var n := |dir| + 1 + |name|;
      && |f| == n + |suffix|
      && f[..|dir|] == dir
      && f[|dir|] == '\\'
      && (forall i :: 0 <= i < |name| ==> f[|dir| + 1 + i] == (if name[i] == ' ' then '_' else name[i]))
      && f[n..] == suffix
  {
    var dir := r.directoryName;
    var clean := CleanupDbName(r.database.name);
    var f := dir + "\\" + clean + suffix;
    assert f[..|dir|] == dir && f[|dir| + 1 + |clean|..] == suffix;
    assert forall i :: 0 <= i < |clean| ==> f[|dir| + 1 + i] == clean[i];
    f
  }

  /** The four reports of one Reports object go to four different files. */
  lemma ReportFileNamesDistinct(r: Reports, suffix1: string, suffix2: string)
    requires suffix1 != suffix2
    ensures ReportFileName(r, suffix1) != ReportFileName(r, suffix2)
  {
    var n := |r.directoryName| + 1 + |r.database.name|;
    assert ReportFileName(r, suffix1)[n..] == suffix1;
    assert ReportFileName(r, suffix2)[n..] == suffix2;
  }

  /** CheckExistingFile, with `File.Exists(filename)` as a parameter: it
      throws exactly when the file exists and overwriting is off. */
  function CheckExistingFile(r: Reports, fileName: string, fileExists: bool): (e: Option<ReportError>)
    ensures e.Some? <==> fileExists && !r.overwriteFiles
    ensures e.Some? ==> e.value == FileAlreadyExists(fileName)
  {
    if fileExists && !r.overwriteFiles then Some(FileAlreadyExists(fileName)) else None
  }

  // ---------------------------------------------------------------------
  // Lines of text

  /** The text of `AppendLine`/`WriteAsync` calls, one per line: each line
      followed by the newline. */
  function Lines(lines: seq<string>, newline: string): string
    decreases |lines|
  {
    if lines == [] then "" else lines[0] + newline + Lines(lines[1..], newline)
  }

  lemma {:induction false} LinesAppend(a: seq<string>, b: seq<string>, newline: string)
    ensures Lines(a + b, newline) == Lines(a, newline) + Lines(b, newline)
    decreases |a|
  {
    if a == [] {
      assert a + b == b;
    } else {
      assert (a + b)[0] == a[0] && (a + b)[1..] == a[1..] + b;
      LinesAppend(a[1..], b, newline);
    }
  }

  /** Appending one more line of `rows` to the text. */
  lemma LinesExtend(before: seq<string>, rows: seq<string>, j: nat, newline: string)
    requires j < |rows|
    ensures Lines(before + rows[..j + 1], newline) == Lines(before + rows[..j], newline) + rows[j] + newline
  {
    assert before + rows[..j + 1] == (before + rows[..j]) + [rows[j]];
    LinesAppend(before + rows[..j], [rows[j]], newline);
    assert Lines([rows[j]], newline) == rows[j] + newline + Lines([], newline);
  }

  // ---------------------------------------------------------------------
  // Definitions, for the views and routines reports

  const DefinitionWidth := 50

  /** The definition shown in a report: at most its first 50 characters,
      with each newline replaced by a space. */
  function TruncatedDefinition(definition: string, newline: string): (r: string)
    requires |newline| > 0
    ensures |r| <= DefinitionWidth
    ensures ' ' !in newline ==> NoOccurrence(r, newline)
    ensures var shown := if |definition| < DefinitionWidth then definition else definition[..DefinitionWidth];
      NoOccurrence(shown, newline) ==> r == shown
    ensures var shown := if |definition| < DefinitionWidth then definition else definition[..DefinitionWidth];
      |newline| == 1 ==>
        |r| == |shown| && forall i :: 0 <= i < |r| ==> r[i] == (if shown[i] == newline[0] then ' ' else shown[i])
  {
    var shown := if |definition| < DefinitionWidth then definition else definition[..DefinitionWidth];
    CollapseNewlines(shown, newline);
    if |definition| < DefinitionWidth then Replace(definition, newline, " ")
    else Replace(definition[..DefinitionWidth], newline, " ")
  }

  /** What replacing each newline by a space does to a string. */
  lemma CollapseNewlines(s: string, newline: string)
    requires |newline| > 0
    ensures |Replace(s, newline, " ")| <= |s|
    ensures ' ' !in newline ==> NoOccurrence(Replace(s, newline, " "), newline)
    ensures NoOccurrence(s, newline) ==> Replace(s, newline, " ") == s
    ensures |newline| == 1 ==>
      |Replace(s, newline, " ")| == |s| &&
      forall i :: 0 <= i < |s| ==> Replace(s, newline, " ")[i] == (if s[i] == newline[0] then ' ' else s[i])
  {
    ReplaceNoLonger(s, newline, " ");
    if |newline| == 1 {
      ReplaceCharByChar(s, newline, " ");
    }
    if ' ' !in newline {
      ReplaceRemovesAll(s, newline, " ");
    }
    if NoOccurrence(s, newline) {
      ReplaceAbsent(s, newline, " ");
    }
  }

  /** The shown head of a definition is copied up to its first newline, which
      becomes a space, and the collapsing carries on after it. */
  lemma TruncatedAtFirstNewline(definition: string, newline: string, before: string, after: string)
    requires |newline| > 0
    requires (if |definition| < DefinitionWidth then definition else definition[..DefinitionWidth]) == before + newline + after
    requires forall i :: 0 <= i < |before| ==> !OccursAt(before + newline + after, newline, i)
    ensures TruncatedDefinition(definition, newline) == before + " " + Replace(after, newline, " ")
  {
    ReplaceFirstOccurrence(before, newline, " ", after);
  }

  // ---------------------------------------------------------------------
  // The tables report

  const TablesHeader := "Schema,Table,Position,Column,Data Type,Precision,Max Length,Is Nullable,Default"

  function Digit(d: nat): char
    requires d < 10
  {
    ('0' as int + d) as char
  }

  predicate IsDigits(s: string)
  {
    forall i :: 0 <= i < |s| ==> '0' <= s[i] <= '9'
  }

  /** The number a string of decimal digits denotes. */
  function DecimalValue(s: string): nat
    requires IsDigits(s)
    decreases |s|
  {
    if s == [] then 0 else DecimalValue(s[..|s| - 1]) * 10 + (s[|s| - 1] as int - '0' as int)
  }

  /** Decimal text of a number, as string interpolation writes it. */
  function NatText(n: nat): (r: string)
    ensures |r| > 0 && IsDigits(r)
    ensures r[0] == '0' ==> n == 0
    ensures r[0] == '0' ==> |r| == 1
    decreases n
  {
    if n < 10 then [Digit(n)] else NatText(n / 10) + [Digit(n % 10)]
  }

  /** The digits read back as the number they were written from. */
  lemma {:induction false} NatTextValue(n: nat)
    ensures DecimalValue(NatText(n)) == n
    decreases n
  {
    if n >= 10 {
      NatTextValue(n / 10);
      var t := NatText(n);
      assert t[..|t| - 1] == NatText(n / 10);
    }
  }

  /** A minus sign before the digits exactly when the number is negative. */
  function IntText(n: int): (r: string)
    ensures |r| > 0 && (r[0] == '-' <==> n < 0)
    ensures n < 0 ==> IsDigits(r[1..]) && DecimalValue(r[1..]) == -n
    ensures n >= 0 ==> IsDigits(r) && DecimalValue(r) == n
    ensures var digits := if n < 0 then r[1..] else r;
      |digits| > 0 && (digits[0] == '0' ==> |digits| == 1)
  {
    NatTextValue(if n < 0 then -n else n);
    if n < 0 then
      assert ("-" + NatText(-n))[1..] == NatText(-n);
      "-" + NatText(-n)
    else NatText(n)
  }

  /** Interpolating a null value writes nothing. */
  function NullableIntText(n: Option<int>): string
  {
    match n
    case None => ""
    case Some(v) => IntText(v)
  }

  function NullableText(s: Option<string>): string
  {
    match s
    case None => ""
    case Some(v) => v
  }

  function BoolText(b: bool): string
  {
    if b then "True" else "False"
  }

  /** The nine interpolated values of a tables CSV line, in header order. */
  function ColumnFields(t: Table, c: Column): seq<string>
  {
    [t.schema, t.name, IntText(c.ordinalPosition), c.name, c.dataType,
     NullableIntText(c.numericPrecision), NullableIntText(c.maxLength),
     BoolText(c.isNullable), NullableText(c.columnDefault)]
  }

  /** One data line of the tables CSV: the nine values separated by commas. */
  function ColumnRow(t: Table, c: Column): string
  {
    Join(ColumnFields(t, c), ',')
  }

  /** Read back at its commas, a tables CSV line gives the nine fields in
      header order, when no text field contains a comma: the position is the
      column's own `OrdinalPosition`, a null precision, length or default is
      an empty field, and nullability is `True` or `False`. */
  lemma ColumnRowFields(t: Table, c: Column)
    requires ',' !in t.schema && ',' !in t.name && ',' !in c.name && ',' !in c.dataType
    requires c.columnDefault.Some? ==> ',' !in c.columnDefault.value
    ensures var fields := Split(ColumnRow(t, c), ',');
      && |fields| == 9
      && fields[0] == t.schema && fields[1] == t.name
      && fields[2] == IntText(c.ordinalPosition)
      && fields[3] == c.name && fields[4] == c.dataType
      && (c.numericPrecision.None? <==> fields[5] == "")
      && (c.numericPrecision.Some? ==> fields[5] == IntText(c.numericPrecision.value))
      && (c.maxLength.None? <==> fields[6] == "")
      && (c.maxLength.Some? ==> fields[6] == IntText(c.maxLength.value))
      && fields[7] == (if c.isNullable then "True" else "False")
      && fields[8] == (if c.columnDefault.Some? then c.columnDefault.value else "")
  {
    ColumnRowSplits(t, c);
  }

  lemma ColumnRowSplits(t: Table, c: Column)
    requires ',' !in t.schema && ',' !in t.name && ',' !in c.name && ',' !in c.dataType
    requires c.columnDefault.Some? ==> ',' !in c.columnDefault.value
    ensures Split(ColumnRow(t, c), ',') == ColumnFields(t, c)
  {
    var f := ColumnFields(t, c);
    NumberHasNoComma(c.ordinalPosition);
    NullableNumberHasNoComma(c.numericPrecision);
    NullableNumberHasNoComma(c.maxLength);
    assert ',' !in f[7] && ',' !in f[8];
    SplitJoin(f, ',');
  }

  lemma NullableNumberHasNoComma(n: Option<int>)
    ensures ',' !in NullableIntText(n)
  {
    if n.Some? { NumberHasNoComma(n.value); }
  }

  lemma NumberHasNoComma(n: int)
    ensures ',' !in IntText(n)
  {
    var r := IntText(n);
    if n < 0 {
      forall i | 1 <= i < |r| ensures r[i] != ',' {
        assert r[1..][i - 1] == r[i];
      }
    }
  }

  lemma MinExists(keys: set<int>)
    requires keys != {}
    ensures exists m :: m in keys && forall k :: k in keys ==> m <= k
  {
    assert (forall y :: y !in keys) ==> keys == {};
    var x :| x in keys;
    if keys != {x} {
      var rest := keys - {x};
      assert rest == {} ==> keys <= {x};
      assert keys <= {x} ==> keys == {x};
      MinExists(rest);
      var m :| m in rest && forall k :: k in rest ==> m <= k;
      var least := if x < m then x else m;
      forall k | k in keys ensures least <= k {
        if k != x { assert k in rest; }
      }
    } else {
      assert forall k :: k in keys ==> x <= k;
    }
  }

  function MinKey(keys: set<int>): (m: int)
    requires keys != {}
    ensures m in keys && forall k :: k in keys ==> m <= k
  {
    MinExists(keys);
    var m :| m in keys && forall k :: k in keys ==> m <= k;
    m
  }

  /** `OrderBy(c => c.Key)` on the column positions: each key once, ascending. */
  function OrderedKeys(keys: set<int>): (r: seq<int>)
    ensures |r| == |keys|
    ensures forall k :: k in keys <==> k in r
    ensures forall i, j :: 0 <= i < j < |r| ==> r[i] < r[j]
    decreases |keys|
  {
    if keys == {} then []
    else
      var m := MinKey(keys);
      [m] + OrderedKeys(keys - {m})
  }

  /** The data lines for one table, in ascending column position. */
  function TableRows(t: Table): (rows: seq<string>)
    ensures |rows| == |t.columns|
  {
    var keys := OrderedKeys(t.columns.Keys);
    assert |t.columns.Keys| == |t.columns|;
    seq(|keys|, j requires 0 <= j < |keys| => ColumnRow(t, t.columns[keys[j]]))
  }

  /** The data lines of the tables, table after table. */
  function TablesRows(tables: seq<Table>): seq<string>
  {
    Flatten(tables, TableRows)
  }

  /** The lines `f` gives for each element, one element after another. */
  function Flatten<T>(xs: seq<T>, f: T -> seq<string>): seq<string>
    decreases |xs|
  {
    if xs == [] then [] else f(xs[0]) + Flatten(xs[1..], f)
  }

  lemma {:induction false} FlattenAppend<T>(a: seq<T>, b: seq<T>, f: T -> seq<string>)
    ensures Flatten(a + b, f) == Flatten(a, f) + Flatten(b, f)
    decreases |a|
  {
    if a == [] {
      assert a + b == b;
    } else {
      assert (a + b)[0] == a[0] && (a + b)[1..] == a[1..] + b;
      FlattenAppend(a[1..], b, f);
    }
  }

  /** The lines of the tables CSV for the tables in the order given. */
  function TableReportLines(ordered: seq<Table>): seq<string>
  {
    [TablesHeader] + TablesRows(ordered)
  }

  /** The total number of columns of the tables. */
  function ColumnCount(tables: seq<Table>): nat
    decreases |tables|
  {
    if tables == [] then 0 else |tables[0].columns| + ColumnCount(tables[1..])
  }

  lemma {:induction false} ColumnCountAppend(a: seq<Table>, b: seq<Table>)
    ensures ColumnCount(a + b) == ColumnCount(a) + ColumnCount(b)
    decreases |a|
  {
    if a == [] {
      assert a + b == b;
    } else {
      assert (a + b)[0] == a[0] && (a + b)[1..] == a[1..] + b;
      ColumnCountAppend(a[1..], b);
    }
  }

  /** The number of data lines is the number of columns. */
  lemma {:induction false} TablesRowsCount(tables: seq<Table>)
    ensures |TablesRows(tables)| == ColumnCount(tables)
    decreases |tables|
  {
    if tables != [] {
      TablesRowsCount(tables[1..]);
      assert TablesRows(tables) == TableRows(tables[0]) + TablesRows(tables[1..]);
    }
  }

  /** The total column count does not depend on the order of the tables. */
  lemma {:induction false} ColumnCountPermutation(a: seq<Table>, b: seq<Table>)
    requires multiset(a) == multiset(b)
    ensures ColumnCount(a) == ColumnCount(b)
    decreases |a|
  {
    if a != [] {
      assert a[0] in multiset(b);
      var i :| 0 <= i < |b| && b[i] == a[0];
      var rest := b[..i] + b[i + 1..];
      RemoveOne(a, b, i);
      ColumnCountPermutation(a[1..], rest);
      ColumnCountRemove(b, i);
    }
  }

  /** Taking the same element out of two permutations of each other leaves
      permutations of each other. */
  lemma RemoveOne(a: seq<Table>, b: seq<Table>, i: nat)
    requires multiset(a) == multiset(b) && a != [] && i < |b| && b[i] == a[0]
    ensures multiset(a[1..]) == multiset(b[..i] + b[i + 1..])
  {
    assert b == b[..i] + [b[i]] + b[i + 1..];
    assert a == [a[0]] + a[1..];
    var rest := b[..i] + b[i + 1..];
    assert multiset(rest) == multiset(b[..i]) + multiset(b[i + 1..]);
    assert multiset(b) == multiset(b[..i]) + multiset{b[i]} + multiset(b[i + 1..]);
    assert multiset(rest) == multiset(b) - multiset{b[i]};
    assert multiset(a) == multiset{a[0]} + multiset(a[1..]);
    assert multiset(a[1..]) == multiset(a) - multiset{a[0]};
  }

  /** The column count of a list is that of one table plus that of the others. */
  lemma {:induction false} ColumnCountRemove(b: seq<Table>, i: nat)
    requires i < |b|
    ensures ColumnCount(b) == |b[i].columns| + ColumnCount(b[..i] + b[i + 1..])
    decreases i
  {
    if i == 0 {
      assert b[..0] + b[1..] == b[1..];
    } else {
      var tail := b[1..];
      ColumnCountRemove(tail, i - 1);
      assert tail[i - 1] == b[i];
      assert b[..i] + b[i + 1..] == [b[0]] + (tail[..i - 1] + tail[i..]);
      assert ([b[0]] + (tail[..i - 1] + tail[i..]))[1..] == tail[..i - 1] + tail[i..];
    }
  }

  /** The tables CSV has one header line and then one line per column of
      the database's tables, whatever order the tables are listed in. */
  lemma TableReportShape(r: Reports, ordered: seq<Table>)
    requires multiset(ordered) == multiset(r.database.tables)
    ensures TableReportLines(ordered)[0] == TablesHeader
    ensures |TableReportLines(ordered)| == 1 + ColumnCount(r.database.tables)
  {
    TablesRowsCount(ordered);
    ColumnCountPermutation(ordered, r.database.tables);
  }

  /** The data lines of one table follow its column positions in ascending order. */
  lemma TableRowsFollowPositions(t: Table)
    ensures var keys := OrderedKeys(t.columns.Keys);
      && |TableRows(t)| == |keys|
      && (forall j :: 0 <= j < |keys| ==> keys[j] in t.columns && TableRows(t)[j] == ColumnRow(t, t.columns[keys[j]]))
      && (forall i, j :: 0 <= i < j < |keys| ==> keys[i] < keys[j])
  {
  }

  /** The inner loop of CreateTableReportAsync: one line per column of
      `table`, in ascending column position, appended to `written`. */
  method AppendTableRows(written: string, ghost before: seq<string>, table: Table, newline: string)
    returns (extended: string)
    requires written == Lines(before, newline)
    ensures extended == Lines(before + TableRows(table), newline)
  {
    extended := written;
    var keys := OrderedKeys(table.columns.Keys);
    ghost var rows := TableRows(table);
    TableRowsFollowPositions(table);
    assert before + rows[..0] == before;
    for j := 0 to |keys|
      invariant extended == Lines(before + rows[..j], newline)
    {
      var col := table.columns[keys[j]];
      var line := ColumnRow(table, col) + newline;
      LinesExtend(before, rows, j, newline);
      ConcatAssociative(extended, rows[j], newline);
      extended := extended + line;
    }
    TakeAll(rows);
  }

  /** CreateTableReportAsync: the text written to the tables CSV. */
  method CreateTableReport(r: Reports, fileExists: bool, ordered: seq<Table>, newline: string)
    returns (result: Result<string, ReportError>)
    ensures fileExists && !r.overwriteFiles ==> result == Failure(FileAlreadyExists(ReportFileName(r, TablesSuffix)))
    ensures !(fileExists && !r.overwriteFiles) ==> result == Success(Lines(TableReportLines(ordered), newline))
  {
    var fileName := ReportFileName(r, TablesSuffix);
    var check := CheckExistingFile(r, fileName, fileExists);
    if check.Some? {
      return Failure(check.value);
    }
    var written := TablesHeader + newline;
    assert written == Lines([TablesHeader] + TablesRows(ordered[..0]), newline) by {
      assert [TablesHeader] + TablesRows([]) == [TablesHeader];
      assert Lines([TablesHeader], newline) == TablesHeader + newline + Lines([], newline);
    }
    for i := 0 to |ordered|
      invariant written == Lines([TablesHeader] + TablesRows(ordered[..i]), newline)
    {
      ghost var before := [TablesHeader] + TablesRows(ordered[..i]);
      written := AppendTableRows(written, before, ordered[i], newline);
      TablesRowsSnoc(ordered, i);
    }
    assert ordered[..|ordered|] == ordered;
    return Success(written);
  }

  lemma TablesRowsSnoc(ordered: seq<Table>, i: nat)
    requires i < |ordered|
    ensures TablesRows(ordered[..i + 1]) == TablesRows(ordered[..i]) + TableRows(ordered[i])
    ensures [TablesHeader] + TablesRows(ordered[..i + 1]) == ([TablesHeader] + TablesRows(ordered[..i])) + TableRows(ordered[i])
  {
    assert ordered[..i + 1] == ordered[..i] + [ordered[i]];
    FlattenAppend(ordered[..i], [ordered[i]], TableRows);
    assert Flatten([ordered[i]], TableRows) == TableRows(ordered[i]) + Flatten([], TableRows);
    ConcatAssociative([TablesHeader], TablesRows(ordered[..i]), TableRows(ordered[i]));
  }

  lemma TakeAll<T>(s: seq<T>)
    ensures s[..|s|] == s
  {
  }

  lemma ConcatAssociative<T>(a: seq<T>, b: seq<T>, c: seq<T>)
    ensures a + (b + c) == (a + b) + c
  {
  }

  // ---------------------------------------------------------------------
  // The views and routines reports

  const ViewsHeader := "Schema,View,Definition"
  const RoutinesHeader := "Schema,Routine,Definition"

  /** A data line of the views or routines CSV: schema and name, then the
      shown definition, which starts the line's last field. */
  function DefinitionRow(schema: string, name: string, definition: string, newline: string): (row: string)
    requires |newline| > 0
    ensures var prefix := schema + "," + name + ",";
      var shown := if |definition| < DefinitionWidth then definition else definition[..DefinitionWidth];
      && |prefix| <= |row| <= |prefix| + DefinitionWidth
      && row[..|prefix|] == prefix
      && (' ' !in newline ==> NoOccurrence(row[|prefix|..], newline))
      && (NoOccurrence(shown, newline) ==> row[|prefix|..] == shown)
      && row[|prefix|..] == TruncatedDefinition(definition, newline)
      && (|newline| == 1 ==>
            |row| == |prefix| + |shown| &&
            forall i :: 0 <= i < |shown| ==> row[|prefix| + i] == (if shown[i] == newline[0] then ' ' else shown[i]))
  {
    var prefix := schema + "," + name + ",";
    var shown := if |definition| < DefinitionWidth then definition else definition[..DefinitionWidth];
    var t := TruncatedDefinition(definition, newline);
    var row := prefix + t;
    assert row[..|prefix|] == prefix && row[|prefix|..] == t;
    assert forall i :: 0 <= i < |t| ==> row[|prefix| + i] == t[i];
    row
  }

  /** No view in the list has a null definition. */
  predicate ViewsDefined(ordered: seq<View>)
  {
    forall k :: 0 <= k < |ordered| ==> ordered[k].definition.Some?
  }

  /** No routine in the list has a null definition. */
  predicate RoutinesDefined(ordered: seq<Routine>)
  {
    forall k :: 0 <= k < |ordered| ==> ordered[k].definition.Some?
  }

  /** The lines of the views CSV for the views in the order given. */
  function ViewReportLines(ordered: seq<View>, newline: string): seq<string>
    requires |newline| > 0 && ViewsDefined(ordered)
  {
    [ViewsHeader] + seq(|ordered|, k requires 0 <= k < |ordered| =>
      DefinitionRow(ordered[k].schema, ordered[k].name, ordered[k].definition.value, newline))
  }

  /** The lines of the routines CSV for the routines in the order given. */
  function RoutineReportLines(ordered: seq<Routine>, newline: string): seq<string>
    requires |newline| > 0 && RoutinesDefined(ordered)
  {
    [RoutinesHeader] + seq(|ordered|, k requires 0 <= k < |ordered| =>
      DefinitionRow(ordered[k].schema, ordered[k].name, ordered[k].definition.value, newline))
  }

  /** CreateViewReportAsync: the text written to the views CSV. Reading a
      null definition throws, so the report then fails. */
  method CreateViewReport(r: Reports, fileExists: bool, ordered: seq<View>, newline: string)
    returns (result: Result<string, ReportError>)
    requires |newline| > 0
    ensures fileExists && !r.overwriteFiles ==> result == Failure(FileAlreadyExists(ReportFileName(r, ViewsSuffix)))
    ensures !(fileExists && !r.overwriteFiles) && !ViewsDefined(ordered) ==> result == Failure(NullDefinition)
    ensures !(fileExists && !r.overwriteFiles) && ViewsDefined(ordered) ==>
      result == Success(Lines(ViewReportLines(ordered, newline), newline))
  {
    var fileName := ReportFileName(r, ViewsSuffix);
    var check := CheckExistingFile(r, fileName, fileExists);
    if check.Some? {
      return Failure(check.value);
    }
    var written := ViewsHeader + newline;
    for i := 0 to |ordered|
      invariant ViewsDefined(ordered[..i])
      invariant ViewsDefined(ordered) ==> written == Lines(ViewReportLines(ordered, newline)[..i + 1], newline)
    {
      var view := ordered[i];
      if view.definition.None? {
        return Failure(NullDefinition);
      }
      var definition := view.definition.value;
      var def := if |definition| < DefinitionWidth then Replace(definition, newline, " ")
                 else Replace(definition[..DefinitionWidth], newline, " ");
      var line := view.schema + "," + view.name + "," + def + newline;
      if ViewsDefined(ordered) {
        ghost var lines := ViewReportLines(ordered, newline);
        assert lines[i + 1] == view.schema + "," + view.name + "," + def;
        LinesExtend([], lines, i + 1, newline);
        assert [] + lines[..i + 1] == lines[..i + 1] && [] + lines[..i + 2] == lines[..i + 2];
        ConcatAssociative(written, lines[i + 1], newline);
      }
      assert ordered[..i + 1] == ordered[..i] + [view];
      written := written + line;
    }
    assert ordered[..|ordered|] == ordered;
    assert ViewReportLines(ordered, newline)[..|ordered| + 1] == ViewReportLines(ordered, newline);
    return Success(written);
  }

  /** CreateRoutineReportAsync: the text written to the routines CSV. Reading
      a null definition throws, so the report then fails. */
  method CreateRoutineReport(r: Reports, fileExists: bool, ordered: seq<Routine>, newline: string)
    returns (result: Result<string, ReportError>)
    requires |newline| > 0
    ensures fileExists && !r.overwriteFiles ==> result == Failure(FileAlreadyExists(ReportFileName(r, RoutinesSuffix)))
    ensures !(fileExists && !r.overwriteFiles) && !RoutinesDefined(ordered) ==> result == Failure(NullDefinition)
    ensures !(fileExists && !r.overwriteFiles) && RoutinesDefined(ordered) ==>
      result == Success(Lines(RoutineReportLines(ordered, newline), newline))
  {
    var fileName := ReportFileName(r, RoutinesSuffix);
    var check := CheckExistingFile(r, fileName, fileExists);
    if check.Some? {
      return Failure(check.value);
    }
    var written := RoutinesHeader + newline;
    for i := 0 to |ordered|
      invariant RoutinesDefined(ordered[..i])
      invariant RoutinesDefined(ordered) ==> written == Lines(RoutineReportLines(ordered, newline)[..i + 1], newline)
    {
      var routine := ordered[i];
      if routine.definition.None? {
        return Failure(NullDefinition);
      }
      var definition := routine.definition.value;
      var def := if |definition| < DefinitionWidth then Replace(definition, newline, " ")
                 else Replace(definition[..DefinitionWidth], newline, " ");
      var line := routine.schema + "," + routine.name + "," + def + newline;
      if RoutinesDefined(ordered) {
        ghost var lines := RoutineReportLines(ordered, newline);
        assert lines[i + 1] == routine.schema + "," + routine.name + "," + def;
        LinesExtend([], lines, i + 1, newline);
        assert [] + lines[..i + 1] == lines[..i + 1] && [] + lines[..i + 2] == lines[..i + 2];
        ConcatAssociative(written, lines[i + 1], newline);
      }
      assert ordered[..i + 1] == ordered[..i] + [routine];
      written := written + line;
    }
    assert ordered[..|ordered|] == ordered;
    assert RoutineReportLines(ordered, newline)[..|ordered| + 1] == RoutineReportLines(ordered, newline);
    return Success(written);
  }

  // ---------------------------------------------------------------------
  // The dependency report

  const TableDependenciesHeader := "\tTable Dependencies"
  const ViewDependenciesHeader := "\tView Dependencies"
  const RoutineDependenciesHeader := "\tRoutine Dependencies"

  function Indented(names: seq<string>): (lines: seq<string>)
  {
    seq(|names|, k requires 0 <= k < |names| => "\t\t" + names[k])
  }

  /** A header followed by its items, or nothing when there are no items. */
  function Section(header: string, names: seq<string>): seq<string>
  {
    if names == [] then [] else [header] + Indented(names)
  }

  function SectionLength(n: nat): nat
  {
    if n == 0 then 0 else n + 1
  }

  function ChildTableNames(keys: seq<ForeignKey>): seq<string>
  {
    seq(|keys|, k requires 0 <= k < |keys| => keys[k].childTable.fullName)
  }

  function ViewNames(views: seq<View>): seq<string>
  {
    seq(|views|, k requires 0 <= k < |views| => views[k].fullName)
  }

  function RoutineNames(routines: seq<Routine>): seq<string>
  {
    seq(|routines|, k requires 0 <= k < |routines| => routines[k].fullName)
  }

  function Title(t: Table): string
  {
    t.schema + "." + t.name
  }

  /** The lines of one table's block. */
  function BlockLines(t: Table, keys: seq<ForeignKey>, views: seq<View>, routines: seq<Routine>): seq<string>
  {
    [Title(t)]
    + Section(TableDependenciesHeader, ChildTableNames(keys))
    + Section(ViewDependenciesHeader, ViewNames(views))
    + Section(RoutineDependenciesHeader, RoutineNames(routines))
  }

  /** The dependency report for the tables in the sorter's order; the
      three queries are the database's, per table. */
  function DependencyReport(sorted: seq<Table>, childKeysOf: Table -> seq<ForeignKey>,
                            viewsOf: Table -> seq<View>, routinesOf: Table -> seq<Routine>,
                            newline: string): string
    decreases |sorted|
  {
    if sorted == [] then ""
    else
      var t := sorted[0];
      Lines(BlockLines(t, childKeysOf(t), viewsOf(t), routinesOf(t)), newline)
      + DependencyReport(sorted[1..], childKeysOf, viewsOf, routinesOf, newline)
  }

  lemma {:induction false} DependencyReportAppend(a: seq<Table>, b: seq<Table>, childKeysOf: Table -> seq<ForeignKey>,
                                                  viewsOf: Table -> seq<View>, routinesOf: Table -> seq<Routine>,
                                                  newline: string)
    ensures DependencyReport(a + b, childKeysOf, viewsOf, routinesOf, newline) ==
      DependencyReport(a, childKeysOf, viewsOf, routinesOf, newline) + DependencyReport(b, childKeysOf, viewsOf, routinesOf, newline)
    decreases |a|
  {
    if a == [] {
      assert a + b == b;
    } else {
      assert (a + b)[0] == a[0] && (a + b)[1..] == a[1..] + b;
      DependencyReportAppend(a[1..], b, childKeysOf, viewsOf, routinesOf, newline);
    }
  }

  /** The report is one block per table, in the sorter's order: the block of
      table `k` stands between the blocks of the tables before it and those
      after it. */
  lemma DependencyReportBlocks(sorted: seq<Table>, childKeysOf: Table -> seq<ForeignKey>,
                               viewsOf: Table -> seq<View>, routinesOf: Table -> seq<Routine>,
                               newline: string, k: nat)
    requires k < |sorted|
    ensures var t := sorted[k];
      DependencyReport(sorted, childKeysOf, viewsOf, routinesOf, newline) ==
        DependencyReport(sorted[..k], childKeysOf, viewsOf, routinesOf, newline)
        + Lines(BlockLines(t, childKeysOf(t), viewsOf(t), routinesOf(t)), newline)
        + DependencyReport(sorted[k + 1..], childKeysOf, viewsOf, routinesOf, newline)
  {
    assert sorted == sorted[..k] + ([sorted[k]] + sorted[k + 1..]);
    DependencyReportAppend(sorted[..k], [sorted[k]] + sorted[k + 1..], childKeysOf, viewsOf, routinesOf, newline);
    assert ([sorted[k]] + sorted[k + 1..])[1..] == sorted[k + 1..];
  }

  /** The lines of a section: its header, then one indented name per item. */
  lemma SectionLayout(header: string, names: seq<string>)
    ensures |Section(header, names)| == SectionLength(|names|)
    ensures names != [] ==> Section(header, names)[0] == header
    ensures forall k :: 0 <= k < |names| ==> Section(header, names)[1 + k] == "\t\t" + names[k]
  {
  }

  /** The layout of one block: the `Schema.Name` line, then each section
      header exactly when its list is non-empty. */
  lemma BlockHeaders(t: Table, keys: seq<ForeignKey>, views: seq<View>, routines: seq<Routine>)
    ensures var lines := BlockLines(t, keys, views, routines);
      && lines[0] == t.schema + "." + t.name
      && (TableDependenciesHeader in lines <==> |keys| > 0)
      && (ViewDependenciesHeader in lines <==> |views| > 0)
      && (RoutineDependenciesHeader in lines <==> |routines| > 0)
  {
    var s1 := Section(TableDependenciesHeader, ChildTableNames(keys));
    var s2 := Section(ViewDependenciesHeader, ViewNames(views));
    var s3 := Section(RoutineDependenciesHeader, RoutineNames(routines));
    TitleIsNoHeader(t);
    HeaderInSection(TableDependenciesHeader, ChildTableNames(keys), ViewDependenciesHeader, RoutineDependenciesHeader);
    HeaderInSection(ViewDependenciesHeader, ViewNames(views), TableDependenciesHeader, RoutineDependenciesHeader);
    HeaderInSection(RoutineDependenciesHeader, RoutineNames(routines), TableDependenciesHeader, ViewDependenciesHeader);
    HeaderInBlock([Title(t)], s1, s2, s3, TableDependenciesHeader);
    HeaderInBlock([Title(t)], s1, s2, s3, ViewDependenciesHeader);
    HeaderInBlock([Title(t)], s1, s2, s3, RoutineDependenciesHeader);
  }

  /** The `Schema.Name` line holds a `.`, which no section header does. */
  lemma TitleIsNoHeader(t: Table)
    ensures Title(t) != TableDependenciesHeader && Title(t) != ViewDependenciesHeader
    ensures Title(t) != RoutineDependenciesHeader
  {
    assert Title(t)[|t.schema|] == '.';
    assert '.' !in TableDependenciesHeader && '.' !in ViewDependenciesHeader && '.' !in RoutineDependenciesHeader;
  }

  /** A line occurs in the four parts of a block exactly when it occurs in one of them. */
  lemma HeaderInBlock(s0: seq<string>, s1: seq<string>, s2: seq<string>, s3: seq<string>, header: string)
    ensures header in s0 + s1 + s2 + s3 <==> header in s0 || header in s1 || header in s2 || header in s3
  {
  }

  /** Where each line of a block stands: the sections follow one another in
      the fixed order table, view, routine, and each lists one indented full
      name per item, in the order given. */
  lemma BlockPositions(t: Table, keys: seq<ForeignKey>, views: seq<View>, routines: seq<Routine>)
    ensures var lines := BlockLines(t, keys, views, routines);
      var v := 1 + SectionLength(|keys|);
      var rt := v + SectionLength(|views|);
      && |lines| == rt + SectionLength(|routines|)
      && (|keys| > 0 ==> lines[1] == TableDependenciesHeader)
      && (forall k :: 0 <= k < |keys| ==> lines[2 + k] == "\t\t" + keys[k].childTable.fullName)
      && (|views| > 0 ==> lines[v] == ViewDependenciesHeader)
      && (forall k :: 0 <= k < |views| ==> lines[v + 1 + k] == "\t\t" + views[k].fullName)
      && (|routines| > 0 ==> lines[rt] == RoutineDependenciesHeader)
      && (forall k :: 0 <= k < |routines| ==> lines[rt + 1 + k] == "\t\t" + routines[k].fullName)
  {
    TableSectionAt(t, keys, views, routines);
    ViewSectionAt(t, keys, views, routines);
    RoutineSectionAt(t, keys, views, routines);
  }

  lemma TableSectionAt(t: Table, keys: seq<ForeignKey>, views: seq<View>, routines: seq<Routine>)
    ensures var lines := BlockLines(t, keys, views, routines);
      && (|keys| > 0 ==> lines[1] == TableDependenciesHeader)
      && (forall k :: 0 <= k < |keys| ==> lines[2 + k] == "\t\t" + keys[k].childTable.fullName)
  {
    var kn := ChildTableNames(keys);
    var rest := Section(ViewDependenciesHeader, ViewNames(views)) + Section(RoutineDependenciesHeader, RoutineNames(routines));
    var lines := BlockLines(t, keys, views, routines);
    assert lines == [Title(t)] + Section(TableDependenciesHeader, kn) + rest;
    SectionInside([Title(t)], TableDependenciesHeader, kn, rest, lines);
    assert forall k :: 0 <= k < |keys| ==> kn[k] == keys[k].childTable.fullName;
  }

  lemma ViewSectionAt(t: Table, keys: seq<ForeignKey>, views: seq<View>, routines: seq<Routine>)
    ensures var lines := BlockLines(t, keys, views, routines);
      var v := 1 + SectionLength(|keys|);
      && (|views| > 0 ==> lines[v] == ViewDependenciesHeader)
      && (forall k :: 0 <= k < |views| ==> lines[v + 1 + k] == "\t\t" + views[k].fullName)
  {
    var vn := ViewNames(views);
    var before := [Title(t)] + Section(TableDependenciesHeader, ChildTableNames(keys));
    SectionLayout(TableDependenciesHeader, ChildTableNames(keys));
    var lines := BlockLines(t, keys, views, routines);
    SectionInside(before, ViewDependenciesHeader, vn, Section(RoutineDependenciesHeader, RoutineNames(routines)), lines);
    assert forall k :: 0 <= k < |views| ==> vn[k] == views[k].fullName;
  }

  lemma RoutineSectionAt(t: Table, keys: seq<ForeignKey>, views: seq<View>, routines: seq<Routine>)
    ensures var lines := BlockLines(t, keys, views, routines);
      var rt := 1 + SectionLength(|keys|) + SectionLength(|views|);
      && |lines| == rt + SectionLength(|routines|)
      && (|routines| > 0 ==> lines[rt] == RoutineDependenciesHeader)
      && (forall k :: 0 <= k < |routines| ==> lines[rt + 1 + k] == "\t\t" + routines[k].fullName)
  {
    var rn := RoutineNames(routines);
    var before := [Title(t)] + Section(TableDependenciesHeader, ChildTableNames(keys)) + Section(ViewDependenciesHeader, ViewNames(views));
    SectionLayout(TableDependenciesHeader, ChildTableNames(keys));
    SectionLayout(ViewDependenciesHeader, ViewNames(views));
    var lines := BlockLines(t, keys, views, routines);
    assert lines == before + Section(RoutineDependenciesHeader, rn) + [];
    SectionInside(before, RoutineDependenciesHeader, rn, [], lines);
    assert forall k :: 0 <= k < |routines| ==> rn[k] == routines[k].fullName;
  }

  /** Where the lines of a section stand inside a longer run of lines. */
  lemma SectionInside(before: seq<string>, header: string, names: seq<string>, after: seq<string>, lines: seq<string>)
    requires lines == before + Section(header, names) + after
    ensures |lines| == |before| + SectionLength(|names|) + |after|
    ensures names != [] ==> lines[|before|] == header
    ensures forall k :: 0 <= k < |names| ==> lines[|before| + 1 + k] == "\t\t" + names[k]
  {
    SectionLayout(header, names);
    var section := Section(header, names);
    assert forall i :: 0 <= i < |section| ==> lines[|before| + i] == section[i];
  }

  /** Within a section, a header line occurs exactly as its own heading:
      item lines begin with two tabs and so are never a header. */
  lemma HeaderInSection(header: string, names: seq<string>, other1: string, other2: string)
    requires |header| >= 2 && header[0] == '\t' && header[1] != '\t'
    requires |other1| >= 2 && other1[1] != '\t' && other1 != header
    requires |other2| >= 2 && other2[1] != '\t' && other2 != header
    ensures header in Section(header, names) <==> names != []
    ensures other1 !in Section(header, names) && other2 !in Section(header, names)
  {
    forall k | 0 <= k < |names| ensures Indented(names)[k][1] == '\t' { }
    if names != [] {
      assert Section(header, names)[0] == header;
    }
  }

  /** The text of one table's block, a line at a time, as the StringBuilder builds it. */
  method TableInfo(t: Table, keys: seq<ForeignKey>, views: seq<View>, routines: seq<Routine>, newline: string)
    returns (info: string)
    ensures info == Lines(BlockLines(t, keys, views, routines), newline)
  {
    ghost var lines := [Title(t)];
    info := t.schema + "." + t.name + newline;
    assert info == Lines(lines, newline);
    info, lines := AppendTableDependencies(info, lines, keys, newline);
    info, lines := AppendViewDependencies(info, lines, views, newline);
    info, lines := AppendRoutineDependencies(info, lines, routines, newline);
  }

  /** The table-dependencies section of a block: the child table of each foreign key. */
  method AppendTableDependencies(info: string, ghost lines: seq<string>, keys: seq<ForeignKey>, newline: string)
    returns (info': string, ghost lines': seq<string>)
    requires info == Lines(lines, newline)
    ensures lines' == lines + Section(TableDependenciesHeader, ChildTableNames(keys))
    ensures info' == Lines(lines', newline)
    ensures info' == info + Lines(Section(TableDependenciesHeader, ChildTableNames(keys)), newline)
  {
    info', lines' := info, lines;
    if |keys| > 0 {
      info', lines' := AppendLineTo(info', lines', TableDependenciesHeader, newline);
      assert lines' + Indented(ChildTableNames(keys))[..0] == lines';
      for k := 0 to |keys|
        invariant info' == Lines(lines' + Indented(ChildTableNames(keys))[..k], newline)
      {
        var child := keys[k].childTable;
        IndentedStep(lines', ChildTableNames(keys), k);
        ghost var done;
        info', done := AppendLineTo(info', lines' + Indented(ChildTableNames(keys))[..k], "\t\t" + child.fullName, newline);
      }
      assert Indented(ChildTableNames(keys))[..|keys|] == Indented(ChildTableNames(keys));
      ConcatAssociative(lines, [TableDependenciesHeader], Indented(ChildTableNames(keys)));
      lines' := lines' + Indented(ChildTableNames(keys));
    } else {
      assert lines' == lines + [];
    }
    LinesAppend(lines, Section(TableDependenciesHeader, ChildTableNames(keys)), newline);
  }

  /** The view-dependencies section of a block. */
  method AppendViewDependencies(info: string, ghost lines: seq<string>, views: seq<View>, newline: string)
    returns (info': string, ghost lines': seq<string>)
    requires info == Lines(lines, newline)
    ensures lines' == lines + Section(ViewDependenciesHeader, ViewNames(views))
    ensures info' == Lines(lines', newline)
    ensures info' == info + Lines(Section(ViewDependenciesHeader, ViewNames(views)), newline)
  {
    info', lines' := info, lines;
    if |views| > 0 {
      info', lines' := AppendLineTo(info', lines', ViewDependenciesHeader, newline);
      assert lines' + Indented(ViewNames(views))[..0] == lines';
      for k := 0 to |views|
        invariant info' == Lines(lines' + Indented(ViewNames(views))[..k], newline)
      {
        var child := views[k];
        IndentedStep(lines', ViewNames(views), k);
        ghost var done;
        info', done := AppendLineTo(info', lines' + Indented(ViewNames(views))[..k], "\t\t" + child.fullName, newline);
      }
      assert Indented(ViewNames(views))[..|views|] == Indented(ViewNames(views));
      ConcatAssociative(lines, [ViewDependenciesHeader], Indented(ViewNames(views)));
      lines' := lines' + Indented(ViewNames(views));
    } else {
      assert lines' == lines + [];
    }
    LinesAppend(lines, Section(ViewDependenciesHeader, ViewNames(views)), newline);
  }

  /** The routine-dependencies section of a block. */
  method AppendRoutineDependencies(info: string, ghost lines: seq<string>, routines: seq<Routine>, newline: string)
    returns (info': string, ghost lines': seq<string>)
    requires info == Lines(lines, newline)
    ensures lines' == lines + Section(RoutineDependenciesHeader, RoutineNames(routines))
    ensures info' == Lines(lines', newline)
    ensures info' == info + Lines(Section(RoutineDependenciesHeader, RoutineNames(routines)), newline)
  {
    info', lines' := info, lines;
    if |routines| > 0 {
      info', lines' := AppendLineTo(info', lines', RoutineDependenciesHeader, newline);
      assert lines' + Indented(RoutineNames(routines))[..0] == lines';
      for k := 0 to |routines|
        invariant info' == Lines(lines' + Indented(RoutineNames(routines))[..k], newline)
      {
        var child := routines[k];
        IndentedStep(lines', RoutineNames(routines), k);
        ghost var done;
        info', done := AppendLineTo(info', lines' + Indented(RoutineNames(routines))[..k], "\t\t" + child.fullName, newline);
      }
      assert Indented(RoutineNames(routines))[..|routines|] == Indented(RoutineNames(routines));
      ConcatAssociative(lines, [RoutineDependenciesHeader], Indented(RoutineNames(routines)));
      lines' := lines' + Indented(RoutineNames(routines));
    } else {
      assert lines' == lines + [];
    }
    LinesAppend(lines, Section(RoutineDependenciesHeader, RoutineNames(routines)), newline);
  }

  /** One more indented item line of a section. */
  lemma IndentedStep(lines: seq<string>, names: seq<string>, k: nat)
    requires k < |names|
    ensures lines + Indented(names)[..k + 1] == (lines + Indented(names)[..k]) + ["\t\t" + names[k]]
  {
    assert Indented(names)[..k + 1] == Indented(names)[..k] + [Indented(names)[k]];
    ConcatAssociative(lines, Indented(names)[..k], ["\t\t" + names[k]]);
  }

  /** `AppendLine(line)`. */
  method AppendLineTo(info: string, ghost lines: seq<string>, line: string, newline: string)
    returns (info': string, ghost lines': seq<string>)
    requires info == Lines(lines, newline)
    ensures lines' == lines + [line]
    ensures info' == Lines(lines', newline)
    ensures info' == info + line + newline
  {
    lines' := lines + [line];
    LinesAppend(lines, [line], newline);
    info' := info + line + newline;
  }

  /** CreateDependencyReportAsync: the text written to the dependency report. */
  method CreateDependencyReport(r: Reports, fileExists: bool, sorted: seq<Table>,
                                childKeysOf: Table -> seq<ForeignKey>, viewsOf: Table -> seq<View>,
                                routinesOf: Table -> seq<Routine>, newline: string)
    returns (result: Result<string, ReportError>)
    ensures fileExists && !r.overwriteFiles ==> result == Failure(FileAlreadyExists(ReportFileName(r, DependencySuffix)))
    ensures !(fileExists && !r.overwriteFiles) ==>
      result == Success(DependencyReport(sorted, childKeysOf, viewsOf, routinesOf, newline))
  {
    var fileName := ReportFileName(r, DependencySuffix);
    var check := CheckExistingFile(r, fileName, fileExists);
    if check.Some? {
      return Failure(check.value);
    }
    var written := "";
    for i := 0 to |sorted|
      invariant written == DependencyReport(sorted[..i], childKeysOf, viewsOf, routinesOf, newline)
    {
      var table := sorted[i];
      var tableDependencies := childKeysOf(table);
      var viewDependencies := viewsOf(table);
      var routineDependencies := routinesOf(table);
      var tableInfo := TableInfo(table, tableDependencies, viewDependencies, routineDependencies, newline);
      assert sorted[..i + 1] == sorted[..i] + [table];
      DependencyReportAppend(sorted[..i], [table], childKeysOf, viewsOf, routinesOf, newline);
      assert DependencyReport([table], childKeysOf, viewsOf, routinesOf, newline) == tableInfo + "";
      written := written + tableInfo;
    }
    assert sorted[..|sorted|] == sorted;
    return Success(written);
  }
}
