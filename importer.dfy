/** The importer script: it reads the employee workbook into a data frame, cleans the column names,
    normalises five columns in place and offers every row to the database, counting successes
    and failures. The workbook reader, the database and the date library are parameters. */
module Importer {
  import opened Wrappers
  import opened Sequences
  import opened Strings
  import opened Numbers

  datatype Date = Date(year: int, month: int, day: int)

  /** A spreadsheet cell as the reader hands it over: blank (NaN), text, a number or a date-time. */
  datatype Cell = Missing | Text(s: string) | Number(x: real) | Timestamp(d: Date)

  /** A worksheet: the header row and the data rows below it. */
  datatype Sheet = Sheet(header: seq<string>, rows: seq<seq<Cell>>)

  /** The reader fills a short row with blanks. */
  function CellAt(row: seq<Cell>, j: nat): Cell {
    if j < |row| then row[j] else Missing
  }

  // ---------------------------------------------------------------------------------------------
  // Column names

  /** The renaming from the workbook's headings to the database's column names. */
  const ColumnMap: map<string, string> := map[
    "Name" := "Name",
    "Role" := "Role",
    "Location" := "Location",
    "Years of Experience" := "ExperienceYears",
    "Active?" := "Status",
    "Current Comp (INR)" := "Compensation",
    "Last Working Day" := "LastWorkingDay"
  ]

  /** pandas' `rename(columns=m)` on one label: mapped labels are replaced, the others kept. */
  function Rename(m: map<string, string>, name: string): string {
    if name in m then m[name] else name
  }

  /** The database's column names. */
  const DatabaseColumns: set<string> := {"Name", "Role", "Location", "ExperienceYears", "Status", "Compensation", "LastWorkingDay"}

  /** A heading as the importer leaves it: stripped of surrounding whitespace, then renamed. */
  function CleanColumnName(name: string): (r: string)
    ensures IsTrimmed(r)
    ensures Trim(name) in ColumnMap ==> r in DatabaseColumns
    ensures Trim(name) !in ColumnMap ==> r == Trim(name)
  {
    Rename(ColumnMap, Trim(name))
  }

  function CleanColumns(header: seq<string>): (cols: seq<string>)
    ensures |cols| == |header|
    ensures forall j :: 0 <= j < |header| ==> cols[j] == CleanColumnName(header[j])
  {
    seq(|header|, j requires 0 <= j < |header| => CleanColumnName(header[j]))
  }

  /** Every heading the map knows is stripped already and is renamed to a database column name. */
  lemma ColumnMapFacts(heading: string)
    requires heading in ColumnMap
    ensures IsTrimmed(heading) && ColumnMap[heading] in DatabaseColumns
  {
  }

  /** A database column name is left alone by the clean-up. */
  lemma DatabaseColumnFixed(name: string)
    requires name in DatabaseColumns
    ensures CleanColumnName(name) == name
  {
    assert IsTrimmed(name);
    assert [] + name + [] == name;
    TrimPadded([], name, []);
    RenameFixed(name);
  }

  lemma RenameFixed(name: string)
    requires name in DatabaseColumns
    ensures Rename(ColumnMap, name) == name
  {
    if name in {"Name", "Role", "Location"} {
      assert ColumnMap[name] == name;
    } else {
      assert name !in ColumnMap.Keys;
    }
  }

  /** Whitespace around a known heading does not matter: it still becomes its database name. */
  lemma ColumnNamePadding(p: string, heading: string, q: string)
    requires AllSpace(p) && AllSpace(q) && heading in ColumnMap
    ensures CleanColumnName(p + heading + q) == ColumnMap[heading]
  {
    ColumnMapFacts(heading);
    TrimPadded(p, heading, q);
  }

  /** A heading that is not in the renaming map comes out merely stripped. */
  lemma ColumnNamePassThrough(name: string)
    requires Trim(name) !in ColumnMap
    ensures CleanColumnName(name) == Trim(name)
  {
  }

  /** Cleaning the headings a second time changes nothing: every database name is already
      stripped, and a database name is either not a heading or maps to itself. */
  lemma CleanColumnNameIdempotent(name: string)
    ensures CleanColumnName(CleanColumnName(name)) == CleanColumnName(name)
  {
    var t := Trim(name);
    TrimIdempotent(name);
    if t in ColumnMap {
      ColumnMapFacts(t);
      DatabaseColumnFixed(ColumnMap[t]);
    }
  }

  // ---------------------------------------------------------------------------------------------
  // Per-column normalisation

  /** `convert_experience`: a text holding a hyphen is a range "a-b" whose midpoint, rounded to one
      decimal, is the value; a blank is None; anything else is whatever `float` makes of it. Every
      failure, including a range that does not split into exactly two numbers, is None. */
  function ConvertExperience(c: Cell): (r: Option<real>)
    ensures c.Text? && '-' in c.s && r.Some? ==> r.value >= 0.0 && WholeTenths(r.value)
    ensures c.Missing? || c.Timestamp? ==> r.None?
    ensures c.Number? ==> r == Some(c.x)
  {
    match c
    case Missing => None
    case Number(x) => Some(x)
    case Timestamp(_) => None  // `float` of a date-time raises, and the error is swallowed
    case Text(s) => if '-' in s then RangeMidpoint(Split(s, '-')) else ParseNum(s)
  }

  /** The range branch of `convert_experience` on the pieces between hyphens: exactly two pieces,
      both numbers, give their midpoint rounded to one decimal. */
  function RangeMidpoint(parts: seq<string>): (r: Option<real>)
    requires forall i :: 0 <= i < |parts| ==> '-' !in parts[i]
    ensures r.Some? ==> r.value >= 0.0 && WholeTenths(r.value)
  {
    if |parts| == 2 then
      assert '-' !in parts[0] && '-' !in parts[1];
      Midpoint(ParseNum(parts[0]), ParseNum(parts[1]))
    else None
  }

  /** The midpoint of two ends that are both present, rounded to one decimal. */
  function Midpoint(x: Option<real>, y: Option<real>): (r: Option<real>)
    requires x.Some? ==> x.value >= 0.0
    requires y.Some? ==> y.value >= 0.0
    ensures r.Some? <==> x.Some? && y.Some?
    ensures r.Some? ==> r.value >= 0.0 && WholeTenths(r.value)
    ensures r.Some? && x.value <= y.value ==> x.value - 0.05 <= r.value <= y.value + 0.05
    ensures r.Some? && y.value <= x.value ==> y.value - 0.05 <= r.value <= x.value + 0.05
  {
    if x.Some? && y.Some? then Some(Round1((x.value + y.value) / 2.0)) else None
  }

  /** The range rule: "a-b" with both ends numbers gives their midpoint rounded to one decimal. */
  lemma ExperienceRange(p: string, q: string, a: real, b: real)
    requires '-' !in p && '-' !in q
    requires ParseNum(p) == Some(a) && ParseNum(q) == Some(b)
    ensures ConvertExperience(Text(p + "-" + q)) == Some(Round1((a + b) / 2.0))
  {
    var s := p + "-" + q;
    assert s == p + ['-'] + q;
    SplitTwo(p, '-', q);
    assert s[|p|] == '-';
    ExperienceTwoParts(s, a, b);
  }

  lemma ExperienceTwoParts(s: string, a: real, b: real)
    requires '-' in s && |Split(s, '-')| == 2
    requires ParseNum(Split(s, '-')[0]) == Some(a) && ParseNum(Split(s, '-')[1]) == Some(b)
    ensures ConvertExperience(Text(s)) == Some(Round1((a + b) / 2.0))
  {
    ExperienceHyphen(s);
    RangeOfTwo(Split(s, '-'), a, b);
    MidpointOfBoth(a, b);
  }

  lemma ExperienceHyphen(s: string)
    requires '-' in s
    ensures ConvertExperience(Text(s)) == RangeMidpoint(Split(s, '-'))
  {
  }

  lemma RangeOfTwo(parts: seq<string>, a: real, b: real)
    requires forall i :: 0 <= i < |parts| ==> '-' !in parts[i]
    requires |parts| == 2 && ParseNum(parts[0]) == Some(a) && ParseNum(parts[1]) == Some(b)
    ensures a >= 0.0 && b >= 0.0 && RangeMidpoint(parts) == Midpoint(Some(a), Some(b))
  {
  }

  lemma MidpointOfBoth(a: real, b: real)
    requires a >= 0.0 && b >= 0.0
    ensures Midpoint(Some(a), Some(b)) == Some(Round1((a + b) / 2.0))
  {
  }

  /** A range with an end that is not a number gives None. */
  lemma ExperienceBadEnd(p: string, q: string)
    requires '-' !in p && '-' !in q
    requires ParseNum(p).None? || ParseNum(q).None?
    ensures ConvertExperience(Text(p + "-" + q)) == None
  {
    var s := p + "-" + q;
    assert s == p + ['-'] + q;
    SplitTwo(p, '-', q);
    assert s[|p|] == '-';
  }

  lemma {:induction false} OccurrencesPositive(s: string, c: char)
    requires c in s
    ensures Occurrences(s, c) >= 1
    decreases |s|
  {
    if s[0] != c {
      assert c in s[1..];
      OccurrencesPositive(s[1..], c);
    }
  }

  /** More than one hyphen gives None: the text does not split into exactly two parts. */
  lemma ExperienceTooManyParts(s: string)
    requires Occurrences(s, '-') >= 2
    ensures ConvertExperience(Text(s)) == None
  {
    assert '-' in s by {
      if '-' !in s { SplitNone(s, '-'); }
    }
  }

  /** A leading hyphen, as in a negative number written as text, gives None. */
  lemma ExperienceLeadingHyphen(q: string)
    ensures ConvertExperience(Text("-" + q)) == None
  {
    if '-' in q {
      OccurrencesPositive(q, '-');
      assert ("-" + q)[1..] == q;
      ExperienceTooManyParts("-" + q);
    } else {
      assert "-" + q == [] + "-" + q;
      assert AllSpace([]);
      ExperienceBadEnd([], q);
    }
  }

  /** Text without a hyphen is parsed as a single number. */
  lemma ExperiencePlain(s: string)
    requires '-' !in s
    ensures ConvertExperience(Text(s)) == ParseNum(s)
  {
  }

  /** The midpoint of a range of whole years is a whole number of halves, which rounding keeps:
      "2-5" gives exactly 3.5. */
  lemma WholeRangeMidpoint(m: nat, n: nat)
    ensures Round1((m as real + n as real) / 2.0) == (m + n) as real / 2.0
  {
    assert (m as real + n as real) / 2.0 == (5 * (m + n)) as real / 10.0;
    Round1Exact(5 * (m + n));
  }

  /** Compensation: the text form with every comma deleted, read as a number; None when that fails.
      A number cell reads back as itself, a blank prints as "nan" and a date-time is not a number. */
  function CleanCompensation(c: Cell): (r: Option<real>)
    ensures c.Missing? || c.Timestamp? ==> r.None?
    ensures c.Text? ==> r == ToNumeric(RemoveAll(c.s, ','))
    ensures c.Number? ==> r == Some(c.x)
  {
    match c
    case Missing => None
    case Number(x) => Some(x)
    case Timestamp(_) => None
    case Text(s) => ToNumeric(RemoveAll(s, ','))
  }

  /** Thousands separators do not matter: a whole number written with commas anywhere in it is read
      as that number. */
  lemma CompensationWithCommas(s: string, n: nat)
    requires RemoveAll(s, ',') == ShowNat(n)
    ensures CleanCompensation(Text(s)) == Some(n as real)
  {
    ToNumericShowNat(n);
  }

  /** The markers that mean an active employee, compared after stripping and upper-casing. */
  const ActiveMarkers: set<string> := {"Y", "YES", "ACTIVE"}

  /** The Status lambda: "Active" when the text form, stripped and upper-cased, is a marker;
      "Inactive" for everything else. A blank prints as "nan" and a number or a date-time prints
      as digits and punctuation, so neither is ever a marker. */
  function NormaliseStatus(c: Cell): (r: string)
    ensures r == "Active" || r == "Inactive"
  {
    if c.Text? && ToUpper(Trim(c.s)) in ActiveMarkers then "Active" else "Inactive"
  }

  /** Case and surrounding whitespace are irrelevant to the status. */
  lemma StatusIgnoresCaseAndPadding(p: string, s: string, q: string, t: string)
    requires AllSpace(p) && AllSpace(q)
    requires ToUpper(s) == ToUpper(t)
    ensures NormaliseStatus(Text(p + s + q)) == NormaliseStatus(Text(t))
  {
    TrimAbsorbs(p, s, q);
    UpperTrim(s);
    UpperTrim(t);
  }

  /** A marker in any letter case, padded with any whitespace, is an active employee. */
  lemma StatusMarker(p: string, m: string, q: string)
    requires AllSpace(p) && AllSpace(q)
    requires ToUpper(m) == "Y" || ToUpper(m) == "YES" || ToUpper(m) == "ACTIVE"
    ensures NormaliseStatus(Text(p + m + q)) == "Active"
  {
    assert IsTrimmed(ToUpper(m));
    assert IsTrimmed(m);
    TrimPadded(p, m, q);
  }

  /** Only such a padded marker is an active employee: every other text, and every cell that is
      not text, is an inactive one. */
  lemma StatusOnlyMarkers(c: Cell)
    ensures NormaliseStatus(c) == "Active" ==>
      c.Text? && (exists p, m, q ::
        AllSpace(p) && AllSpace(q) && c.s == p + m + q && (ToUpper(m) == "Y" || ToUpper(m) == "YES" || ToUpper(m) == "ACTIVE"))
  {
    if NormaliseStatus(c) == "Active" {
      var m := Trim(c.s);
      MarkerWords(ToUpper(m));
      TrimDecompose(c.s);
      var p, q := LeadingSpace(c.s), TrailingSpace(c.s);
      assert AllSpace(p) && AllSpace(q) && c.s == p + m + q;
    }
  }

  /** The marker set, written out. */
  lemma MarkerWords(u: string)
    requires u in ActiveMarkers
    ensures u == "Y" || u == "YES" || u == "ACTIVE"
  {
  }

  /** A blank, "N" and the empty text are inactive employees. */
  lemma StatusNonMarkers()
    ensures NormaliseStatus(Missing) == "Inactive"
    ensures NormaliseStatus(Text("N")) == "Inactive"
    ensures NormaliseStatus(Text("")) == "Inactive"
  {
    assert [] + "N" + [] == "N";
    TrimPadded([], "N", []);
    assert ToUpper("N") == "N";
    assert [] + "" + [] == "";
    TrimPadded([], "", []);
    assert ToUpper("") == "";
  }

  /** `parse_date`: a blank gives None and a date cell gives its date; any other cell is handed to
      the date library, given here as `toDate`, whose failures are None. */
  function ParseDate(c: Cell, toDate: Cell -> Option<Date>): (r: Option<Date>)
    ensures c.Missing? ==> r.None?
    ensures c.Timestamp? ==> r == Some(c.d)
  {
    match c
    case Missing => None
    case Timestamp(d) => Some(d)
    case _ => toDate(c)
  }

  /** The fixed table of Role misspellings. */
  const RoleCorrections: map<string, string> := map["Senir Associate" := "Senior Associate"]

  /** pandas' `replace(RoleCorrections)` on one Role cell: only an exact match is replaced, so the
      correction changes exactly one value, and changes it to "Senior Associate". */
  function CorrectRole(c: Cell): (r: Cell)
    ensures c == Text("Senir Associate") ==> r == Text("Senior Associate")
    ensures c != Text("Senir Associate") ==> r == c
  {
    if c.Text? && c.s in RoleCorrections then Text(RoleCorrections[c.s]) else c
  }

  // ---------------------------------------------------------------------------------------------
  // Cells as they are written back into the data frame

  /** A normalised number goes back into the frame as a number or a blank. */
  function NumberCell(v: Option<real>): Cell {
    match v
    case None => Missing
    case Some(x) => Number(x)
  }

  function ExperienceCell(c: Cell): Cell {
    NumberCell(ConvertExperience(c))
  }

  function CompensationCell(c: Cell): Cell {
    NumberCell(CleanCompensation(c))
  }

  function StatusCell(c: Cell): Cell {
    Text(NormaliseStatus(c))
  }

  function DateCell(c: Cell, toDate: Cell -> Option<Date>): Cell {
    match ParseDate(c, toDate)
    case None => Missing
    case Some(d) => Timestamp(d)
  }

  /** The function the script applies to the LastWorkingDay column. */
  function DateCells(toDate: Cell -> Option<Date>): Cell -> Cell {
    c => DateCell(c, toDate)
  }

  /** The two status words the importer writes are read back as themselves. */
  lemma ActiveWordStable()
    ensures NormaliseStatus(Text("Active")) == "Active"
  {
    WordStatus("Active");
    assert ToUpper("Active") == "ACTIVE";
  }

  lemma InactiveWordStable()
    ensures NormaliseStatus(Text("Inactive")) == "Inactive"
  {
    WordStatus("Inactive");
    assert |ToUpper("Inactive")| == 8;
  }

  /** A text without surrounding whitespace is judged by its upper-case form alone. */
  lemma WordStatus(w: string)
    requires IsTrimmed(w)
    ensures NormaliseStatus(Text(w)) == if ToUpper(w) in ActiveMarkers then "Active" else "Inactive"
  {
    assert [] + w + [] == w;
    TrimPadded([], w, []);
  }

  // Normalising an already normalised column changes nothing, so re-running the clean-up on its
  // own output is harmless.

  lemma ExperienceCellIdempotent(c: Cell)
    ensures ExperienceCell(ExperienceCell(c)) == ExperienceCell(c)
  {
  }

  lemma CompensationCellIdempotent(c: Cell)
    ensures CompensationCell(CompensationCell(c)) == CompensationCell(c)
  {
  }

  lemma StatusCellIdempotent(c: Cell)
    ensures StatusCell(StatusCell(c)) == StatusCell(c)
  {
    ActiveWordStable();
    InactiveWordStable();
  }

  lemma DateCellIdempotent(c: Cell, toDate: Cell -> Option<Date>)
    ensures DateCell(DateCell(c, toDate), toDate) == DateCell(c, toDate)
  {
  }

  lemma CorrectRoleIdempotent(c: Cell)
    ensures CorrectRole(CorrectRole(c)) == CorrectRole(c)
  {
  }

  // ---------------------------------------------------------------------------------------------
  // The data frame

  /** pandas' `Series.apply(f)`. */
  function MapCells(cells: seq<Cell>, f: Cell -> Cell): (r: seq<Cell>)
    ensures |r| == |cells| && forall k :: 0 <= k < |cells| ==> r[k] == f(cells[k])
  {
    seq(|cells|, k requires 0 <= k < |cells| => f(cells[k]))
  }

  /** The worksheet as a data frame: one sequence of cells per column, all of the same height. */
  function SheetColumns(sheet: Sheet): (data: seq<seq<Cell>>)
    ensures |data| == |sheet.header|
    ensures forall j :: 0 <= j < |data| ==> |data[j]| == |sheet.rows|
  {
    seq(|sheet.header|, j requires 0 <= j < |sheet.header| =>
      seq(|sheet.rows|, k requires 0 <= k < |sheet.rows| => CellAt(sheet.rows[k], j)))
  }

  /** One row as it is handed to the INSERT statement. */
  datatype Row = Row(name: Cell, role: Cell, location: Cell, experienceYears: Cell,
                     compensation: Cell, status: Cell, lastWorkingDay: Cell)

  /** The importer's data frame, which the script changes in place column by column. */
  class DataFrame {
    var columns: seq<string>
    var data: seq<seq<Cell>>
    const height: nat

    ghost predicate Valid()
      reads this
    {
      |data| == |columns| && forall j :: 0 <= j < |data| ==> |data[j]| == height
    }

    /** `pd.read_excel`. */
    constructor FromSheet(sheet: Sheet)
      ensures Valid()
      ensures columns == sheet.header && data == SheetColumns(sheet) && height == |sheet.rows|
    {
      columns := sheet.header;
      data := SheetColumns(sheet);
      height := |sheet.rows|;
    }

    /** `df.columns = df.columns.str.strip()`. */
    method StripColumns()
      requires Valid()
      modifies this
      ensures Valid() && data == old(data)
      ensures |columns| == |old(columns)|
      ensures forall j :: 0 <= j < |columns| ==> columns[j] == Trim(old(columns)[j])
    {
      columns := seq(|columns|, j requires 0 <= j < |columns| reads this => Trim(columns[j]));
    }

    /** `df.rename(columns=m, inplace=True)`. */
    method RenameColumns(m: map<string, string>)
      requires Valid()
      modifies this
      ensures Valid() && data == old(data)
      ensures |columns| == |old(columns)|
      ensures forall j :: 0 <= j < |columns| ==> columns[j] == Rename(m, old(columns)[j])
    {
      columns := seq(|columns|, j requires 0 <= j < |columns| reads this => Rename(m, columns[j]));
    }

    /** `df[name] = df[name].apply(f)`; `found` is false where pandas raises KeyError. */
    method Apply(name: string, f: Cell -> Cell) returns (found: bool)
      requires Valid()
      modifies this
      ensures Valid() && columns == old(columns)
      ensures found == (name in columns)
      ensures found ==> data == ApplyColumn(columns, old(data), name, f)
      ensures !found ==> data == old(data)
    {
      found := name in columns;
      if found {
        var j := FirstIndex(columns, name);
        data := data[j := MapCells(data[j], f)];
      }
    }

    predicate HasRowColumns()
      reads this
    {
      HasColumns(columns)
    }

    /** The rows `df.iterrows()` yields, as the insert statement reads them. */
    function Rows(): (rows: seq<Row>)
      reads this
      requires Valid() && HasRowColumns()
      ensures |rows| == height
    {
      FrameRows(columns, data, height)
    }
  }

  /** A frame, held as columns, whose column `name` has had `f` applied to every cell; where
      several columns carry the label, pandas' `df[name]` is the first of them. */
  function ApplyColumn(columns: seq<string>, data: seq<seq<Cell>>, name: string, f: Cell -> Cell): (r: seq<seq<Cell>>)
    requires |data| == |columns| && name in columns
    ensures |r| == |data| && forall j :: 0 <= j < |r| ==> |r[j]| == |data[j]|
  {
    data[FirstIndex(columns, name) := MapCells(data[FirstIndex(columns, name)], f)]
  }

  /** Applying `f` to column `name` changes the cells under that label, each to `f` of itself,
      and leaves every other column as it was. */
  lemma ApplyColumnCell(columns: seq<string>, data: seq<seq<Cell>>, name: string, f: Cell -> Cell, other: string, k: nat)
    requires |data| == |columns| && name in columns
    requires other in columns && k < |data[FirstIndex(columns, other)]|
    ensures FrameCell(columns, ApplyColumn(columns, data, name, f), other, k)
      == if other == name then f(FrameCell(columns, data, other, k)) else FrameCell(columns, data, other, k)
  {
    if other != name {
      assert columns[FirstIndex(columns, name)] != columns[FirstIndex(columns, other)];
    }
  }

  /** `row[name]` for row `k` of a frame held as columns: the first column with that label. */
  function FrameCell(columns: seq<string>, data: seq<seq<Cell>>, name: string, k: nat): Cell
    requires |data| == |columns| && name in columns && k < |data[FirstIndex(columns, name)]|
  {
    data[FirstIndex(columns, name)][k]
  }

  /** `df.iterrows()` over the seven database columns. */
  function FrameRows(columns: seq<string>, data: seq<seq<Cell>>, height: nat): (rows: seq<Row>)
    requires |data| == |columns| && forall j :: 0 <= j < |data| ==> |data[j]| == height
    requires HasColumns(columns)
    ensures |rows| == height
  {
    seq(height, k requires 0 <= k < height =>
      Row(FrameCell(columns, data, "Name", k), FrameCell(columns, data, "Role", k),
          FrameCell(columns, data, "Location", k), FrameCell(columns, data, "ExperienceYears", k),
          FrameCell(columns, data, "Compensation", k), FrameCell(columns, data, "Status", k),
          FrameCell(columns, data, "LastWorkingDay", k)))
  }

  /** Every name of `DatabaseColumns`, the columns the insert statement reads, is among `cols`.
      The names are listed one by one so that each lookup is a plain fact for the verifier. */
  predicate HasColumns(cols: seq<string>) {
    "Name" in cols && "Role" in cols && "Location" in cols && "ExperienceYears" in cols
    && "Compensation" in cols && "Status" in cols && "LastWorkingDay" in cols
  }

  // ---------------------------------------------------------------------------------------------
  // What the clean-up produces, stated on the worksheet

  /** pandas raises KeyError for a column the frame does not have, which ends the script. */
  datatype ImportError = KeyError(column: string)

  /** The cell of worksheet row `k` under the first of the cleaned headings `columns` that is `name`. */
  function SheetCell(sheet: Sheet, columns: seq<string>, name: string, k: nat): Cell
    requires name in columns && k < |sheet.rows|
  {
    CellAt(sheet.rows[k], FirstIndex(columns, name))
  }

  /** A row as the database expects it: a number or nothing for ExperienceYears and Compensation,
      exactly "Active" or "Inactive" for Status, and a date or nothing for LastWorkingDay. */
  predicate NormalRow(row: Row) {
    (row.experienceYears.Missing? || row.experienceYears.Number?) &&
    (row.compensation.Missing? || row.compensation.Number?) &&
    (row.status == Text("Active") || row.status == Text("Inactive")) &&
    (row.lastWorkingDay.Missing? || row.lastWorkingDay.Timestamp?)
  }

  /** Row `k` of the worksheet after the clean-up: three columns as they were, Role corrected and
      the other four normalised. */
  function NormaliseRow(sheet: Sheet, columns: seq<string>, k: nat, toDate: Cell -> Option<Date>): (row: Row)
    requires HasColumns(columns) && k < |sheet.rows|
    ensures NormalRow(row)
    ensures row.name == SheetCell(sheet, columns, "Name", k)
    ensures row.location == SheetCell(sheet, columns, "Location", k)
  {
    Row(SheetCell(sheet, columns, "Name", k),
        CorrectRole(SheetCell(sheet, columns, "Role", k)),
        SheetCell(sheet, columns, "Location", k),
        ExperienceCell(SheetCell(sheet, columns, "ExperienceYears", k)),
        CompensationCell(SheetCell(sheet, columns, "Compensation", k)),
        StatusCell(SheetCell(sheet, columns, "Status", k)),
        DateCell(SheetCell(sheet, columns, "LastWorkingDay", k), toDate))
  }

  function NormaliseRows(sheet: Sheet, columns: seq<string>, toDate: Cell -> Option<Date>): (rows: seq<Row>)
    requires HasColumns(columns)
    ensures |rows| == |sheet.rows|
    ensures forall k :: 0 <= k < |rows| ==> rows[k] == NormaliseRow(sheet, columns, k, toDate)
    ensures forall k :: 0 <= k < |rows| ==> NormalRow(rows[k])
  {
    seq(|sheet.rows|, k requires 0 <= k < |sheet.rows| => NormaliseRow(sheet, columns, k, toDate))
  }

  /** The rows the script goes on to insert, or the KeyError that stops it first. The five
      normalised columns are looked up in the order the script touches them; Name and Location are
      first read inside the insert loop, so their absence only matters when there is a row. */
  function PrepareRows(sheet: Sheet, toDate: Cell -> Option<Date>): (r: Result<seq<Row>, ImportError>)
    ensures r.Ok? ==> |r.value| == |sheet.rows|
    ensures r.Err? ==> r.error.column in DatabaseColumns && r.error.column !in CleanColumns(sheet.header)
  {
    var cols := CleanColumns(sheet.header);
    var n := |sheet.rows|;
    if "ExperienceYears" !in cols then Err(KeyError("ExperienceYears"))
    else if "Compensation" !in cols then Err(KeyError("Compensation"))
    else if "Status" !in cols then Err(KeyError("Status"))
    else if "LastWorkingDay" !in cols then Err(KeyError("LastWorkingDay"))
    else if "Role" !in cols then Err(KeyError("Role"))
    else if n > 0 && "Name" !in cols then Err(KeyError("Name"))
    else if n > 0 && "Location" !in cols then Err(KeyError("Location"))
    else if n == 0 then Ok([])
    else Ok(NormaliseRows(sheet, cols, toDate))
  }

  /** Every row that reaches the database is a normal row. */
  lemma PreparedRowsAreNormal(sheet: Sheet, toDate: Cell -> Option<Date>, k: nat)
    requires PrepareRows(sheet, toDate).Ok? && k < |PrepareRows(sheet, toDate).value|
    ensures NormalRow(PrepareRows(sheet, toDate).value[k])
  {
  }

  // ---------------------------------------------------------------------------------------------
  // The frame after the clean-up

  /** The frame after the script's five in-place normalisations, in the script's order. */
  function CleanedData(columns: seq<string>, data: seq<seq<Cell>>, toDate: Cell -> Option<Date>): (r: seq<seq<Cell>>)
    requires |data| == |columns| && HasColumns(columns)
    ensures |r| == |data| && forall j :: 0 <= j < |r| ==> |r[j]| == |data[j]|
  {
    var d1 := ApplyColumn(columns, data, "ExperienceYears", ExperienceCell);
    var d2 := ApplyColumn(columns, d1, "Compensation", CompensationCell);
    var d3 := ApplyColumn(columns, d2, "Status", StatusCell);
    var d4 := ApplyColumn(columns, d3, "LastWorkingDay", DateCells(toDate));
    ApplyColumn(columns, d4, "Role", CorrectRole)
  }

  /** What the clean-up does to a cell of column `name`. */
  function CleanCell(name: string, toDate: Cell -> Option<Date>, c: Cell): Cell {
    if name == "ExperienceYears" then ExperienceCell(c)
    else if name == "Compensation" then CompensationCell(c)
    else if name == "Status" then StatusCell(c)
    else if name == "LastWorkingDay" then DateCell(c, toDate)
    else if name == "Role" then CorrectRole(c)
    else c
  }

  /** Every cell of the cleaned frame is the worksheet's cell with its column's clean-up applied. */
  lemma CleanedCell(sheet: Sheet, columns: seq<string>, toDate: Cell -> Option<Date>, name: string, k: nat)
    requires |columns| == |sheet.header| && HasColumns(columns) && name in columns && k < |sheet.rows|
    ensures FrameCell(columns, CleanedData(columns, SheetColumns(sheet), toDate), name, k)
      == CleanCell(name, toDate, SheetCell(sheet, columns, name, k))
  {
    var d0 := SheetColumns(sheet);
    var d1 := ApplyColumn(columns, d0, "ExperienceYears", ExperienceCell);
    var d2 := ApplyColumn(columns, d1, "Compensation", CompensationCell);
    var d3 := ApplyColumn(columns, d2, "Status", StatusCell);
    var d4 := ApplyColumn(columns, d3, "LastWorkingDay", DateCells(toDate));
    ApplyColumnCell(columns, d0, "ExperienceYears", ExperienceCell, name, k);
    ApplyColumnCell(columns, d1, "Compensation", CompensationCell, name, k);
    ApplyColumnCell(columns, d2, "Status", StatusCell, name, k);
    ApplyColumnCell(columns, d3, "LastWorkingDay", DateCells(toDate), name, k);
    ApplyColumnCell(columns, d4, "Role", CorrectRole, name, k);
  }

  /** Row `k` of the cleaned frame is row `k` of the worksheet, normalised on its own. */
  lemma CleanedRow(sheet: Sheet, columns: seq<string>, toDate: Cell -> Option<Date>, k: nat)
    requires |columns| == |sheet.header| && HasColumns(columns) && k < |sheet.rows|
    ensures FrameRows(columns, CleanedData(columns, SheetColumns(sheet), toDate), |sheet.rows|)[k]
      == NormaliseRow(sheet, columns, k, toDate)
  {
    CleanedCell(sheet, columns, toDate, "Name", k);
    CleanedCell(sheet, columns, toDate, "Role", k);
    CleanedCell(sheet, columns, toDate, "Location", k);
    CleanedCell(sheet, columns, toDate, "ExperienceYears", k);
    CleanedCell(sheet, columns, toDate, "Compensation", k);
    CleanedCell(sheet, columns, toDate, "Status", k);
    CleanedCell(sheet, columns, toDate, "LastWorkingDay", k);
  }

  /** The column-by-column clean-up and the row-by-row description agree. */
  lemma CleanedRows(sheet: Sheet, columns: seq<string>, toDate: Cell -> Option<Date>)
    requires |columns| == |sheet.header| && HasColumns(columns)
    ensures FrameRows(columns, CleanedData(columns, SheetColumns(sheet), toDate), |sheet.rows|)
      == NormaliseRows(sheet, columns, toDate)
  {
    forall k | 0 <= k < |sheet.rows|
      ensures FrameRows(columns, CleanedData(columns, SheetColumns(sheet), toDate), |sheet.rows|)[k]
        == NormaliseRow(sheet, columns, k, toDate)
    {
      CleanedRow(sheet, columns, toDate, k);
    }
  }

  // ---------------------------------------------------------------------------------------------
  // The insert loop

  /** The summary of a run: the two counters, the outcome of every attempt in order, and the table
      as it stands afterwards. */
  datatype Report = Report(success: nat, failed: nat, outcomes: seq<bool>, table: seq<Row>)

  function CountTrue(bs: seq<bool>): (n: nat)
    ensures n <= |bs|
  {
    if bs == [] then 0 else (if bs[0] then 1 else 0) + CountTrue(bs[1..])
  }

  /** The rows whose insert succeeded, in order. */
  function Kept(rows: seq<Row>, outcomes: seq<bool>): (kept: seq<Row>)
    requires |outcomes| == |rows|
    ensures |kept| == CountTrue(outcomes)
    ensures IsSubsequence(kept, rows)
  {
    if rows == [] then []
    else
      var rest := Kept(rows[1..], outcomes[1..]);
      if outcomes[0] then [rows[0]] + rest else rest
  }

  /** The successful rows of two blocks of rows are those of the first block, then those of the second. */
  lemma {:induction false} KeptAppend(a: seq<Row>, o: seq<bool>, b: seq<Row>, p: seq<bool>)
    requires |o| == |a| && |p| == |b|
    ensures Kept(a + b, o + p) == Kept(a, o) + Kept(b, p)
    decreases |a|
  {
    if a == [] {
      assert a + b == b && o + p == p;
    } else {
      assert (a + b)[1..] == a[1..] + b;
      assert (o + p)[1..] == o[1..] + p;
      KeptAppend(a[1..], o[1..], b, p);
      if o[0] {
        AppendAssociative([a[0]], Kept(a[1..], o[1..]), Kept(b, p));
      }
    }
  }

  /** One row is kept exactly when its insert succeeded. */
  lemma KeptOne(row: Row, ok: bool)
    ensures Kept([row], [ok]) == if ok then [row] else []
  {
  }

  /** The committed rows after one insert: the row is appended exactly when the insert succeeded. */
  function Commit(table: seq<Row>, row: Row, ok: bool): seq<Row> {
    if ok then table + [row] else table
  }

  /** The insert loop, row by row: each row is offered to the database, whose verdict `accept`
      may depend on the attempt's position in the run (`attempt` counts the rows offered before
      these), on the rows committed so far and on the row; a success commits the row, a failure is
      counted and the loop goes on. */
  function Replay(table: seq<Row>, rows: seq<Row>, accept: (nat, seq<Row>, Row) -> bool, attempt: nat): (rep: Report)
    ensures |rep.outcomes| == |rows|
    ensures rep.success + rep.failed == |rows|
    ensures rep.success == CountTrue(rep.outcomes)
    decreases |rows|
  {
    if rows == [] then Report(0, 0, [], table)
    else
      var ok := accept(attempt, table, rows[0]);
      var rest := Replay(Commit(table, rows[0], ok), rows[1..], accept, attempt + 1);
      assert ([ok] + rest.outcomes)[1..] == rest.outcomes;
      Report(rest.success + (if ok then 1 else 0), rest.failed + (if ok then 0 else 1),
             [ok] + rest.outcomes, rest.table)
  }

  /** After the loop the table is the old table followed by exactly the rows whose insert succeeded,
      in order. */
  lemma {:induction false} ReplayTable(table: seq<Row>, rows: seq<Row>, accept: (nat, seq<Row>, Row) -> bool,
                                       attempt: nat)
    ensures var rep := Replay(table, rows, accept, attempt);
      rep.table == table + Kept(rows, rep.outcomes)
    decreases |rows|
  {
    if rows != [] {
      var ok := accept(attempt, table, rows[0]);
      var rest := Replay(Commit(table, rows[0], ok), rows[1..], accept, attempt + 1);
      ReplayTable(Commit(table, rows[0], ok), rows[1..], accept, attempt + 1);
      ReplayHead(table, rows, ok, rest);
    }
  }

  /** Putting the first row's outcome in front of the report on the other rows. */
  lemma ReplayHead(table: seq<Row>, rows: seq<Row>, ok: bool, rest: Report)
    requires rows != [] && |rest.outcomes| == |rows| - 1
    requires rest.table == Commit(table, rows[0], ok) + Kept(rows[1..], rest.outcomes)
    ensures rest.table == table + Kept(rows, [ok] + rest.outcomes)
  {
    assert ([ok] + rest.outcomes)[1..] == rest.outcomes;
    if ok {
      AppendAssociative(table, [rows[0]], Kept(rows[1..], rest.outcomes));
    }
  }

  /** One step of the insert loop, unfolded. */
  lemma ReplayStep(table: seq<Row>, rows: seq<Row>, accept: (nat, seq<Row>, Row) -> bool, attempt: nat)
    requires rows != []
    ensures var ok := accept(attempt, table, rows[0]);
      Replay(table, rows, accept, attempt).outcomes
        == [ok] + Replay(Commit(table, rows[0], ok), rows[1..], accept, attempt + 1).outcomes
    ensures var out := Replay(table, rows, accept, attempt).outcomes;
      out[0] == accept(attempt, table, rows[0])
      && out[1..] == Replay(Commit(table, rows[0], out[0]), rows[1..], accept, attempt + 1).outcomes
  {
    var ok := accept(attempt, table, rows[0]);
    var rest := Replay(Commit(table, rows[0], ok), rows[1..], accept, attempt + 1).outcomes;
    assert ([ok] + rest)[1..] == rest;
  }

  /** The first `k` rows and outcomes, with their first entries split off. */
  lemma KeptPrefix(rows: seq<Row>, out: seq<bool>, k: nat)
    requires 0 < k <= |rows| == |out|
    ensures Kept(rows[..k], out[..k])
      == (if out[0] then [rows[0]] else []) + Kept(rows[1..][..k - 1], out[1..][..k - 1])
  {
    assert rows[..k][1..] == rows[1..][..k - 1];
    assert out[..k][1..] == out[1..][..k - 1];
  }

  /** Row `k` is attempted exactly once, as attempt `attempt + k`, after the rows before it,
      against the table holding exactly those earlier rows whose insert succeeded: a failure never
      stops later rows. */
  lemma {:induction false} ReplayAttempt(table: seq<Row>, rows: seq<Row>, accept: (nat, seq<Row>, Row) -> bool,
                                         attempt: nat, k: nat)
    requires k < |rows|
    ensures var out := Replay(table, rows, accept, attempt).outcomes;
      out[k] == accept(attempt + k, table + Kept(rows[..k], out[..k]), rows[k])
    decreases |rows|, 1
  {
    if k == 0 {
      ReplayFirst(table, rows, accept, attempt);
    } else {
      ReplayAttemptLater(table, rows, accept, attempt, k);
    }
  }

  /** The inductive step of `ReplayAttempt`, for a row after the first. */
  lemma {:induction false} ReplayAttemptLater(table: seq<Row>, rows: seq<Row>, accept: (nat, seq<Row>, Row) -> bool,
                                              attempt: nat, k: nat)
    requires 0 < k < |rows|
    ensures var out := Replay(table, rows, accept, attempt).outcomes;
      out[k] == accept(attempt + k, table + Kept(rows[..k], out[..k]), rows[k])
    decreases |rows|, 0
  {
    var ok := accept(attempt, table, rows[0]);
    var table' := Commit(table, rows[0], ok);
    ReplayAttempt(table', rows[1..], accept, attempt + 1, k - 1);
    ReplayLater(table, rows, accept, attempt, k);
  }

  /** The first row is the first attempt, against the table as it was. */
  lemma ReplayFirst(table: seq<Row>, rows: seq<Row>, accept: (nat, seq<Row>, Row) -> bool, attempt: nat)
    requires rows != []
    ensures var out := Replay(table, rows, accept, attempt).outcomes;
      out[0] == accept(attempt + 0, table + Kept(rows[..0], out[..0]), rows[0])
  {
    var out := Replay(table, rows, accept, attempt).outcomes;
    ReplayStep(table, rows, accept, attempt);
    assert rows[..0] == [] && out[..0] == [];
    assert table + Kept(rows[..0], out[..0]) == table;
  }

  /** Attempt `k - 1` of the run after the first row is attempt `k` of the whole run. */
  lemma ReplayLater(table: seq<Row>, rows: seq<Row>, accept: (nat, seq<Row>, Row) -> bool, attempt: nat, k: nat)
    requires 0 < k < |rows|
    requires var ok := accept(attempt, table, rows[0]);
      var table' := Commit(table, rows[0], ok);
      var rest := Replay(table', rows[1..], accept, attempt + 1).outcomes;
      rest[k - 1] == accept(attempt + 1 + (k - 1), table' + Kept(rows[1..][..k - 1], rest[..k - 1]), rows[1..][k - 1])
    ensures var out := Replay(table, rows, accept, attempt).outcomes;
      out[k] == accept(attempt + k, table + Kept(rows[..k], out[..k]), rows[k])
  {
    var ok := accept(attempt, table, rows[0]);
    var table' := Commit(table, rows[0], ok);
    var rest := Replay(table', rows[1..], accept, attempt + 1).outcomes;
    var out := Replay(table, rows, accept, attempt).outcomes;
    ReplayStep(table, rows, accept, attempt);
    assert attempt + 1 + (k - 1) == attempt + k;
    AttemptShift(table, table', rows, out, rest, accept, attempt, k);
  }

  /** What attempt `k - 1` of the run after the first row is, attempt `k` of the whole run is. */
  lemma AttemptShift(table: seq<Row>, table': seq<Row>, rows: seq<Row>, out: seq<bool>, rest: seq<bool>,
                     accept: (nat, seq<Row>, Row) -> bool, attempt: nat, k: nat)
    requires 0 < k < |rows| == |out|
    requires rest == out[1..] && table' == Commit(table, rows[0], out[0])
    requires rest[k - 1] == accept(attempt + k, table' + Kept(rows[1..][..k - 1], rest[..k - 1]), rows[1..][k - 1])
    ensures out[k] == accept(attempt + k, table + Kept(rows[..k], out[..k]), rows[k])
  {
    CommittedBefore(table, rows, out, k);
    assert rows[1..][k - 1] == rows[k];
  }

  /** The table before attempt `k` is the table after the first row, grown by the later successes. */
  lemma CommittedBefore(table: seq<Row>, rows: seq<Row>, out: seq<bool>, k: nat)
    requires 0 < k <= |rows| == |out|
    ensures table + Kept(rows[..k], out[..k])
      == Commit(table, rows[0], out[0]) + Kept(rows[1..][..k - 1], out[1..][..k - 1])
  {
    KeptPrefix(rows, out, k);
    var earlier := Kept(rows[1..][..k - 1], out[1..][..k - 1]);
    if out[0] {
      AppendAssociative(table, [rows[0]], earlier);
    } else {
      assert [] + earlier == earlier;
    }
  }

  /** The report of a run that has already handled some rows and goes on with the rest. */
  function Continue(success: nat, failed: nat, outcomes: seq<bool>, rest: Report): Report {
    Report(success + rest.success, failed + rest.failed, outcomes + rest.outcomes, rest.table)
  }

  /** Handling row `index` moves it from the remaining run into the counters. */
  lemma ContinueStep(success: nat, failed: nat, outcomes: seq<bool>, table: seq<Row>, rows: seq<Row>,
                     index: nat, accept: (nat, seq<Row>, Row) -> bool)
    requires index < |rows|
    ensures var ok := accept(index, table, rows[index]);
      Continue(success, failed, outcomes, Replay(table, rows[index..], accept, index))
        == Continue(success + (if ok then 1 else 0), failed + (if ok then 0 else 1), outcomes + [ok],
                    Replay(Commit(table, rows[index], ok), rows[index + 1..], accept, index + 1))
  {
    var ok := accept(index, table, rows[index]);
    assert rows[index..][1..] == rows[index + 1..];
    var rest := Replay(Commit(table, rows[index], ok), rows[index + 1..], accept, index + 1);
    AppendAssociative(outcomes, [ok], rest.outcomes);
  }

  /** Before the first row, the remaining run is the whole run. */
  lemma ContinueStart(table: seq<Row>, rows: seq<Row>, accept: (nat, seq<Row>, Row) -> bool)
    ensures Continue(0, 0, [], Replay(table, rows[0..], accept, 0)) == Replay(table, rows, accept, 0)
  {
    assert rows[0..] == rows;
    assert [] + Replay(table, rows, accept, 0).outcomes == Replay(table, rows, accept, 0).outcomes;
  }

  /** With no rows left, the counters are the whole report. */
  lemma ContinueDone(success: nat, failed: nat, outcomes: seq<bool>, table: seq<Row>, rows: seq<Row>,
                     accept: (nat, seq<Row>, Row) -> bool)
    ensures Continue(success, failed, outcomes, Replay(table, rows[|rows|..], accept, |rows|))
      == Report(success, failed, outcomes, table)
  {
    assert rows[|rows|..] == [];
    assert outcomes + [] == outcomes;
  }

  /** The loop of the script: `success` and `failed` start at zero and exactly one of them grows
      by one per row. */
  method InsertAll(existing: seq<Row>, rows: seq<Row>, accept: (nat, seq<Row>, Row) -> bool) returns (rep: Report)
    ensures rep == Replay(existing, rows, accept, 0)
    ensures rep.success + rep.failed == |rows|
    ensures rep.table == existing + Kept(rows, rep.outcomes)
  {
    var success: nat, failed: nat := 0, 0;
    var outcomes: seq<bool> := [];
    var table := existing;
    ContinueStart(existing, rows, accept);
    for index := 0 to |rows|
      invariant Continue(success, failed, outcomes, Replay(table, rows[index..], accept, index))
        == Replay(existing, rows, accept, 0)
    {
      var row := rows[index];
      var ok := accept(index, table, row);
      ContinueStep(success, failed, outcomes, table, rows, index, accept);
      ghost var before := table;
      if ok {
        table := table + [row];
        success := success + 1;
      } else {
        failed := failed + 1;
      }
      outcomes := outcomes + [ok];
      assert table == Commit(before, row, ok);
    }
    ContinueDone(success, failed, outcomes, table, rows, accept);
    rep := Report(success, failed, outcomes, table);
    ReplayTable(existing, rows, accept, 0);
  }

  // ---------------------------------------------------------------------------------------------
  // The script

  /** The whole importer, in the script's order: read the worksheet, strip and rename the headings,
      normalise ExperienceYears, Compensation, Status, LastWorkingDay and Role in place, then insert
      every row. A missing column ends the run with KeyError before anything is inserted. */
  method ImportWorkbook(sheet: Sheet, existing: seq<Row>, accept: (nat, seq<Row>, Row) -> bool,
                        toDate: Cell -> Option<Date>) returns (result: Result<Report, ImportError>)
    ensures PrepareRows(sheet, toDate).Err? ==> result == Err(PrepareRows(sheet, toDate).error)
    ensures PrepareRows(sheet, toDate).Ok? ==> result == Ok(Replay(existing, PrepareRows(sheet, toDate).value, accept, 0))
  {
    var df := new DataFrame.FromSheet(sheet);
    df.StripColumns();
    df.RenameColumns(ColumnMap);
    assert df.columns == CleanColumns(sheet.header);
    ghost var columns, raw := df.columns, df.data;
    var found := df.Apply("ExperienceYears", ExperienceCell);
    if !found { return Err(KeyError("ExperienceYears")); }
    ghost var d1 := df.data;
    found := df.Apply("Compensation", CompensationCell);
    if !found { return Err(KeyError("Compensation")); }
    ghost var d2 := df.data;
    found := df.Apply("Status", StatusCell);
    if !found { return Err(KeyError("Status")); }
    ghost var d3 := df.data;
    found := df.Apply("LastWorkingDay", DateCells(toDate));
    if !found { return Err(KeyError("LastWorkingDay")); }
    ghost var d4 := df.data;
    found := df.Apply("Role", CorrectRole);
    if !found { return Err(KeyError("Role")); }
    if df.height > 0 && "Name" !in df.columns { return Err(KeyError("Name")); }
    if df.height > 0 && "Location" !in df.columns { return Err(KeyError("Location")); }
    if df.height == 0 {
      var report := InsertAll(existing, [], accept);
      return Ok(report);
    }
    assert df.data == CleanedData(columns, raw, toDate);
    var rows := df.Rows();
    CleanedRows(sheet, columns, toDate);
    assert rows == PrepareRows(sheet, toDate).value;
    var report := InsertAll(existing, rows, accept);
    result := Ok(report);
  }
}
