/** `ConfigParser` of features/config_parser.py: an uploaded TOML, YAML or CSV file is
    size-checked and decoded when the object is made, parsed into a dictionary on
    `parse()`, and handed out only while its measured size stays under a limit. */
module ConfigParsing {
  import opened Base
  import opened Values
  import opened Streams
  import opened UploadedFileValidation

  /** `MAX_FILE_SIZE_BYTES`, 30 MiB. */
  const MaxFileSize: nat := 31457280

  /** `MAX_MEMORY_SIZE_BYTES`, 150 MiB. */
  const MaxMemorySize: nat := 157286400

  /** `SUPPORTED_EXTENSIONS`. */
  const SupportedExtensions: set<string> := {"toml", "yaml", "yml", "csv"}

  const SizeMessage: string := "File size exceeds the maximum limit"
  const UnsupportedMessage: string := "Unsupported file type"
  const InvalidYamlMessage: string := "Invalid YAML file loaded."
  const RowsNameMessage: string := "ensure this value has at least 1 characters."
  /** What reading `name` of a `BytesIO` that was never given one raises. */
  const NoNameMessage: string := "'_io.BytesIO' object has no attribute 'name'"
  /** What pandas' `fillna(value=None)` raises when no fill method is given either. */
  const FillValueMessage: string := "Must specify a fill 'value' or 'method'."

  /** One cell of a table `pandas.read_csv` returns: a value or a missing one (NaN). */
  datatype Cell = Missing | Present(value: Value)

  /** The rows of the table, in file order, each a map from column name to cell. */
  type CsvTable = seq<map<string, Cell>>

  /** What `yaml.safe_load` does: a document, a `MarkedYAMLError` or a `ReaderError`. */
  datatype YamlOutcome = YamlLoaded(doc: Value) | YamlMarked(text: string) | YamlReader(text: string)

  /** The libraries the class calls, as functions: strict UTF-8 decoding (with the
      decoder's message on failure), `tomllib.loads`, `yaml.safe_load`,
      `pandas.read_csv`, `row.to_dict()` of a row of the table as read, `sys.getsizeof`
      and `pprint.pformat`. Each parser failure is one of the exceptions `parse()` catches.
      `iterrows` gives each row in the common dtype of the table's columns, so that
      `csvRow(t, i)` may show an int cell of an all-numeric table as a float. */
  datatype Parsers = Parsers(
    decode: Bytes -> Result<string, string>,
    toml: string -> Result<map<string, Value>, string>,
    yaml: string -> YamlOutcome,
    csv: string -> Result<CsvTable, string>,
    csvRow: (CsvTable, nat) -> map<string, Value>,
    sizeOf: Value -> nat,
    pformat: map<string, Value> -> string)

  // ---------------------------------------------------------------------------
  // File extension

  /** `name.split(".")[-1]`: the text after the last dot, or the whole name. */
  function Extension(name: string): (r: string)
    ensures |r| <= |name| && r == name[|name| - |r|..]
    ensures '.' !in r
    ensures |r| == |name| || name[|name| - |r| - 1] == '.'
  {
    if |name| == 0 then ""
    else if name[|name| - 1] == '.' then ""
    else
      var init := Extension(name[..|name| - 1]);
      assert name[..|name| - 1][|name| - 1 - |init|..] == name[|name| - 1 - |init|..|name| - 1];
      init + [name[|name| - 1]]
  }

  /** A name without a dot is its own extension. */
  lemma ExtensionWithoutDot(name: string)
    requires '.' !in name
    ensures Extension(name) == name
  {
  }

  /** The extension ends the name, right after its last dot. */
  lemma {:induction false} ExtensionAfterLastDot(stem: string, ext: string)
    requires '.' !in ext
    ensures Extension(stem + "." + ext) == ext
  {
    var name := stem + "." + ext;
    if |ext| > 0 {
      var init := ext[..|ext| - 1];
      assert name[..|name| - 1] == stem + "." + init;
      assert '.' !in init by {
        forall j | 0 <= j < |init| ensures init[j] != '.' {
          assert init[j] == ext[j];
        }
      }
      ExtensionAfterLastDot(stem, init);
      assert ext == init + [ext[|ext| - 1]];
    }
  }

  // ---------------------------------------------------------------------------
  // YAML error messages

  /** `s.replace(pattern, replacement)`: every non-overlapping occurrence, left to right. */
  function ReplaceAll(s: string, pattern: string, replacement: string): string
    requires |pattern| > 0
    decreases |s|
  {
    if |s| < |pattern| then s
    else if s[..|pattern|] == pattern then replacement + ReplaceAll(s[|pattern|..], pattern, replacement)
    else [s[0]] + ReplaceAll(s[1..], pattern, replacement)
  }

  lemma {:induction false} ReplaceAllAbsent(s: string, pattern: string, replacement: string)
    requires |pattern| > 0 && !Contains(s, pattern)
    ensures ReplaceAll(s, pattern, replacement) == s
    decreases |s|
  {
    if |s| >= |pattern| {
      assert !OccursAt(s, pattern, 0);
      assert !Contains(s[1..], pattern) by {
        forall i | 0 <= i <= |s[1..]| ensures !OccursAt(s[1..], pattern, i) {
          if OccursAt(s[1..], pattern, i) {
            assert s[1..][i..i + |pattern|] == s[i + 1..i + 1 + |pattern|];
            assert OccursAt(s, pattern, i + 1);
          }
        }
      }
      ReplaceAllAbsent(s[1..], pattern, replacement);
    }
  }

  lemma {:induction false} ReplaceAllNoNewline(s: string, pattern: string, replacement: string)
    requires |pattern| > 0 && '\n' !in s && '\n' !in replacement
    ensures '\n' !in ReplaceAll(s, pattern, replacement)
    decreases |s|
  {
    if |s| >= |pattern| {
      if s[..|pattern|] == pattern {
        ReplaceAllNoNewline(s[|pattern|..], pattern, replacement);
      } else {
        ReplaceAllNoNewline(s[1..], pattern, replacement);
      }
    }
  }

  /** `s.split("\n")`: never empty, one more piece than there are newlines. */
  function SplitNewlines(s: string): (r: seq<string>)
    ensures |r| >= 1
    ensures forall k :: 0 <= k < |r| ==> '\n' !in r[k]
  {
    if |s| == 0 then [""]
    else
      var rest := SplitNewlines(s[1..]);
      if s[0] == '\n' then [""] + rest
      else [[s[0]] + rest[0]] + rest[1..]
  }

  /** `"\n".join(lines)`. */
  function JoinNewlines(lines: seq<string>): string {
    if |lines| == 0 then ""
    else if |lines| == 1 then lines[0]
    else lines[0] + "\n" + JoinNewlines(lines[1..])
  }

  lemma {:induction false} JoinSplit(s: string)
    ensures JoinNewlines(SplitNewlines(s)) == s
  {
    if |s| > 0 {
      var rest := SplitNewlines(s[1..]);
      JoinSplit(s[1..]);
      if s[0] == '\n' {
        assert ([""] + rest)[1..] == rest;
        assert s == "\n" + s[1..];
      } else if |rest| == 1 {
        assert s == [s[0]] + s[1..];
      } else {
        var r := [[s[0]] + rest[0]] + rest[1..];
        assert r[1..] == rest[1..];
        assert JoinNewlines(rest) == rest[0] + "\n" + JoinNewlines(rest[1..]);
        assert s == [s[0]] + s[1..];
      }
    }
  }

  lemma {:induction false} SplitNoNewline(a: string)
    requires '\n' !in a
    ensures SplitNewlines(a) == [a]
  {
    if |a| > 0 {
      SplitNoNewline(a[1..]);
      assert a == [a[0]] + a[1..];
    }
  }

  lemma {:induction false} SplitAfterLine(a: string, b: string)
    requires '\n' !in a
    ensures SplitNewlines(a + "\n" + b) == [a] + SplitNewlines(b)
  {
    var s := a + "\n" + b;
    if |a| == 0 {
      assert s[1..] == b;
    } else {
      assert s[1..] == a[1..] + "\n" + b;
      SplitAfterLine(a[1..], b);
      assert [a[0]] + a[1..] == a;
    }
  }

  lemma {:induction false} SplitJoin(lines: seq<string>)
    requires |lines| >= 1 && forall k :: 0 <= k < |lines| ==> '\n' !in lines[k]
    ensures SplitNewlines(JoinNewlines(lines)) == lines
  {
    if |lines| == 1 {
      SplitNoNewline(lines[0]);
    } else {
      SplitJoin(lines[1..]);
      SplitAfterLine(lines[0], JoinNewlines(lines[1..]));
      assert [lines[0]] + lines[1..] == lines;
    }
  }

  const SpaceForm: string := "found character '       '"
  const TabForm: string := "found character '\t'"

  /** The index of the first line containing the tab form, if any. */
  function FirstTabLine(lines: seq<string>): (r: Option<nat>)
    ensures r.Some? ==>
      (r.value < |lines| && Contains(lines[r.value], TabForm)
       && forall k :: 0 <= k < r.value ==> !Contains(lines[k], TabForm))
    ensures r.None? ==> forall k :: 0 <= k < |lines| ==> !Contains(lines[k], TabForm)
  {
    if |lines| == 0 then None
    else if Contains(lines[0], TabForm) then Some(0)
    else match FirstTabLine(lines[1..])
      case None => None
      case Some(k) => Some(k + 1)
  }

  /** The loop over `enumerate(lines)`: a copy of the first tab line, with the tab
      written as seven spaces, goes in front of it. */
  function DuplicateTabLine(lines: seq<string>): seq<string> {
    match FirstTabLine(lines)
    case None => lines
    case Some(i) => lines[..i] + [ReplaceAll(lines[i], "'\t'", "'       '")] + lines[i..]
  }

  /** The rewriting of a `MarkedYAMLError` message in `__parse_by_file_type`. */
  function NormalizeYamlMessage(m: string): string {
    if Contains(m, "found character") && Contains(m, "that cannot start any token") then
      var m1 := ReplaceAll(m, SpaceForm, TabForm);
      if Contains(m1, TabForm) then JoinNewlines(DuplicateTabLine(SplitNewlines(m1))) else m1
    else m
  }

  /** Any other message is passed on as it is. */
  lemma NormalizeOtherMessages(m: string)
    requires !Contains(m, "found character") || !Contains(m, "that cannot start any token")
    ensures NormalizeYamlMessage(m) == m
  {
  }

  /** A message that already writes the tab and nowhere the seven spaces gains exactly
      one line, the spaced copy, right in front of the first line with the tab. */
  lemma NormalizeDuplicatesTabLine(m: string)
    requires Contains(m, "found character") && Contains(m, "that cannot start any token")
    requires Contains(m, TabForm) && !Contains(m, SpaceForm)
    ensures FirstTabLine(SplitNewlines(m)).Some?
    ensures var lines := SplitNewlines(m);
      var out := SplitNewlines(NormalizeYamlMessage(m));
      var i := FirstTabLine(lines).value;
      && |out| == |lines| + 1
      && out[..i] == lines[..i] && out[i + 1..] == lines[i..]
      && out[i] == ReplaceAll(lines[i], "'\t'", "'       '")
  {
    ReplaceAllAbsent(m, SpaceForm, TabForm);
    var lines := SplitNewlines(m);
    JoinSplit(m);
    assert FirstTabLine(lines).Some? by {
      if FirstTabLine(lines).None? {
        NoTabLineNoTab(lines);
        assert false;
      }
    }
    assert NormalizeYamlMessage(m) == JoinNewlines(DuplicateTabLine(lines));
    DuplicateTabLineSplits(lines);
  }

  /** The line list with the copy inserted reads back as the same list once joined. */
  lemma DuplicateTabLineSplits(lines: seq<string>)
    requires forall k :: 0 <= k < |lines| ==> '\n' !in lines[k]
    requires FirstTabLine(lines).Some?
    ensures var i := FirstTabLine(lines).value;
      SplitNewlines(JoinNewlines(DuplicateTabLine(lines)))
        == lines[..i] + [ReplaceAll(lines[i], "'\t'", "'       '")] + lines[i..]
  {
    var i := FirstTabLine(lines).value;
    var copy := ReplaceAll(lines[i], "'\t'", "'       '");
    ReplaceAllNoNewline(lines[i], "'\t'", "'       '");
    var d := lines[..i] + [copy] + lines[i..];
    assert DuplicateTabLine(lines) == d;
    InsertedNoNewline(lines, i, copy);
    SplitJoin(d);
  }

  lemma InsertedNoNewline(lines: seq<string>, i: nat, x: string)
    requires i <= |lines| && '\n' !in x
    requires forall k :: 0 <= k < |lines| ==> '\n' !in lines[k]
    ensures var d := lines[..i] + [x] + lines[i..];
      forall k :: 0 <= k < |d| ==> '\n' !in d[k]
  {
    var d := lines[..i] + [x] + lines[i..];
    forall k | 0 <= k < |d| ensures '\n' !in d[k] {
      if k < i {
        assert d[k] == lines[k];
      } else if k > i {
        assert d[k] == lines[k - 1];
      }
    }
  }

  /** If no line holds the tab form, neither does their join. */
  lemma {:induction false} NoTabLineNoTab(lines: seq<string>)
    requires forall k :: 0 <= k < |lines| ==> '\n' !in lines[k] && !Contains(lines[k], TabForm)
    ensures !Contains(JoinNewlines(lines), TabForm)
  {
    if |lines| > 1 {
      NoTabLineNoTab(lines[1..]);
      var a := lines[0];
      var b := JoinNewlines(lines[1..]);
      var s := a + "\n" + b;
      forall p | 0 <= p <= |s| ensures !OccursAt(s, TabForm, p) {
        if p + |TabForm| <= |a| {
          assert s[p..p + |TabForm|] == a[p..p + |TabForm|];
          assert !OccursAt(a, TabForm, p);
        } else if |a| < p <= |s| - |TabForm| {
          assert s[p..p + |TabForm|] == b[p - |a| - 1..p - |a| - 1 + |TabForm|];
          assert !OccursAt(b, TabForm, p - |a| - 1);
        } else if p <= |s| - |TabForm| {
          assert s[p..p + |TabForm|][|a| - p] == s[|a|];
        }
      }
    }
  }

  // ---------------------------------------------------------------------------
  // Parsing by file type

  /** A cell of a table whose columns all hold objects, as `row.to_dict()` gives it: the
      stored value, or the float NaN for a missing cell. */
  function CellValue(c: Cell): Value {
    match c
    case Missing => Float(NotANumber)
    case Present(v) => v
  }

  function RowValue(row: map<string, Cell>): Value {
    DictValue(map k | k in row :: CellValue(row[k]))
  }

  /** Some column holds a text cell, so its dtype is `object`, and so is the common
      dtype `iterrows` gives every row. */
  predicate HasTextColumn(t: CsvTable) {
    exists i, k :: 0 <= i < |t| && k in t[i] && t[i][k].Present? && t[i][k].value.Str?
  }

  /** What pandas promises of `row.to_dict()` on a table as read: the row's columns,
      NaN for a missing cell, and the stored value itself when the rows are objects. */
  ghost predicate RowOracle(csvRow: (CsvTable, nat) -> map<string, Value>) {
    && (forall t: CsvTable, i: nat :: i < |t| ==> csvRow(t, i).Keys == t[i].Keys)
    && (forall t: CsvTable, i: nat, k: string :: i < |t| && k in t[i] && t[i][k].Missing? ==>
          k in csvRow(t, i) && csvRow(t, i)[k] == Float(NotANumber))
    && (forall t: CsvTable, i: nat, k: string :: i < |t| && k in t[i] && HasTextColumn(t) ==>
          k in csvRow(t, i) && csvRow(t, i)[k] == CellValue(t[i][k]))
  }

  /** `__handle_csv_nan_values`: every missing cell becomes the fill text; without a
      fill text pandas refuses. */
  function FillNan(table: CsvTable, fillWith: Option<string>): (r: Result<CsvTable, string>)
    ensures fillWith.None? <==> r.Err?
    ensures r.Ok? ==>
      (|r.value| == |table| && forall i :: 0 <= i < |table| ==> r.value[i].Keys == table[i].Keys)
  {
    match fillWith
    case None => Err(FillValueMessage)
    case Some(s) =>
      Ok(seq(|table|, i requires 0 <= i < |table| =>
        map k | k in table[i] :: if table[i][k].Missing? then Present(Str(s)) else table[i][k]))
  }

  /** `__parse_csv_data`. Filling first casts every numeric column to `object`, so the
      rows keep their stored values; without filling pandas converts each row. */
  function ParseCsv(data: string, rowsName: string, fill: bool, fillWith: Option<string>,
                    csv: string -> Result<CsvTable, string>,
                    csvRow: (CsvTable, nat) -> map<string, Value>): Result<map<string, Value>, string>
  {
    if |rowsName| < 1 then Err(RowsNameMessage)
    else match csv(data)
      case Err(m) => Err(m)
      case Ok(table) =>
        match FilledTable(table, fill, fillWith)
        case Err(m) => Err(m)
        case Ok(t) =>
          Ok(map[rowsName := ListValue(if fill then CsvRowValues(t) else ReadRowValues(t, csvRow))])
  }

  /** `[row.to_dict() for _, row in csv_data.iterrows()]` on a table of objects. */
  function CsvRowValues(t: CsvTable): (r: seq<Value>)
    ensures |r| == |t| && forall i :: 0 <= i < |t| ==> r[i] == RowValue(t[i])
  {
    seq(|t|, i requires 0 <= i < |t| => RowValue(t[i]))
  }

  /** The same list on the table as read, each row converted by pandas. */
  function ReadRowValues(t: CsvTable, csvRow: (CsvTable, nat) -> map<string, Value>): (r: seq<Value>)
    ensures |r| == |t| && forall i :: 0 <= i < |t| ==> r[i] == DictValue(csvRow(t, i))
  {
    seq(|t|, i requires 0 <= i < |t| => DictValue(csvRow(t, i)))
  }

  /** The table after the optional NaN filling. */
  function FilledTable(table: CsvTable, fill: bool, fillWith: Option<string>): Result<CsvTable, string> {
    if fill then FillNan(table, fillWith) else Ok(table)
  }

  /** Cell `k` of row `i` under the rows name of a parsed dictionary, if there is one. */
  function CellAt(d: map<string, Value>, rowsName: string, i: nat, k: string): Option<Value> {
    if rowsName in d && d[rowsName].ListValue? && i < |d[rowsName].items|
       && d[rowsName].items[i].DictValue? && k in d[rowsName].items[i].entries
    then Some(d[rowsName].items[i].entries[k])
    else None
  }

  /** `__parse_by_file_type`. */
  function ParseByFileType(ext: string, data: string, rowsName: string, fill: bool, fillWith: Option<string>,
                           p: Parsers): Result<map<string, Value>, string>
  {
    match ext
    case "toml" => p.toml(data)
    case "yaml" => ParseYaml(p.yaml(data))
    case "yml" => ParseYaml(p.yaml(data))
    case "csv" => ParseCsv(data, rowsName, fill, fillWith, p.csv, p.csvRow)
    case _ => Err("Unsupported file type: " + ext)
  }

  function ParseYaml(o: YamlOutcome): (r: Result<map<string, Value>, string>)
    ensures r.Ok? <==> o.YamlLoaded? && o.doc.DictValue?
    ensures r.Ok? ==> r.value == o.doc.entries
    ensures o.YamlLoaded? && !o.doc.DictValue? ==> r == Err(InvalidYamlMessage)
  {
    match o
    case YamlLoaded(DictValue(m)) => Ok(m)
    case YamlLoaded(_) => Err(InvalidYamlMessage)
    case YamlMarked(m) => Err(NormalizeYamlMessage(m))
    case YamlReader(m) => Err(m)
  }

  /** CSV data parses to a dictionary with the rows name as its only key, holding one
      entry per row of the table in file order, each with that row's columns. */
  lemma CsvWrapsRows(data: string, rowsName: string, fill: bool, fillWith: Option<string>,
                     csv: string -> Result<CsvTable, string>, csvRow: (CsvTable, nat) -> map<string, Value>)
    requires RowOracle(csvRow)
    requires ParseCsv(data, rowsName, fill, fillWith, csv, csvRow).Ok?
    ensures |rowsName| >= 1 && csv(data).Ok?
    ensures var d := ParseCsv(data, rowsName, fill, fillWith, csv, csvRow).value;
      var table := csv(data).value;
      && d.Keys == {rowsName} && d[rowsName].ListValue?
      && |d[rowsName].items| == |table|
      && forall i :: 0 <= i < |table| ==>
           d[rowsName].items[i].DictValue? && d[rowsName].items[i].entries.Keys == table[i].Keys
  {
    var table := csv(data).value;
    var t := FilledTable(table, fill, fillWith).value;
    var d := ParseCsv(data, rowsName, fill, fillWith, csv, csvRow).value;
    if fill {
      assert d == map[rowsName := ListValue(CsvRowValues(t))];
    } else {
      assert d == map[rowsName := ListValue(ReadRowValues(table, csvRow))];
    }
  }

  /** An empty rows name is refused before the data is read. */
  lemma CsvEmptyRowsName(data: string, fill: bool, fillWith: Option<string>, csv: string -> Result<CsvTable, string>,
                         csvRow: (CsvTable, nat) -> map<string, Value>)
    ensures ParseCsv(data, "", fill, fillWith, csv, csvRow) == Err(RowsNameMessage)
  {
  }

  /** Filling happens exactly when it is enabled: without it a missing cell stays NaN,
      with it the cell holds the fill text. */
  lemma CsvMissingCell(data: string, rowsName: string, fill: bool, fillWith: Option<string>,
                       csv: string -> Result<CsvTable, string>, csvRow: (CsvTable, nat) -> map<string, Value>,
                       i: nat, k: string)
    requires RowOracle(csvRow)
    requires ParseCsv(data, rowsName, fill, fillWith, csv, csvRow).Ok?
    requires csv(data).Ok? && i < |csv(data).value| && k in csv(data).value[i] && csv(data).value[i][k].Missing?
    ensures !fill ==> CellAt(ParseCsv(data, rowsName, fill, fillWith, csv, csvRow).value, rowsName, i, k) == Some(Float(NotANumber))
    ensures fill ==>
      (fillWith.Some? && CellAt(ParseCsv(data, rowsName, fill, fillWith, csv, csvRow).value, rowsName, i, k) == Some(Str(fillWith.value)))
  {
    var table := csv(data).value;
    var t := FilledTable(table, fill, fillWith).value;
    var d := ParseCsv(data, rowsName, fill, fillWith, csv, csvRow).value;
    if fill {
      assert d == map[rowsName := ListValue(CsvRowValues(t))];
      assert k in t[i];
      assert d[rowsName].items[i] == RowValue(t[i]);
      assert RowValue(t[i]).entries[k] == CellValue(t[i][k]);
    } else {
      assert d == map[rowsName := ListValue(ReadRowValues(table, csvRow))];
      assert d[rowsName].items[i] == DictValue(csvRow(table, i));
    }
  }

  /** After filling, the numeric columns are objects, so a present cell passes through
      with its stored value and type. */
  lemma CsvPresentCellFilled(data: string, rowsName: string, fillWith: Option<string>,
                             csv: string -> Result<CsvTable, string>, csvRow: (CsvTable, nat) -> map<string, Value>,
                             i: nat, k: string)
    requires ParseCsv(data, rowsName, true, fillWith, csv, csvRow).Ok?
    requires csv(data).Ok? && i < |csv(data).value| && k in csv(data).value[i] && csv(data).value[i][k].Present?
    ensures CellAt(ParseCsv(data, rowsName, true, fillWith, csv, csvRow).value, rowsName, i, k)
      == Some(csv(data).value[i][k].value)
  {
    var table := csv(data).value;
    var t := FilledTable(table, true, fillWith).value;
    var d := ParseCsv(data, rowsName, true, fillWith, csv, csvRow).value;
    assert d == map[rowsName := ListValue(CsvRowValues(t))];
    assert k in t[i];
    assert t[i][k] == table[i][k];
    assert d[rowsName].items[i] == RowValue(t[i]);
    assert RowValue(t[i]).entries[k] == CellValue(t[i][k]);
  }

  /** Without filling, a present cell passes through when a text column makes every row
      an object row; in an all-numeric table pandas decides the row's dtype. */
  lemma CsvPresentCell(data: string, rowsName: string, fill: bool, fillWith: Option<string>,
                       csv: string -> Result<CsvTable, string>, csvRow: (CsvTable, nat) -> map<string, Value>,
                       i: nat, k: string)
    requires RowOracle(csvRow)
    requires ParseCsv(data, rowsName, fill, fillWith, csv, csvRow).Ok?
    requires csv(data).Ok? && i < |csv(data).value| && k in csv(data).value[i] && csv(data).value[i][k].Present?
    ensures fill || HasTextColumn(csv(data).value) ==>
      CellAt(ParseCsv(data, rowsName, fill, fillWith, csv, csvRow).value, rowsName, i, k) == Some(csv(data).value[i][k].value)
    ensures !fill ==>
      CellAt(ParseCsv(data, rowsName, fill, fillWith, csv, csvRow).value, rowsName, i, k) == Some(csvRow(csv(data).value, i)[k])
  {
    var table := csv(data).value;
    if fill {
      CsvPresentCellFilled(data, rowsName, fillWith, csv, csvRow, i, k);
    } else {
      var d := ParseCsv(data, rowsName, fill, fillWith, csv, csvRow).value;
      assert d == map[rowsName := ListValue(ReadRowValues(table, csvRow))];
      assert d[rowsName].items[i] == DictValue(csvRow(table, i));
      assert k in csvRow(table, i);
    }
  }

  // ---------------------------------------------------------------------------
  // The memory message

  /** Rounding `a / d` to a whole number, ties to even, as `format(x, ".2f")` does on
      an exactly representable `x`. */
  function RoundHalfEven(a: nat, d: nat): (h: nat)
    requires d > 0
    ensures 2 * (h * d - a) <= d && 2 * (a - h * d) <= d
  {
    var q := a / d;
    var r := a % d;
    assert a == q * d + r;
    assert (q + 1) * d == q * d + d;
    if 2 * r > d || (2 * r == d && q % 2 == 1) then q + 1 else q
  }

  /** `f"{n / d:.2f}"` for a size below 2^53, where the quotient by a power of two is
      exact. */
  function TwoDecimals(n: nat, d: nat): string
    requires d > 0
  {
    var h := RoundHalfEven(n * 100, d);
    NatToString(h / 100) + "." + [DigitChar(h % 100 / 10), DigitChar(h % 10)]
  }

  function MemoryMessage(size: nat): string {
    "Memory consumption exceeds the maximum limit of 150MB (actual: " + TwoDecimals(size, 1048576) + "MB)"
  }

  /** One byte over the limit still reads as 150.00MB. */
  lemma MemoryMessageAtLimit()
    ensures MemoryMessage(MaxMemorySize + 1) == "Memory consumption exceeds the maximum limit of 150MB (actual: 150.00MB)"
  {
    assert RoundHalfEven((MaxMemorySize + 1) * 100, 1048576) == 15000;
    assert NatToString(150) == "150";
  }

  /** The limit checks of `_validate_memory_size`. */
  function MemoryVerdict(size: nat): (r: Option<string>)
    ensures r.None? <==> size <= MaxMemorySize
    ensures r.Some? ==> r.value == MemoryMessage(size)
  {
    if size > MaxMemorySize then Some(MemoryMessage(size)) else None
  }

  // ---------------------------------------------------------------------------
  // Construction

  /** What the constructor leaves behind. */
  datatype Intake = Intake(extension: string, configData: Option<string>, error: Option<string>)

  /** The constructor's checks in order: size, name, extension, UTF-8 of what is read
      from the current position. */
  function IntakeOf(data: Bytes, pos: nat, name: Option<string>, decode: Bytes -> Result<string, string>): (r: Intake)
    ensures r.configData.Some? <==> r.error.None?
    ensures r.configData.Some? ==> r.extension in SupportedExtensions
  {
    if |data| > MaxFileSize then Intake("", None, Some(SizeMessage))
    else match name
      case None => Intake("", None, Some(NoNameMessage))
      case Some(n) =>
        var ext := Extension(n);
        if ext !in SupportedExtensions then Intake(ext, None, Some(UnsupportedMessage))
        else match decode(if pos <= |data| then data[pos..] else [])
          case Ok(s) => Intake(ext, Some(s), None)
          case Err(m) => Intake(ext, None, Some(m))
  }

  /** An oversized file is never read, so nothing can be parsed from it. */
  lemma OversizeNeverRead(data: Bytes, pos: nat, name: Option<string>, decode: Bytes -> Result<string, string>)
    requires |data| > MaxFileSize
    ensures IntakeOf(data, pos, name, decode) == Intake("", None, Some(SizeMessage))
  {
  }

  /** A file whose extension is not toml, yaml, yml or csv is refused by name alone. */
  lemma UnsupportedRefused(data: Bytes, pos: nat, n: string, decode: Bytes -> Result<string, string>)
    requires |data| <= MaxFileSize && Extension(n) !in SupportedExtensions
    ensures IntakeOf(data, pos, Some(n), decode).error == Some(UnsupportedMessage)
    ensures IntakeOf(data, pos, Some(n), decode).configData.None?
  {
  }

  /** `config.tar.gz` is refused by its last part, `gz`. */
  lemma LastPartDecides()
    ensures Extension("config.tar.gz") == "gz"
  {
    ExtensionAfterLastDot("config.tar", "gz");
  }

  /** The steps of `__initialize_from_file` and `__read_file_content` on an upload
      within the size limit: the name, the extension, then the decoded rest of the buffer
      from its position. */
  method ReadIntake(f: ByteStream, decode: Bytes -> Result<string, string>) returns (i: Intake)
    requires |f.data| <= MaxFileSize
    modifies f
    ensures i == IntakeOf(old(f.data), old(f.pos), old(f.name), decode)
    ensures f.data == old(f.data) && f.name == old(f.name)
  {
    if f.name.None? {
      return Intake("", None, Some(NoNameMessage));
    }
    var ext := Extension(f.name.value);
    if ext !in SupportedExtensions {
      return Intake(ext, None, Some(UnsupportedMessage));
    }
    var bytes := f.Read();
    match decode(bytes) {
      case Ok(s) => i := Intake(ext, Some(s), None);
      case Err(m) => i := Intake(ext, None, Some(m));
    }
  }

  class ConfigParser {
    const configFile: ByteStream
    const parsers: Parsers
    var fileExtension: string
    var configData: Option<string>
    var parsedDict: Option<map<string, Value>>
    var errorMessage: Option<string>
    var csvRowsName: string
    var isEnableFillNan: bool
    var fillNanWith: Option<string>

    /** Content is present only after a clean read of a supported file. */
    predicate Valid()
      reads this
    {
      configData.Some? ==> fileExtension in SupportedExtensions
    }

    /** `ConfigParser(config_file)`. */
    constructor (configFile: ByteStream, parsers: Parsers)
      modifies configFile
      ensures this.configFile == configFile && this.parsers == parsers
      ensures var i := IntakeOf(old(configFile.data), old(configFile.pos), old(configFile.name), parsers.decode);
        fileExtension == i.extension && configData == i.configData && errorMessage == i.error
      ensures parsedDict == None && csvRowsName == "csv_rows" && !isEnableFillNan && fillNanWith == None
      ensures configFile.data == old(configFile.data) && configFile.name == old(configFile.name)
      ensures Valid()
    {
      this.configFile := configFile;
      this.parsers := parsers;
      fileExtension := "";
      configData := None;
      parsedDict := None;
      errorMessage := None;
      csvRowsName := "csv_rows";
      isEnableFillNan := false;
      fillNanWith := None;
      new;
      var validator := new FileValidator(MaxFileSize);
      var size := validator.ValidateSize(configFile);
      if size.Err? {
        errorMessage := Some(SizeMessage);
        return;
      }
      InitializeFromFile();
    }

    /** `__initialize_from_file`, on a fresh object. */
    method InitializeFromFile()
      requires configData == None && errorMessage == None && fileExtension == ""
      requires |configFile.data| <= MaxFileSize
      modifies this, configFile
      ensures var i := IntakeOf(old(configFile.data), old(configFile.pos), old(configFile.name), parsers.decode);
        fileExtension == i.extension && configData == i.configData && errorMessage == i.error
      ensures parsedDict == old(parsedDict) && csvRowsName == old(csvRowsName)
      ensures isEnableFillNan == old(isEnableFillNan) && fillNanWith == old(fillNanWith)
      ensures configFile.data == old(configFile.data) && configFile.name == old(configFile.name)
      ensures Valid()
    {
      var i := ReadIntake(configFile, parsers.decode);
      fileExtension := i.extension;
      configData := i.configData;
      errorMessage := i.error;
    }

    /** `csv_rows_name = rows_name`. */
    method SetCsvRowsName(rowsName: string)
      requires Valid()
      modifies this
      ensures Valid()
      ensures csvRowsName == rowsName
      ensures fileExtension == old(fileExtension) && configData == old(configData) && parsedDict == old(parsedDict)
      ensures errorMessage == old(errorMessage) && isEnableFillNan == old(isEnableFillNan) && fillNanWith == old(fillNanWith)
    {
      csvRowsName := rowsName;
    }

    /** `enable_fill_nan = is_fillna`. */
    method SetEnableFillNan(isFillna: bool)
      requires Valid()
      modifies this
      ensures Valid()
      ensures isEnableFillNan == isFillna
      ensures fileExtension == old(fileExtension) && configData == old(configData) && parsedDict == old(parsedDict)
      ensures errorMessage == old(errorMessage) && csvRowsName == old(csvRowsName) && fillNanWith == old(fillNanWith)
    {
      isEnableFillNan := isFillna;
    }

    /** `fill_nan_with = fillna_value`. */
    method SetFillNanWith(fillnaValue: Option<string>)
      requires Valid()
      modifies this
      ensures Valid()
      ensures fillNanWith == fillnaValue
      ensures fileExtension == old(fileExtension) && configData == old(configData) && parsedDict == old(parsedDict)
      ensures errorMessage == old(errorMessage) && csvRowsName == old(csvRowsName) && isEnableFillNan == old(isEnableFillNan)
    {
      fillNanWith := fillnaValue;
    }

    /** `parse()`: without content nothing happens; otherwise the dictionary, or the
        parser's message with the dictionary cleared. */
    method Parse() returns (ok: bool)
      requires Valid()
      modifies this
      ensures Valid()
      ensures fileExtension == old(fileExtension) && configData == old(configData) && csvRowsName == old(csvRowsName)
      ensures isEnableFillNan == old(isEnableFillNan) && fillNanWith == old(fillNanWith)
      ensures configData.None? ==> !ok && parsedDict == old(parsedDict) && errorMessage == old(errorMessage)
      ensures configData.Some? ==>
        var r := ParseByFileType(fileExtension, configData.value, csvRowsName, isEnableFillNan, fillNanWith, parsers);
        && (ok <==> r.Ok?)
        && (r.Ok? ==> parsedDict == Some(r.value) && errorMessage == old(errorMessage))
        && (r.Err? ==> parsedDict == None && errorMessage == Some(r.error))
    {
      if configData.None? {
        return false;
      }
      var r := ParseByFileType(fileExtension, configData.value, csvRowsName, isEnableFillNan, fillNanWith, parsers);
      if r.Ok? {
        parsedDict := Some(r.value);
        return true;
      }
      errorMessage := Some(r.error);
      parsedDict := None;
      return false;
    }

    /** `_validate_memory_size` on a value measured by `sys.getsizeof`. */
    method ValidateMemorySize(obj: Value) returns (ok: bool)
      requires Valid()
      modifies this
      ensures Valid()
      ensures ok <==> MemoryVerdict(parsers.sizeOf(obj)).None?
      ensures errorMessage == if ok then old(errorMessage) else MemoryVerdict(parsers.sizeOf(obj))
      ensures fileExtension == old(fileExtension) && configData == old(configData) && parsedDict == old(parsedDict)
      ensures csvRowsName == old(csvRowsName) && isEnableFillNan == old(isEnableFillNan) && fillNanWith == old(fillNanWith)
    {
      var size := parsers.sizeOf(obj);
      if size > MaxMemorySize {
        errorMessage := Some(MemoryMessage(size));
        return false;
      }
      return true;
    }

    /** `parsed_dict`: the stored dictionary while it measures at most 150 MiB. */
    method ParsedDict() returns (r: Option<map<string, Value>>)
      requires Valid()
      modifies this
      ensures Valid()
      ensures fileExtension == old(fileExtension) && configData == old(configData) && parsedDict == old(parsedDict)
      ensures csvRowsName == old(csvRowsName) && isEnableFillNan == old(isEnableFillNan) && fillNanWith == old(fillNanWith)
      ensures parsedDict.None? ==> r.None? && errorMessage == old(errorMessage)
      ensures parsedDict.Some? ==>
        var v := MemoryVerdict(parsers.sizeOf(DictValue(parsedDict.value)));
        && (v.None? ==> r == parsedDict && errorMessage == old(errorMessage))
        && (v.Some? ==> r.None? && errorMessage == v)
    {
      if parsedDict.None? {
        return None;
      }
      var ok := ValidateMemorySize(DictValue(parsedDict.value));
      if !ok {
        return None;
      }
      return parsedDict;
    }

    /** `parsed_str`: the pretty-printed dictionary while it measures at most 150 MiB,
        otherwise the text "None". */
    method ParsedStr() returns (s: string)
      requires Valid()
      modifies this
      ensures Valid()
      ensures fileExtension == old(fileExtension) && configData == old(configData) && parsedDict == old(parsedDict)
      ensures csvRowsName == old(csvRowsName) && isEnableFillNan == old(isEnableFillNan) && fillNanWith == old(fillNanWith)
      ensures parsedDict.None? ==> s == "None" && errorMessage == old(errorMessage)
      ensures parsedDict.Some? ==>
        var text := parsers.pformat(parsedDict.value);
        var v := MemoryVerdict(parsers.sizeOf(Str(text)));
        && (v.None? ==> s == text && errorMessage == old(errorMessage))
        && (v.Some? ==> s == "None" && errorMessage == v)
    {
      if parsedDict.None? {
        return "None";
      }
      var text := parsers.pformat(parsedDict.value);
      var ok := ValidateMemorySize(Str(text));
      if !ok {
        return "None";
      }
      return text;
    }
  }

  /** A file over 30 MiB: the size error is recorded and `parse()` fails. */
  method OversizeFileNeverParses(file: ByteStream, p: Parsers) returns (ok: bool, message: Option<string>)
    modifies file
    ensures |old(file.data)| > MaxFileSize ==> !ok && message == Some(SizeMessage)
  {
    var parser := new ConfigParser(file, p);
    ok := parser.Parse();
    message := parser.errorMessage;
  }
}
