/**
 * BatteryCsvService: the two-phase CSV ingestion. `ParseCsvToDraft` registers an
 * upload (status NEW) and scans the stored file once for a row count and the highest
 * Cycle value; `ImportFromUploadToken` later re-reads the same stored file, keeps the
 * rows whose first four fields parse and writes them in batches of 2000, then marks
 * the upload USED (or FAILED on a read error). `ImportBatteryRecordsFromCsv` is the
 * older single-flush import of an uploaded file.
 *
 * A file is the sequence of lines the reader returns; the object store is the
 * `storage` map from a file key to what opening and reading that object yields.
 */
module BatteryCsv {
  import opened Wrappers
  import opened JavaText
  import opened Entities

  /** Records buffered before one saveAll. */
  const BatchSize: nat := 2000
  /** Fewer comma-separated fields than this makes the scanner retry with a tab. */
  const MinColumns: nat := 6

  /** What opening and reading a stored CSV yields. */
  datatype CsvSource =
    | Unavailable                                // opening the stream threw
    | Lines(lines: seq<string>, readFails: bool) // these lines, then end of file or an IOException

  /** Opening a stored object: a key the store does not hold fails like a broken stream. */
  function Open(storage: map<string, CsvSource>, key: string): CsvSource
  {
    if key in storage then storage[key] else Unavailable
  }

  // ================================================================ fields

  /**
   * splitColumns: the comma split if it has at least six fields, otherwise the tab split;
   * a null line has no fields.
   */
  function SplitColumns(line: Option<string>): seq<string>
  {
    match line
    case None => []
    case Some(l) =>
      var parts := JavaSplit(l, ',');
      if |parts| >= MinColumns then parts else JavaSplit(l, '\t')
  }

  /** The delimiter splitColumns settles on for a line. */
  function ChosenDelimiter(line: string): char
  {
    if |JavaSplit(line, ',')| >= MinColumns then ',' else '\t'
  }

  /**
   * The fields splitColumns returns are the pieces of the line around one delimiter,
   * the comma whenever it gives six fields or more and the tab otherwise: none of them
   * contains that delimiter, and gluing them back with it, plus the trailing delimiters
   * split dropped, gives the line again.
   */
  lemma SplitColumnsRoundTrip(line: string)
    ensures var r := SplitColumns(Some(line));
            var d := ChosenDelimiter(line);
            var p := Pieces(line, d);
            (d == ',' <==> |JavaSplit(line, ',')| >= MinColumns) &&
            (forall k :: 0 <= k < |r| ==> d !in r[k]) &&
            (r != [] ==> line == Join(r, d) + Chars(d, |p| - |r|)) &&
            (r == [] ==> line == Chars(d, |p| - 1))
  {
    var d := ChosenDelimiter(line);
    var r := SplitColumns(Some(line));
    assert r == JavaSplit(line, d);
    JavaSplitRoundTrip(line, d);
    JavaSplitAvoidsDelimiter(line, d);
  }

  /** A null line has no fields. */
  lemma SplitColumnsOfNull()
    ensures SplitColumns(None) == []
  {
  }

  /** parseIntOrNull: null and blank give null, anything else is Integer.parseInt of the trimmed text. */
  function ParseIntOrNull(s: Option<string>): Option<int>
  {
    match s
    case None => None
    case Some(str) =>
      var t := Trim(str);
      if t == [] then None else ParseInt32(t)
  }

  /** parseDoubleOrNull: null and blank give null, anything else is Double.parseDouble of the trimmed text. */
  function ParseDoubleOrNull(s: Option<string>): Option<real>
  {
    match s
    case None => None
    case Some(str) =>
      var t := Trim(str);
      if t == [] then None else ParseDouble(t)
  }

  /** Whitespace around a field does not matter: a padded printed int32 parses back to itself. */
  lemma ParseIntOrNullPadded(a: string, v: int, b: string)
    requires forall k :: 0 <= k < |a| ==> IsTrimmable(a[k])
    requires forall k :: 0 <= k < |b| ==> IsTrimmable(b[k])
    requires MinInt32 <= v <= MaxInt32
    ensures ParseIntOrNull(Some(a + IntToString(v) + b)) == Some(v)
  {
    var t := IntToString(v);
    IntToStringShape(v);
    TrimPadded(a, t, b);
    ParseIntRoundTrip(v);
  }

  /** The same for parseDoubleOrNull: a padded printed integer parses to that integer as a double. */
  lemma ParseDoubleOrNullPadded(a: string, v: int, b: string)
    requires forall k :: 0 <= k < |a| ==> IsTrimmable(a[k])
    requires forall k :: 0 <= k < |b| ==> IsTrimmable(b[k])
    ensures ParseDoubleOrNull(Some(a + IntToString(v) + b)) == Some(v as real)
  {
    var t := IntToString(v);
    IntToStringShape(v);
    TrimPadded(a, t, b);
    ParseDoubleOfInteger(v);
  }

  // ================================================================ line scanner

  /** Which column splitter a scan uses. */
  datatype Splitter = CommaThenTab | CommaOnly

  function Columns(line: string, sp: Splitter): seq<string>
  {
    match sp
    case CommaThenTab => SplitColumns(Some(line))
    case CommaOnly => JavaSplit(line, ',')
  }

  /** The lines a scan keeps, in file order: every line trimmed, the blank ones dropped. */
  function NonBlankLines(lines: seq<string>): (r: seq<string>)
    ensures |r| <= |lines|
  {
    if lines == [] then []
    else
      var t := Trim(lines[|lines| - 1]);
      NonBlankLines(lines[..|lines| - 1]) + (if t == [] then [] else [t])
  }

  /** The fields of each of the given lines, in order. */
  function ColumnsOfEach(kept: seq<string>, sp: Splitter): (r: seq<seq<string>>)
    ensures |r| == |kept|
  {
    if kept == [] then []
    else ColumnsOfEach(kept[..|kept| - 1], sp) + [Columns(kept[|kept| - 1], sp)]
  }

  /** The data rows of a file: the fields of every kept line after the first (the header). */
  function DataRows(lines: seq<string>, sp: Splitter): (r: seq<seq<string>>)
  {
    var kept := NonBlankLines(lines);
    if kept == [] then [] else ColumnsOfEach(kept[1..], sp)
  }

  /** How the scan state moves on when one more line is read. */
  lemma DataRowsStep(lines: seq<string>, x: string, sp: Splitter)
    ensures NonBlankLines(lines + [x]) ==
              NonBlankLines(lines) + (if Trim(x) == [] then [] else [Trim(x)])
    ensures DataRows(lines + [x], sp) ==
              if Trim(x) == [] || NonBlankLines(lines) == [] then DataRows(lines, sp)
              else DataRows(lines, sp) + [Columns(Trim(x), sp)]
  {
    assert (lines + [x])[..|lines|] == lines;
    var kept := NonBlankLines(lines);
    assert NonBlankLines(lines + [x]) == kept + (if Trim(x) == [] then [] else [Trim(x)]);
    if Trim(x) == [] {
      assert kept + [] == kept;
    }
    if Trim(x) != [] && kept != [] {
      assert (kept + [Trim(x)])[1..] == kept[1..] + [Trim(x)];
      assert (kept[1..] + [Trim(x)])[..|kept| - 1] == kept[1..];
    }
    if Trim(x) != [] && kept == [] {
      assert NonBlankLines(lines + [x]) == [Trim(x)];
      assert [Trim(x)][1..] == [];
      assert DataRows(lines + [x], sp) == ColumnsOfEach([], sp) == [];
    }
  }

  lemma {:induction false} NonBlankLinesAppend(a: seq<string>, b: seq<string>)
    ensures NonBlankLines(a + b) == NonBlankLines(a) + NonBlankLines(b)
    decreases |b|
  {
    if b == [] {
      assert a + b == a;
    } else {
      var b' := b[..|b| - 1];
      NonBlankLinesAppend(a, b');
      assert (a + b)[..|a + b| - 1] == a + b';
      assert b[..|b| - 1] == b';
    }
  }

  /** Blank lines never count: removing one anywhere leaves the data rows as they were. */
  lemma BlankLinesIgnored(a: seq<string>, blank: string, c: seq<string>, sp: Splitter)
    requires IsBlank(blank)
    ensures DataRows(a + [blank] + c, sp) == DataRows(a + c, sp)
  {
    NonBlankLinesAppend(a + [blank], c);
    NonBlankLinesAppend(a, [blank]);
    NonBlankLinesAppend(a, c);
    assert NonBlankLines([blank]) == [] by { assert [blank][..0] == []; }
    assert NonBlankLines(a + [blank]) == NonBlankLines(a);
    assert NonBlankLines(a + [blank] + c) == NonBlankLines(a + c);
  }

  /** The first kept line is the header whatever it holds: rows are read by position, not by name. */
  lemma HeaderIgnored(h1: string, h2: string, rest: seq<string>, sp: Splitter)
    requires !IsBlank(h1) && !IsBlank(h2)
    ensures DataRows([h1] + rest, sp) == DataRows([h2] + rest, sp)
  {
    NonBlankLinesAppend([h1], rest);
    NonBlankLinesAppend([h2], rest);
    assert NonBlankLines([h1]) == [Trim(h1)] by { assert [h1][..0] == []; }
    assert NonBlankLines([h2]) == [Trim(h2)] by { assert [h2][..0] == []; }
    assert NonBlankLines([h1] + rest)[1..] == NonBlankLines(rest);
    assert NonBlankLines([h2] + rest)[1..] == NonBlankLines(rest);
  }

  // ================================================================ draft analyser

  /** The trimmed column names of a header line. */
  function TrimmedNames(cols: seq<string>): seq<string>
  {
    seq(|cols|, k requires 0 <= k < |cols| => Trim(cols[k]))
  }

  /**
   * The header map of parseCsvToDraft: column name to index, where a later column with
   * the same name overwrites an earlier one (HashMap.put).
   */
  function HeaderMap(names: seq<string>): map<string, int>
  {
    if names == [] then map[]
    else HeaderMap(names[..|names| - 1])[names[|names| - 1] := |names| - 1]
  }

  /**
   * Every column name is in the header map, and each name maps to the last column
   * carrying it.
   */
  lemma {:induction false} HeaderMapSpec(names: seq<string>)
    ensures forall k :: 0 <= k < |names| ==> names[k] in HeaderMap(names)
    ensures forall name :: name in HeaderMap(names) ==>
              var i := HeaderMap(names)[name];
              0 <= i < |names| && names[i] == name &&
              forall k :: i < k < |names| ==> names[k] != name
  {
    if names != [] {
      var init := names[..|names| - 1];
      HeaderMapSpec(init);
      assert forall k :: 0 <= k < |init| ==> names[k] == init[k];
    }
  }

  /** The header loop of parseCsvToDraft, putting every trimmed column name into the map. */
  method IndexHeader(parts: seq<string>) returns (headerIndex: map<string, int>)
    ensures headerIndex == HeaderMap(TrimmedNames(parts))
  {
    headerIndex := map[];
    ghost var names := TrimmedNames(parts);
    for i := 0 to |parts|
      invariant headerIndex == HeaderMap(names[..i])
    {
      assert names[..i + 1][..i] == names[..i];
      headerIndex := headerIndex[Trim(parts[i]) := i];
    }
    assert names[..|parts|] == names;
  }

  /** The index the header map gives the `Cycle` column, or -1 when the header has none. */
  function CycleColumnOf(header: seq<string>): int
  {
    var m := HeaderMap(TrimmedNames(header));
    if "Cycle" in m then m["Cycle"] else -1
  }

  /** The index of the `Cycle` column of a file, read from its first kept line. */
  function DraftCycleColumn(lines: seq<string>): int
  {
    var kept := NonBlankLines(lines);
    if kept == [] then -1 else CycleColumnOf(SplitColumns(Some(kept[0])))
  }

  lemma DraftCycleColumnStep(lines: seq<string>, x: string)
    ensures NonBlankLines(lines) != [] || Trim(x) == [] ==>
              DraftCycleColumn(lines + [x]) == DraftCycleColumn(lines)
    ensures NonBlankLines(lines) == [] && Trim(x) != [] ==>
              DraftCycleColumn(lines + [x]) == CycleColumnOf(SplitColumns(Some(Trim(x))))
  {
    DataRowsStep(lines, x, CommaThenTab);
  }

  /** The cycle value of one data row, if the column exists and its text parses as an int. */
  function CycleOf(parts: seq<string>, col: int): Option<int>
  {
    if 0 <= col < |parts| then ParseIntOrNull(Some(parts[col])) else None
  }

  function CycleEntry(parts: seq<string>, col: int): seq<int>
  {
    match CycleOf(parts, col) case Some(c) => [c] case None => []
  }

  /** The cycle values that parse, in row order; dirty and missing values are skipped. */
  function CycleValues(rows: seq<seq<string>>, col: int): (vs: seq<int>)
    ensures |vs| <= |rows|
  {
    if rows == [] then []
    else CycleValues(rows[..|rows| - 1], col) + CycleEntry(rows[|rows| - 1], col)
  }

  lemma CycleValuesStep(rows: seq<seq<string>>, parts: seq<string>, col: int)
    ensures CycleValues(rows + [parts], col) == CycleValues(rows, col) + CycleEntry(parts, col)
  {
    assert (rows + [parts])[..|rows|] == rows;
  }

  /** The high-water mark of a sequence: None for no values, else the largest value. */
  function MaxOf(s: seq<int>): (m: Option<int>)
    ensures m.None? <==> s == []
    ensures m.Some? ==> m.value in s && forall k :: 0 <= k < |s| ==> s[k] <= m.value
  {
    if s == [] then None
    else
      var v := s[|s| - 1];
      var init := s[..|s| - 1];
      assert s == init + [v];
      match MaxOf(init)
      case None => Some(v)
      case Some(best) => Some(if v > best then v else best)
  }

  lemma MaxOfStep(s: seq<int>, v: int)
    ensures MaxOf(s + [v]) ==
              Some(if MaxOf(s).None? || v > MaxOf(s).value then v else MaxOf(s).value)
  {
    assert (s + [v])[..|s|] == s;
  }

  /** A file whose header has no Cycle column yields no cycle values. */
  lemma {:induction false} NoCycleColumnNoValues(rows: seq<seq<string>>)
    ensures CycleValues(rows, -1) == []
  {
    if rows != [] { NoCycleColumnNoValues(rows[..|rows| - 1]); }
  }

  /** The cycle count the draft reports: the highest parsed Cycle, else `(int)` of the row count. */
  function DraftCycleCount(lines: seq<string>): int
  {
    var rows := DataRows(lines, CommaThenTab);
    match MaxOf(CycleValues(rows, DraftCycleColumn(lines)))
    case Some(m) => m
    case None => WrapInt32(|rows|)
  }

  /**
   * The draft's cycle count is the largest parsed Cycle value when one parsed; when none
   * did (the column is missing or every value is dirty) it falls back to the row count.
   */
  lemma DraftCycleCountSpec(lines: seq<string>)
    ensures var rows := DataRows(lines, CommaThenTab);
            var vs := CycleValues(rows, DraftCycleColumn(lines));
            (vs != [] ==> DraftCycleCount(lines) in vs &&
                          forall k :: 0 <= k < |vs| ==> vs[k] <= DraftCycleCount(lines)) &&
            (vs == [] ==> DraftCycleCount(lines) == WrapInt32(|rows|)) &&
            (DraftCycleColumn(lines) == -1 ==> DraftCycleCount(lines) == WrapInt32(|rows|))
  {
    NoCycleColumnNoValues(DataRows(lines, CommaThenTab));
  }

  /**
   * Rows whose Cycle fields read 3, 7, 2, 9 and one dirty value: the high-water mark is 9,
   * not the row count 5.
   */
  lemma HighWaterMarkExample(c3: string, c7: string, c2: string, c9: string, dirty: string)
    requires ParseIntOrNull(Some(c3)) == Some(3) && ParseIntOrNull(Some(c7)) == Some(7)
    requires ParseIntOrNull(Some(c2)) == Some(2) && ParseIntOrNull(Some(c9)) == Some(9)
    requires ParseIntOrNull(Some(dirty)) == None
    ensures MaxOf(CycleValues([[c3], [c7], [c2], [c9], [dirty]], 0)) == Some(9)
  {
    var r0: seq<seq<string>> := [];
    CycleValuesStep(r0, [c3], 0);
    CycleValuesStep(r0 + [[c3]], [c7], 0);
    CycleValuesStep(r0 + [[c3]] + [[c7]], [c2], 0);
    CycleValuesStep(r0 + [[c3]] + [[c7]] + [[c2]], [c9], 0);
    CycleValuesStep(r0 + [[c3]] + [[c7]] + [[c2]] + [[c9]], [dirty], 0);
    assert r0 + [[c3]] + [[c7]] + [[c2]] + [[c9]] + [[dirty]] == [[c3], [c7], [c2], [c9], [dirty]];
    assert CycleValues([[c3], [c7], [c2], [c9], [dirty]], 0) == [3, 7, 2, 9];
  }

  /** The variables of the draft scan after some prefix of the file. */
  datatype DraftState = DraftState(isFirstLine: bool, cycleCol: int, dataRowCount: nat, maxCycle: Option<int>)

  /** What reading one more line does to the draft scan's variables. */
  function DraftStep(st: DraftState, raw: string): DraftState
  {
    var line := Trim(raw);
    if line == [] then st
    else
      var parts := SplitColumns(Some(line));
      if st.isFirstLine then DraftState(false, CycleColumnOf(parts), st.dataRowCount, st.maxCycle)
      else
        var maxCycle := match CycleOf(parts, st.cycleCol)
          case None => st.maxCycle
          case Some(c) => if st.maxCycle.None? || c > st.maxCycle.value then Some(c) else st.maxCycle;
        DraftState(false, st.cycleCol, st.dataRowCount + 1, maxCycle)
  }

  /** The draft scan's variables after reading the given lines. */
  function DraftScan(lines: seq<string>): DraftState
  {
    if lines == [] then DraftState(true, -1, 0, None)
    else DraftStep(DraftScan(lines[..|lines| - 1]), lines[|lines| - 1])
  }

  /** Folding one more row into the running maximum of the cycle values. */
  lemma RunningMaxStep(rows: seq<seq<string>>, parts: seq<string>, col: int)
    ensures var m := MaxOf(CycleValues(rows, col));
            MaxOf(CycleValues(rows + [parts], col)) ==
              match CycleOf(parts, col)
              case None => m
              case Some(c) => if m.None? || c > m.value then Some(c) else m
  {
    CycleValuesStep(rows, parts, col);
    var vs := CycleValues(rows, col);
    match CycleOf(parts, col)
    case None =>
      assert CycleValues(rows + [parts], col) == vs;
    case Some(c) =>
      assert CycleValues(rows + [parts], col) == vs + [c];
      MaxOfStep(vs, c);
  }

  /** The draft scan has read the header exactly when a non-blank line was read. */
  lemma {:induction false} DraftScanHeader(lines: seq<string>)
    ensures DraftScan(lines).isFirstLine <==> NonBlankLines(lines) == []
    ensures DraftScan(lines).cycleCol == DraftCycleColumn(lines)
  {
    if lines != [] {
      var pre := lines[..|lines| - 1];
      var x := lines[|lines| - 1];
      assert lines == pre + [x];
      DraftScanHeader(pre);
      DraftCycleColumnStep(pre, x);
      DataRowsStep(pre, x, CommaThenTab);
    }
  }

  /**
   * The draft scan computes the declarative statistics: its row count is the number of
   * data rows, and its running maximum is the largest Cycle value that parsed.
   */
  lemma {:induction false} DraftScanSpec(lines: seq<string>)
    ensures DraftScan(lines).dataRowCount == |DataRows(lines, CommaThenTab)|
    ensures DraftScan(lines).maxCycle == MaxOf(CycleValues(DataRows(lines, CommaThenTab), DraftCycleColumn(lines)))
  {
    if lines != [] {
      var pre := lines[..|lines| - 1];
      var x := lines[|lines| - 1];
      assert lines == pre + [x];
      DraftScanSpec(pre);
      DraftScanHeader(pre);
      DataRowsStep(pre, x, CommaThenTab);
      DraftCycleColumnStep(pre, x);
      var rows := DataRows(pre, CommaThenTab);
      var col := DraftCycleColumn(pre);
      if Trim(x) != [] && NonBlankLines(pre) != [] {
        RunningMaxStep(rows, SplitColumns(Some(Trim(x))), col);
      }
    }
  }

  /**
   * The scan loop of parseCsvToDraft: counts every kept line after the header, valid or
   * not, and keeps the highest Cycle value that parses.
   */
  method AnalyzeDraft(lines: seq<string>) returns (dataRowCount: nat, maxCycle: Option<int>)
    ensures dataRowCount == |DataRows(lines, CommaThenTab)|
    ensures maxCycle == MaxOf(CycleValues(DataRows(lines, CommaThenTab), DraftCycleColumn(lines)))
  {
    var cycleCol := -1;
    dataRowCount := 0;
    maxCycle := None;
    var isFirstLine := true;
    var i := 0;
    while i < |lines|
      invariant 0 <= i <= |lines|
      invariant DraftState(isFirstLine, cycleCol, dataRowCount, maxCycle) == DraftScan(lines[..i])
      invariant isFirstLine ==> cycleCol == -1
    {
      assert lines[..i + 1][..i] == lines[..i];
      ghost var st := DraftScan(lines[..i]);
      assert DraftScan(lines[..i + 1]) == DraftStep(st, lines[i]);
      var line := Trim(lines[i]);
      if line != [] {
        var parts := SplitColumns(Some(line));
        if isFirstLine {
          isFirstLine := false;
          var headerIndex := IndexHeader(parts);
          if "Cycle" in headerIndex {
            cycleCol := headerIndex["Cycle"];
          }
          assert cycleCol == CycleColumnOf(parts);
          assert DraftStep(st, lines[i]) == DraftState(false, cycleCol, dataRowCount, maxCycle);
        } else {
          dataRowCount := dataRowCount + 1;
          var cycle: Option<int> := None;
          if 0 <= cycleCol < |parts| {
            var cycleStr := Trim(parts[cycleCol]);
            if cycleStr != [] {
              cycle := ParseInt32(cycleStr);
            }
          }
          assert cycle == CycleOf(parts, cycleCol);
          if cycle.Some? && (maxCycle.None? || cycle.value > maxCycle.value) {
            maxCycle := cycle;
          }
          assert DraftStep(st, lines[i]) == DraftState(false, cycleCol, dataRowCount, maxCycle);
        }
      } else {
        assert DraftStep(st, lines[i]) == st;
      }
      i := i + 1;
    }
    assert lines[..i] == lines;
    DraftScanSpec(lines);
    DraftScanHeader(lines);
  }

  /** The statistics parseCsvToDraft writes back: the data-row count and the cycle count. */
  method DraftStatistics(lines: seq<string>) returns (dataRowCount: nat, cycleCount: int)
    ensures dataRowCount == |DataRows(lines, CommaThenTab)|
    ensures cycleCount == DraftCycleCount(lines)
  {
    var maxCycle;
    dataRowCount, maxCycle := AnalyzeDraft(lines);
    if maxCycle.Some? {
      cycleCount := maxCycle.value;
    } else {
      cycleCount := WrapInt32(dataRowCount);
    }
  }

  // ================================================================ upload registry

  /** A row of `battery_csv_upload`: the lifecycle of one uploaded file. */
  class CsvUpload {
    var uploadToken: string
    var fileName: Option<string>
    var fileSize: int
    var contentType: Option<string>
    var fileKey: Option<string>
    var status: Option<string>
    var createdAt: int
    var usedAt: Option<int>
    var batteryId: Option<int>
    var rowCount: Option<int>
    var cycleCount: Option<int>

    /** A new registry row with status NEW and no statistics yet. */
    constructor (token: string, name: Option<string>, size: int, contentType: Option<string>,
                 key: string, now: int)
      ensures Row() == UploadRow(token, name, size, contentType, Some(key), Some("NEW"), now,
                                 None, None, None, None)
    {
      uploadToken := token;
      fileName := name;
      fileSize := size;
      this.contentType := contentType;
      fileKey := Some(key);
      status := Some("NEW");
      createdAt := now;
      usedAt := None;
      batteryId := None;
      rowCount := None;
      cycleCount := None;
    }

    /** The row's columns as one value. */
    function Row(): UploadRow
      reads this
    {
      UploadRow(uploadToken, fileName, fileSize, contentType, fileKey, status, createdAt,
                usedAt, batteryId, rowCount, cycleCount)
    }

    /** The draft statistics written back after the scan. */
    method RecordStatistics(rows: int, cycles: int)
      modifies this
      ensures Row() == old(Row()).(rowCount := Some(rows), cycleCount := Some(cycles))
    {
      rowCount := Some(rows);
      cycleCount := Some(cycles);
    }

    /** A successful import: status USED, the battery linked, the time and the row count set. */
    method MarkUsed(battery: int, now: int, count: int)
      modifies this
      ensures Row() == old(Row()).(status := Some("USED"), batteryId := Some(battery),
                                    usedAt := Some(now), rowCount := Some(count))
    {
      status := Some("USED");
      batteryId := Some(battery);
      usedAt := Some(now);
      rowCount := Some(count);
    }

    /** A broken-off import: status FAILED and nothing else. */
    method MarkFailed()
      modifies this
      ensures Row() == old(Row()).(status := Some("FAILED"))
    {
      status := Some("FAILED");
    }
  }

  /** The columns of a `battery_csv_upload` row. */
  datatype UploadRow = UploadRow(
    uploadToken: string, fileName: Option<string>, fileSize: int, contentType: Option<string>,
    fileKey: Option<string>, status: Option<string>, createdAt: int, usedAt: Option<int>,
    batteryId: Option<int>, rowCount: Option<int>, cycleCount: Option<int>)

  /** The upload table, looked up by token (findByUploadToken). */
  class UploadRepository {
    var byToken: map<string, CsvUpload>

    constructor ()
      ensures byToken == map[]
    {
      byToken := map[];
    }
  }

  /** The record table, in insertion order; `flushSizes` remembers the size of every saveAll. */
  class RecordRepository {
    var saved: seq<BatteryRecord>
    ghost var flushSizes: seq<nat>

    constructor ()
      ensures saved == [] && flushSizes == []
    {
      saved := [];
      flushSizes := [];
    }

    /** saveAll: appends the batch, in order, as one bulk write. */
    method SaveAll(batch: seq<BatteryRecord>)
      modifies this
      ensures saved == old(saved) + batch
      ensures flushSizes == old(flushSizes) + [|batch|]
    {
      saved := saved + batch;
      flushSizes := flushSizes + [|batch|];
    }
  }

  // ================================================================ draft

  /** The parts of a multipart upload the service reads. */
  datatype UploadedFile = UploadedFile(originalFilename: Option<string>, size: int, contentType: Option<string>)

  /** The draft returned to the client; its other fields are always null. */
  datatype Draft = Draft(cycleCount: int, lastRecordAt: int, uploadToken: string)

  datatype DraftError = EmptyFile | UploadFailed | DownloadFailed | DraftReadFailed

  /**
   * parseCsvToDraft: refuses an empty upload; stores the file (`storedKey` is the key the
   * object store returned, None when it threw), registers it with status NEW, scans the
   * stored copy once, and writes the row count and cycle count back to the registry row.
   * `uploadToken` is the freshly generated UUID and `now` the clock.
   */
  method ParseCsvToDraft(file: Option<UploadedFile>, uploadToken: string, storedKey: Option<string>,
                         storage: map<string, CsvSource>, now: int, uploads: UploadRepository)
    returns (r: Result<Draft, DraftError>)
    requires uploadToken !in uploads.byToken
    modifies uploads
    ensures file.None? || file.value.size == 0 ==>
              r == Err(EmptyFile) && uploads.byToken == old(uploads.byToken)
    ensures file.Some? && file.value.size != 0 && storedKey.None? ==>
              r == Err(UploadFailed) && uploads.byToken == old(uploads.byToken)
    ensures file.Some? && file.value.size != 0 && storedKey.Some? ==>
              uploadToken in uploads.byToken &&
              var entry := uploads.byToken[uploadToken];
              fresh(entry) &&
              uploads.byToken == old(uploads.byToken)[uploadToken := entry] &&
              var registered := UploadRow(uploadToken, file.value.originalFilename, file.value.size,
                                          file.value.contentType, storedKey, Some("NEW"), now,
                                          None, None, None, None);
              match Open(storage, storedKey.value)
              case Unavailable => r == Err(DownloadFailed) && entry.Row() == registered
              case Lines(lines, fails) =>
                if fails then r == Err(DraftReadFailed) && entry.Row() == registered
                else
                  r == Ok(Draft(DraftCycleCount(lines), now, uploadToken)) &&
                  entry.Row() == registered.(rowCount := Some(|DataRows(lines, CommaThenTab)|),
                                             cycleCount := Some(DraftCycleCount(lines)))
  {
    if file.None? || file.value.size == 0 {
      return Err(EmptyFile);
    }
    if storedKey.None? {
      return Err(UploadFailed);
    }
    var fileKey := storedKey.value;
    var upload := new CsvUpload(uploadToken, file.value.originalFilename, file.value.size,
                                file.value.contentType, fileKey, now);
    uploads.byToken := uploads.byToken[uploadToken := upload];

    var source := Open(storage, fileKey);
    if source.Unavailable? {
      return Err(DownloadFailed);
    }
    var dataRowCount, cycleCount := DraftStatistics(source.lines);
    if source.readFails {
      return Err(DraftReadFailed);
    }
    upload.RecordStatistics(dataRowCount, cycleCount);
    r := Ok(Draft(cycleCount, now, uploadToken));
  }

  // ================================================================ row acceptance

  /** What every record of one import shares: the battery, the source file name and the batch tag. */
  datatype RecordContext = RecordContext(batteryId: int, sourceFile: Option<string>, uploadBatch: Option<string>)

  /**
   * One data row as the importers read it: at least six fields, taken by position; the
   * row is kept only if cycle, time, voltage and current parse, while temp and capacity
   * may be null. The parsed voltage is checked but not stored (the entity has no field for it).
   */
  function AcceptRow(parts: seq<string>, ctx: RecordContext): Option<BatteryRecord>
  {
    if |parts| < MinColumns then None
    else
      var cycle := ParseIntOrNull(Some(parts[0]));
      var d := ParseDoubles(parts[1..MinColumns]);
      if cycle.None? || d[0].None? || d[1].None? || d[2].None? then None
      else Some(BatteryRecord(None, Some(ctx.batteryId), cycle.value, d[0].value, d[2].value,
                              d[3], d[4], ctx.sourceFile, ctx.uploadBatch))
  }

  /** parseDoubleOrNull of each field, in order: time, voltage, current, temperature, capacity. */
  function ParseDoubles(fields: seq<string>): (r: seq<Option<real>>)
    ensures |r| == |fields|
  {
    if fields == [] then []
    else ParseDoubles(fields[..|fields| - 1]) + [ParseDoubleOrNull(Some(fields[|fields| - 1]))]
  }

  lemma {:induction false} ParseDoublesIndex(fields: seq<string>)
    ensures forall k :: 0 <= k < |fields| ==> ParseDoubles(fields)[k] == ParseDoubleOrNull(Some(fields[k]))
  {
    if fields != [] {
      ParseDoublesIndex(fields[..|fields| - 1]);
    }
  }

  /**
   * A row is kept exactly when it has six fields or more and its cycle, time, voltage
   * and current fields parse; the temperature and capacity fields play no part.
   */
  lemma AcceptRowIff(parts: seq<string>, ctx: RecordContext)
    ensures AcceptRow(parts, ctx).Some? <==>
              |parts| >= MinColumns && ParseIntOrNull(Some(parts[0])).Some? &&
              ParseDoubleOrNull(Some(parts[1])).Some? && ParseDoubleOrNull(Some(parts[2])).Some? &&
              ParseDoubleOrNull(Some(parts[3])).Some?
  {
    if |parts| >= MinColumns {
      var f := parts[1..MinColumns];
      ParseDoublesIndex(f);
      assert f[0] == parts[1] && f[1] == parts[2] && f[2] == parts[3];
    }
  }

  /**
   * The fields of a kept row are taken by position: cycle from field 0, time from 1,
   * current from 3, and temperature and capacity from 4 and 5, each of which may be null.
   */
  lemma AcceptRowFields(parts: seq<string>, ctx: RecordContext)
    requires AcceptRow(parts, ctx).Some?
    ensures var r := AcceptRow(parts, ctx).value;
            |parts| >= MinColumns &&
            ParseIntOrNull(Some(parts[0])) == Some(r.cycle) &&
            ParseDoubleOrNull(Some(parts[1])) == Some(r.timeMin) &&
            ParseDoubleOrNull(Some(parts[3])) == Some(r.current) &&
            r.temp == ParseDoubleOrNull(Some(parts[4])) &&
            r.capacity == ParseDoubleOrNull(Some(parts[5]))
  {
    var f := parts[1..MinColumns];
    ParseDoublesIndex(f);
    assert f[0] == parts[1] && f[2] == parts[3] && f[3] == parts[4] && f[4] == parts[5];
  }

  /** Blanking the temperature and capacity fields of a kept row keeps it, with those two null. */
  lemma TempAndCapacityMayBeNull(parts: seq<string>, ctx: RecordContext)
    requires AcceptRow(parts, ctx).Some?
    ensures |parts| >= MinColumns &&
            AcceptRow(parts[4 := ""][5 := ""], ctx) == Some(AcceptRow(parts, ctx).value.(temp := None, capacity := None))
  {
    var blanked := parts[4 := ""][5 := ""];
    AcceptRowFields(parts, ctx);
    AcceptRowIff(parts, ctx);
    AcceptRowIff(blanked, ctx);
    assert blanked[0] == parts[0] && blanked[1] == parts[1] && blanked[2] == parts[2] && blanked[3] == parts[3];
    AcceptRowFields(blanked, ctx);
  }

  /** The records one data row contributes: its record when the row is accepted, else none. */
  function RowEntry(parts: seq<string>, ctx: RecordContext)
    : seq<BatteryRecord>
  {
    match AcceptRow(parts, ctx) case Some(rec) => [rec] case None => []
  }

  /** The records an import keeps from its data rows, in row order. */
  function Accepted(rows: seq<seq<string>>, ctx: RecordContext)
    : (r: seq<BatteryRecord>)
    ensures |r| <= |rows|
  {
    if rows == [] then []
    else Accepted(rows[..|rows| - 1], ctx) + RowEntry(rows[|rows| - 1], ctx)
  }

  /** The records one more raw line contributes: none for a blank line or the header. */
  function LineEntry(pre: seq<string>, x: string, sp: Splitter, ctx: RecordContext): seq<BatteryRecord>
  {
    if Trim(x) == [] || NonBlankLines(pre) == [] then []
    else RowEntry(Columns(Trim(x), sp), ctx)
  }

  lemma AcceptedLinesStep(pre: seq<string>, x: string, sp: Splitter, ctx: RecordContext)
    ensures Accepted(DataRows(pre + [x], sp), ctx) ==
              Accepted(DataRows(pre, sp), ctx) + LineEntry(pre, x, sp, ctx)
  {
    DataRowsStep(pre, x, sp);
    var rows := DataRows(pre, sp);
    if Trim(x) != [] && NonBlankLines(pre) != [] {
      var parts := Columns(Trim(x), sp);
      assert (rows + [parts])[..|rows|] == rows;
    }
  }

  /** The variables of an import's read loop: the header flag and every record accepted so far. */
  datatype ImportState = ImportState(isFirstLine: bool, accepted: seq<BatteryRecord>)

  /**
   * What one raw line yields to an import: a blank line nothing, the first non-blank
   * line clears the header flag, and every later line the record its row parses to, if any.
   */
  function LineResult(isFirstLine: bool, raw: string, sp: Splitter, ctx: RecordContext): (bool, Option<BatteryRecord>)
  {
    var line := Trim(raw);
    if line == [] then (isFirstLine, None)
    else if isFirstLine then (false, None)
    else (false, AcceptRow(Columns(line, sp), ctx))
  }

  /** The records a line's result adds: its record, if it has one. */
  function Entry(record: Option<BatteryRecord>): seq<BatteryRecord>
  {
    match record case Some(r) => [r] case None => []
  }

  /** What reading one more line does to an import's read loop. */
  function ImportStep(st: ImportState, raw: string, sp: Splitter, ctx: RecordContext): ImportState
  {
    var res := LineResult(st.isFirstLine, raw, sp, ctx);
    ImportState(res.0, st.accepted + Entry(res.1))
  }

  /**
   * The line handling of both importers' read loops: trims line i, skips it when blank,
   * takes the first kept line as the header, and otherwise splits and parses it.
   */
  method ReadLine(lines: seq<string>, i: nat, sp: Splitter, ctx: RecordContext,
                  isFirstLine: bool, ghost accepted: seq<BatteryRecord>)
    returns (stillFirst: bool, record: Option<BatteryRecord>)
    requires i < |lines|
    requires ImportState(isFirstLine, accepted) == ImportScanAt(lines, i, sp, ctx)
    ensures ImportScanAt(lines, i + 1, sp, ctx) ==
              ImportState(stillFirst, if record.Some? then accepted + [record.value] else accepted)
  {
    var raw := lines[i];
    stillFirst, record := isFirstLine, None;
    var line := Trim(raw);
    if line != [] {
      var parts := if sp == CommaThenTab then SplitColumns(Some(line)) else JavaSplit(line, ',');
      if isFirstLine {
        stillFirst := false;
      } else {
        stillFirst := false;
        record := ParseRecord(parts, ctx);
      }
    }
    assert LineResult(isFirstLine, raw, sp, ctx) == (stillFirst, record);
    ImportStepAt(lines, i, sp, ctx);
  }

  /**
   * An import's read-loop variables after reading the first i lines: still before the
   * header exactly while those lines are all blank, and the accepted data rows among them.
   */
  function ImportScanAt(lines: seq<string>, i: nat, sp: Splitter, ctx: RecordContext): ImportState
    requires i <= |lines|
  {
    ImportState(NonBlankLines(lines[..i]) == [], Accepted(DataRows(lines[..i], sp), ctx))
  }

  /** Reading one more line takes the scan of the lines before it to the scan of them all. */
  lemma ImportStepSpec(pre: seq<string>, x: string, sp: Splitter, ctx: RecordContext)
    ensures ImportStep(ImportState(NonBlankLines(pre) == [], Accepted(DataRows(pre, sp), ctx)), x, sp, ctx) ==
              ImportState(NonBlankLines(pre + [x]) == [], Accepted(DataRows(pre + [x], sp), ctx))
  {
    DataRowsStep(pre, x, sp);
    AcceptedLinesStep(pre, x, sp, ctx);
  }

  /** The loop step on a file: line i takes the scan of the first i lines to that of the first i + 1. */
  lemma ImportStepAt(lines: seq<string>, i: nat, sp: Splitter, ctx: RecordContext)
    requires i < |lines|
    ensures ImportStep(ImportScanAt(lines, i, sp, ctx), lines[i], sp, ctx) == ImportScanAt(lines, i + 1, sp, ctx)
  {
    assert lines[..i + 1] == lines[..i] + [lines[i]];
    ImportStepSpec(lines[..i], lines[i], sp, ctx);
  }

  /** After its last line the read loop has accepted exactly the accepted data rows. */
  lemma ImportScanComplete(lines: seq<string>, sp: Splitter, ctx: RecordContext)
    ensures ImportScanAt(lines, |lines|, sp, ctx) ==
              ImportState(NonBlankLines(lines) == [], Accepted(DataRows(lines, sp), ctx))
  {
    assert lines[..|lines|] == lines;
  }

  /**
   * Every imported record belongs to the importing battery, carries the import's file
   * name and batch tag, and has a time, a current and a 32-bit cycle.
   */
  lemma {:induction false} AcceptedRecordsBelong(rows: seq<seq<string>>, ctx: RecordContext)
    ensures forall k :: 0 <= k < |Accepted(rows, ctx)| ==>
              var rec := Accepted(rows, ctx)[k];
              rec.batteryId == Some(ctx.batteryId) && rec.id == None &&
              rec.sourceFile == ctx.sourceFile && rec.uploadBatch == ctx.uploadBatch &&
              MinInt32 <= rec.cycle <= MaxInt32
  {
    if rows != [] {
      AcceptedRecordsBelong(rows[..|rows| - 1], ctx);
    }
  }

  /** A row with fewer than six fields is never imported, whatever the fields hold. */
  lemma {:induction false} ShortRowsSkipped(rows: seq<seq<string>>, ctx: RecordContext)
    requires forall k :: 0 <= k < |rows| ==> |rows[k]| < MinColumns
    ensures Accepted(rows, ctx) == []
  {
    if rows != [] {
      ShortRowsSkipped(rows[..|rows| - 1], ctx);
    }
  }

  // ================================================================ batching

  /** k copies of x. */
  function Repeat(x: nat, k: nat): (r: seq<nat>)
    ensures |r| == k
  {
    if k == 0 then [] else Repeat(x, k - 1) + [x]
  }

  lemma {:induction false} RepeatIndex(x: nat, k: nat)
    ensures forall i :: 0 <= i < k ==> Repeat(x, k)[i] == x
  {
    if k > 0 {
      RepeatIndex(x, k - 1);
    }
  }

  function Sum(s: seq<nat>): nat
  {
    if s == [] then 0 else Sum(s[..|s| - 1]) + s[|s| - 1]
  }

  lemma {:induction false} SumAppend(a: seq<nat>, b: seq<nat>)
    ensures Sum(a + b) == Sum(a) + Sum(b)
    decreases |b|
  {
    if b == [] {
      assert a + b == a;
    } else {
      SumAppend(a, b[..|b| - 1]);
      assert (a + b)[..|a + b| - 1] == a + b[..|b| - 1];
    }
  }

  lemma {:induction false} SumRepeat(x: nat, k: nat)
    ensures Sum(Repeat(x, k)) == x * k
  {
    if k > 0 {
      SumRepeat(x, k - 1);
      assert Repeat(x, k)[..k - 1] == Repeat(x, k - 1);
    }
  }

  /**
   * n accepted rows as the import's buffer sees them: the number of full buffers of 2000
   * it has written and the number of rows left over in the buffer.
   */
  function BatchSplit(n: nat): (r: (nat, nat))
    ensures r.1 < BatchSize && r.1 <= n
  {
    if n < BatchSize then (0, n)
    else
      var rest := BatchSplit(n - BatchSize);
      (rest.0 + 1, rest.1)
  }

  /** One more accepted row fills the buffer by one, or completes a batch and empties it. */
  lemma {:induction false} BatchSplitStep(n: nat)
    ensures BatchSplit(n + 1) ==
              if BatchSplit(n).1 + 1 < BatchSize then (BatchSplit(n).0, BatchSplit(n).1 + 1)
              else (BatchSplit(n).0 + 1, 0)
  {
    if n >= BatchSize {
      BatchSplitStep(n - BatchSize);
    } else if n + 1 == BatchSize {
      assert BatchSplit(0) == (0, 0);
    }
  }

  /** The buffer split is the quotient and remainder of the row count by 2000. */
  lemma {:induction false} BatchSplitDivMod(n: nat)
    ensures BatchSplit(n).0 * BatchSize + BatchSplit(n).1 == n
    ensures BatchSplit(n) == (n / BatchSize, n % BatchSize)
  {
    if n >= BatchSize {
      BatchSplitDivMod(n - BatchSize);
    }
    var (b, p) := BatchSplit(n);
    BufferSplit(n, b, p);
  }

  /** A full buffer count plus a partial buffer: dividing by the batch size recovers both. */
  lemma BufferSplit(n: nat, batches: nat, pending: nat)
    requires pending < BatchSize && n == BatchSize * batches + pending
    ensures n / BatchSize == batches && n % BatchSize == pending
  {
  }

  /** The sizes of the saveAll calls an import of n accepted rows makes. */
  function BatchSizes(n: nat): seq<nat>
  {
    var (full, pending) := BatchSplit(n);
    Repeat(BatchSize, full) + (if pending == 0 then [] else [pending])
  }

  /**
   * The batches of an import add up to the accepted rows; every batch but the last holds
   * exactly 2000 records and the last holds between 1 and 2000; there are n / 2000
   * batches, rounded up.
   */
  lemma BatchSizesSpec(n: nat)
    ensures Sum(BatchSizes(n)) == n
    ensures forall k :: 0 <= k < |BatchSizes(n)| - 1 ==> BatchSizes(n)[k] == BatchSize
    ensures BatchSizes(n) != [] ==> 1 <= BatchSizes(n)[|BatchSizes(n)| - 1] <= BatchSize
    ensures |BatchSizes(n)| == (n + BatchSize - 1) / BatchSize
  {
    var (full, pending) := BatchSplit(n);
    BatchSplitDivMod(n);
    var tail: seq<nat> := if pending == 0 then [] else [pending];
    RepeatIndex(BatchSize, full);
    SumRepeat(BatchSize, full);
    SumAppend(Repeat(BatchSize, full), tail);
    assert Sum(tail) == pending by {
      if tail != [] { assert tail[..0] == []; }
    }
    if pending == 0 {
      BufferSplit(n + BatchSize - 1, full, BatchSize - 1);
    } else {
      BufferSplit(n + BatchSize - 1, full + 1, pending - 1);
    }
  }

  /** 4001 accepted rows are written as 2000, 2000 and 1. */
  lemma FlushBoundaryExample()
    ensures BatchSizes(4001) == [2000, 2000, 1]
  {
    assert BatchSplit(1) == (0, 1);
    assert BatchSplit(2001) == (1, 1);
    assert BatchSplit(4001) == (2, 1);
    assert Repeat(BatchSize, 2) == [2000, 2000] by {
      assert Repeat(BatchSize, 1) == [2000];
    }
  }

  lemma AppendAssoc<T>(a: seq<T>, b: seq<T>, c: seq<T>)
    ensures a + (b + c) == a + b + c
  {
  }

  lemma TakeAppend<T>(a: seq<T>, b: seq<T>)
    ensures (a + b)[..|a|] == a
  {
  }

  /**
   * The row-parsing block the importers share: the record a data row yields, or None
   * when the row is short or one of its first four fields does not parse.
   */
  method ParseRecord(parts: seq<string>, ctx: RecordContext)
    returns (record: Option<BatteryRecord>)
    ensures record == AcceptRow(parts, ctx)
  {
    if |parts| < MinColumns {
      return None;
    }
    var cycle := ParseIntOrNull(Some(parts[0]));
    var timeMin := ParseDoubleOrNull(Some(parts[1]));
    var voltage := ParseDoubleOrNull(Some(parts[2]));
    var current := ParseDoubleOrNull(Some(parts[3]));
    var temp := ParseDoubleOrNull(Some(parts[4]));
    var capacity := ParseDoubleOrNull(Some(parts[5]));
    ParseDoublesIndex(parts[1..MinColumns]);
    if cycle.None? || timeMin.None? || voltage.None? || current.None? {
      return None;
    }
    record := Some(BatteryRecord(None, Some(ctx.batteryId), cycle.value, timeMin.value, current.value,
                                 temp, capacity, ctx.sourceFile, ctx.uploadBatch));
  }

  // ================================================================ token import

  datatype ImportError =
    | MissingBatteryId | MissingToken | BatteryNotFound | UploadNotFound
    | StatusNotNew | MissingFileKey | StorageUnavailable | ImportReadFailed

  /** What the import guard reads from a registry row. */
  datatype UploadView = UploadView(status: Option<string>, fileKey: Option<string>)

  function Views(m: map<string, CsvUpload>): map<string, UploadView>
    reads m.Values
  {
    map t | t in m :: UploadView(m[t].status, m[t].fileKey)
  }

  /** The status check: a null status or NEW in any letter case lets an import through. */
  predicate StatusAllowsImport(status: Option<string>)
  {
    status.None? || EqualsIgnoreCase(status.value, "NEW")
  }

  /**
   * The checks importFromUploadToken makes, in order, before it touches the stored file;
   * Ok carries the file key to read.
   */
  function ImportGuard(batteryId: Option<int>, token: Option<string>, batteries: map<int, Battery>,
                       entries: map<string, UploadView>): (r: Result<string, ImportError>)
  {
    if batteryId.None? then Err(MissingBatteryId)
    else if token.None? || IsBlank(token.value) then Err(MissingToken)
    else if batteryId.value !in batteries then Err(BatteryNotFound)
    else if token.value !in entries then Err(UploadNotFound)
    else if !StatusAllowsImport(entries[token.value].status) then Err(StatusNotNew)
    else match entries[token.value].fileKey
      case None => Err(MissingFileKey)
      case Some(key) => if IsBlank(key) then Err(MissingFileKey) else Ok(key)
  }

  /**
   * The guard passes exactly when the battery id is given and known, the token is given,
   * non-blank and registered, the row's status is null or NEW in any case, and the row
   * has a non-blank file key, which is what it returns.
   */
  lemma ImportGuardPasses(batteryId: Option<int>, token: Option<string>, batteries: map<int, Battery>,
                          entries: map<string, UploadView>)
    ensures ImportGuard(batteryId, token, batteries, entries).Ok? <==>
              batteryId.Some? && batteryId.value in batteries &&
              token.Some? && !IsBlank(token.value) && token.value in entries &&
              StatusAllowsImport(entries[token.value].status) &&
              entries[token.value].fileKey.Some? && !IsBlank(entries[token.value].fileKey.value)
    ensures ImportGuard(batteryId, token, batteries, entries).Ok? ==>
              Some(ImportGuard(batteryId, token, batteries, entries).value) == entries[token.value].fileKey
  {
  }

  /** At most one import per token: a row already USED or FAILED is refused with a conflict. */
  lemma ImportAtMostOnce(batteryId: Option<int>, token: Option<string>, batteries: map<int, Battery>,
                         entries: map<string, UploadView>)
    requires batteryId.Some? && batteryId.value in batteries
    requires token.Some? && !IsBlank(token.value) && token.value in entries
    requires entries[token.value].status == Some("USED") || entries[token.value].status == Some("FAILED")
    ensures ImportGuard(batteryId, token, batteries, entries) == Err(StatusNotNew)
  {
    assert LowerChar('U') != LowerChar('N') && LowerChar('F') != LowerChar('N');
    assert !EqualsIgnoreCase("USED", "NEW") && !EqualsIgnoreCase("FAILED", "NEW");
  }

  /** The status comparison ignores case, so a row whose status reads "new" still imports. */
  lemma StatusIgnoresCase()
    ensures StatusAllowsImport(None)
    ensures StatusAllowsImport(Some("NEW")) && StatusAllowsImport(Some("new")) && StatusAllowsImport(Some("New"))
  {
    assert LowerChar('N') == 'n' && LowerChar('E') == 'e' && LowerChar('W') == 'w';
    assert LowerChar('n') == 'n' && LowerChar('e') == 'e' && LowerChar('w') == 'w';
  }

  /**
   * The buffering step of importFromUploadToken's read loop: adds an accepted record
   * to the buffer and, once the buffer holds 2000, saves it in one saveAll, counts it as
   * imported and empties it. `flushed` and `batches` are what the earlier saves wrote.
   */
  method BufferRecord(store: RecordRepository, records: seq<BatteryRecord>, importedCount: nat,
                      record: BatteryRecord, ghost flushed: seq<BatteryRecord>, ghost batches: nat,
                      ghost saved0: seq<BatteryRecord>, ghost sizes0: seq<nat>)
    returns (records': seq<BatteryRecord>, importedCount': nat,
             ghost flushed': seq<BatteryRecord>, ghost batches': nat)
    modifies store
    requires importedCount == |flushed| && BatchSplit(|flushed + records|) == (batches, |records|)
    requires store.saved == saved0 + flushed
    requires store.flushSizes == sizes0 + Repeat(BatchSize, batches)
    ensures flushed' + records' == flushed + records + [record] && importedCount' == |flushed'|
    ensures BatchSplit(|flushed' + records'|) == (batches', |records'|)
    ensures store.saved == saved0 + flushed'
    ensures store.flushSizes == sizes0 + Repeat(BatchSize, batches')
  {
    BatchSplitStep(|flushed + records|);
    AppendAssoc(flushed, records, [record]);
    records' := records + [record];
    importedCount', flushed', batches' := importedCount, flushed, batches;
    if |records'| >= BatchSize {
      store.SaveAll(records');
      AppendAssoc(saved0, flushed, records');
      AppendAssoc(sizes0, Repeat(BatchSize, batches), [BatchSize]);
      assert Repeat(BatchSize, batches + 1) == Repeat(BatchSize, batches) + [BatchSize];
      flushed' := flushed + records';
      batches' := batches + 1;
      importedCount' := importedCount + |records'|;
      records' := [];
      assert flushed' + records' == flushed';
    }
  }

  /** The buffer of importFromUploadToken's read loop and what it has written so far. */
  ghost predicate Buffered(store: RecordRepository, saved0: seq<BatteryRecord>, sizes0: seq<nat>,
                           accepted: seq<BatteryRecord>, flushed: seq<BatteryRecord>,
                           records: seq<BatteryRecord>, importedCount: nat, batches: nat)
    reads store
  {
    accepted == flushed + records && importedCount == |flushed| &&
    BatchSplit(|accepted|) == (batches, |records|) &&
    store.saved == saved0 + flushed && store.flushSizes == sizes0 + Repeat(BatchSize, batches)
  }

  /** One pass of importFromUploadToken's read loop: reads line i and buffers its record, if any. */
  method ConsumeLine(lines: seq<string>, i: nat, ctx: RecordContext, store: RecordRepository,
                     isFirstLine: bool, records: seq<BatteryRecord>, importedCount: nat,
                     ghost accepted: seq<BatteryRecord>, ghost flushed: seq<BatteryRecord>, ghost batches: nat,
                     ghost saved0: seq<BatteryRecord>, ghost sizes0: seq<nat>)
    returns (isFirstLine': bool, records': seq<BatteryRecord>, importedCount': nat,
             ghost accepted': seq<BatteryRecord>, ghost flushed': seq<BatteryRecord>, ghost batches': nat)
    modifies store
    requires i < |lines|
    requires ImportState(isFirstLine, accepted) == ImportScanAt(lines, i, CommaThenTab, ctx)
    requires Buffered(store, saved0, sizes0, accepted, flushed, records, importedCount, batches)
    ensures ImportState(isFirstLine', accepted') == ImportScanAt(lines, i + 1, CommaThenTab, ctx)
    ensures Buffered(store, saved0, sizes0, accepted', flushed', records', importedCount', batches')
  {
    var record;
    isFirstLine', record := ReadLine(lines, i, CommaThenTab, ctx, isFirstLine, accepted);
    records', importedCount', accepted', flushed', batches' := records, importedCount, accepted, flushed, batches;
    if record.Some? {
      records', importedCount', flushed', batches' :=
        BufferRecord(store, records, importedCount, record.value, flushed, batches, saved0, sizes0);
      accepted' := accepted + [record.value];
    }
  }

  /**
   * The read loop of importFromUploadToken: buffers the accepted rows of the file and
   * saves each full buffer of 2000. Returns the partial buffer left at the end of the
   * file and the number of records already saved.
   */
  method StreamRecords(lines: seq<string>, ctx: RecordContext,
                       store: RecordRepository)
    returns (records: seq<BatteryRecord>, importedCount: nat, ghost flushed: seq<BatteryRecord>)
    modifies store
    ensures flushed + records == Accepted(DataRows(lines, CommaThenTab), ctx)
    ensures importedCount == |flushed| && |records| == BatchSplit(|flushed + records|).1
    ensures store.saved == old(store.saved) + flushed
    ensures store.flushSizes == old(store.flushSizes) + Repeat(BatchSize, BatchSplit(|flushed + records|).0)
  {
    records := [];
    ghost var accepted: seq<BatteryRecord> := [];
    flushed := [];
    ghost var batches: nat := 0;
    ghost var saved0 := store.saved;
    ghost var sizes0 := store.flushSizes;
    importedCount := 0;
    var isFirstLine := true;
    var i := 0;
    assert lines[..0] == [];
    while i < |lines|
      modifies store
      invariant 0 <= i <= |lines|
      invariant ImportState(isFirstLine, accepted) == ImportScanAt(lines, i, CommaThenTab, ctx)
      invariant Buffered(store, saved0, sizes0, accepted, flushed, records, importedCount, batches)
    {
      isFirstLine, records, importedCount, accepted, flushed, batches :=
        ConsumeLine(lines, i, ctx, store, isFirstLine, records, importedCount,
                    accepted, flushed, batches, saved0, sizes0);
      i := i + 1;
    }
    ImportScanComplete(lines, CommaThenTab, ctx);
  }

  /** The end of importFromUploadToken's read loop: a non-empty partial buffer is saved and counted. */
  method FlushRemainder(store: RecordRepository, records: seq<BatteryRecord>, importedCount: nat)
    returns (count: nat)
    modifies store
    ensures count == importedCount + |records|
    ensures store.saved == old(store.saved) + records
    ensures store.flushSizes == old(store.flushSizes) + (if records == [] then [] else [|records|])
  {
    count := importedCount;
    if records != [] {
      store.SaveAll(records);
      count := count + |records|;
    } else {
      assert store.saved + records == store.saved;
    }
  }

  /**
   * The checks importFromUploadToken makes, in order, before it opens the stored file:
   * the registry row to import, or the first check that failed.
   */
  method CheckImport(batteryId: Option<int>, uploadToken: Option<string>, batteries: map<int, Battery>,
                     uploads: UploadRepository)
    returns (r: Result<CsvUpload, ImportError>)
    ensures var g := ImportGuard(batteryId, uploadToken, batteries, Views(uploads.byToken));
            (g.Err? ==> r == Err(g.error)) &&
            (g.Ok? ==> r.Ok? && uploadToken.Some? && uploadToken.value in uploads.byToken &&
                       r.value == uploads.byToken[uploadToken.value] && r.value.fileKey == Some(g.value))
  {
    if batteryId.None? {
      return Err(MissingBatteryId);
    }
    if uploadToken.None? || Trim(uploadToken.value) == [] {
      return Err(MissingToken);
    }
    if batteryId.value !in batteries {
      return Err(BatteryNotFound);
    }
    if uploadToken.value !in uploads.byToken {
      return Err(UploadNotFound);
    }
    var upload := uploads.byToken[uploadToken.value];
    if upload.status.Some? && !EqualsIgnoreCase(upload.status.value, "NEW") {
      return Err(StatusNotNew);
    }
    if upload.fileKey.None? || Trim(upload.fileKey.value) == [] {
      return Err(MissingFileKey);
    }
    r := Ok(upload);
  }

  /**
   * The part of importFromUploadToken after the guard and the opening of the stored file:
   * streams its lines into the record table, then marks the registry row USED with the
   * battery, the time and the accepted-row count, or FAILED when the read breaks off.
   */
  method ReadAndStore(upload: CsvUpload, batteryId: int, uploadToken: Option<string>,
                      lines: seq<string>, readFails: bool, store: RecordRepository, now: int)
    returns (r: Result<(), ImportError>)
    modifies store, upload
    ensures var acc := Accepted(DataRows(lines, CommaThenTab),
                                RecordContext(batteryId, old(upload.fileName), uploadToken));
            if readFails then
              r == Err(ImportReadFailed) && upload.Row() == old(upload.Row()).(status := Some("FAILED")) &&
              store.saved == old(store.saved) + acc[..|acc| - BatchSplit(|acc|).1] &&
              store.flushSizes == old(store.flushSizes) + Repeat(BatchSize, BatchSplit(|acc|).0)
            else
              r == Ok(()) &&
              upload.Row() == old(upload.Row()).(status := Some("USED"), batteryId := Some(batteryId),
                                                 usedAt := Some(now), rowCount := Some(|acc|)) &&
              store.saved == old(store.saved) + acc &&
              store.flushSizes == old(store.flushSizes) + BatchSizes(|acc|)
  {
    var ctx := RecordContext(batteryId, upload.fileName, uploadToken);
    var records, importedCount, flushed := StreamRecords(lines, ctx, store);
    TakeAppend(flushed, records);
    if readFails {
      upload.MarkFailed();
      return Err(ImportReadFailed);
    }
    AppendAssoc(old(store.saved), flushed, records);
    importedCount := FlushRemainder(store, records, importedCount);
    upload.MarkUsed(batteryId, now, importedCount);
    r := Ok(());
  }

  /**
   * importFromUploadToken. After the guard, the stored file is read line by line; every
   * accepted row is buffered and each full buffer of 2000 is saved and cleared; the last
   * partial buffer is saved at the end of the file. Success marks the registry row USED,
   * links the battery and records the accepted-row count; an IOException marks it FAILED
   * and leaves the batches already written in place.
   */
  method ImportFromUploadToken(batteryId: Option<int>, uploadToken: Option<string>,
                               batteries: map<int, Battery>, uploads: UploadRepository,
                               store: RecordRepository, storage: map<string, CsvSource>, now: int)
    returns (r: Result<(), ImportError>)
    modifies store, uploads.byToken.Values
    ensures var g := ImportGuard(batteryId, uploadToken, batteries, old(Views(uploads.byToken)));
            g.Err? ==>
              r == Err(g.error) && store.saved == old(store.saved) &&
              store.flushSizes == old(store.flushSizes) && unchanged(uploads.byToken.Values)
    ensures var g := ImportGuard(batteryId, uploadToken, batteries, old(Views(uploads.byToken)));
            g.Ok? ==>
              uploadToken.Some? && uploadToken.value in uploads.byToken && batteryId.Some? &&
              var entry := uploads.byToken[uploadToken.value];
              unchanged(uploads.byToken.Values - {entry}) &&
              match Open(storage, g.value)
              case Unavailable =>
                r == Err(StorageUnavailable) && unchanged(entry) &&
                store.saved == old(store.saved) && store.flushSizes == old(store.flushSizes)
              case Lines(lines, fails) =>
                var acc := Accepted(DataRows(lines, CommaThenTab),
                                    RecordContext(batteryId.value, old(entry.fileName), uploadToken));
                if fails then
                  r == Err(ImportReadFailed) && entry.Row() == old(entry.Row()).(status := Some("FAILED")) &&
                  store.saved == old(store.saved) + acc[..|acc| - BatchSplit(|acc|).1] &&
                  store.flushSizes == old(store.flushSizes) + Repeat(BatchSize, BatchSplit(|acc|).0)
                else
                  r == Ok(()) &&
                  entry.Row() == old(entry.Row()).(status := Some("USED"), batteryId := batteryId,
                                                   usedAt := Some(now), rowCount := Some(|acc|)) &&
                  store.saved == old(store.saved) + acc &&
                  store.flushSizes == old(store.flushSizes) + BatchSizes(|acc|)
  {
    var guard := CheckImport(batteryId, uploadToken, batteries, uploads);
    if guard.Err? {
      return Err(guard.error);
    }
    var upload := guard.value;
    var source := Open(storage, upload.fileKey.value);
    if source.Unavailable? {
      return Err(StorageUnavailable);
    }
    r := ReadAndStore(upload, batteryId.value, uploadToken, source.lines, source.readFails, store, now);
  }

  // ================================================================ legacy import

  datatype LegacyImportError = LegacyMissingBatteryId | LegacyBatteryNotFound | LegacyReadFailed

  /** One pass of importBatteryRecordsFromCsv's read loop: reads line i and keeps its record, if any. */
  method CollectLine(lines: seq<string>, i: nat, ctx: RecordContext, isFirstLine: bool,
                     records: seq<BatteryRecord>)
    returns (isFirstLine': bool, records': seq<BatteryRecord>)
    requires i < |lines|
    requires ImportState(isFirstLine, records) == ImportScanAt(lines, i, CommaOnly, ctx)
    ensures ImportState(isFirstLine', records') == ImportScanAt(lines, i + 1, CommaOnly, ctx)
  {
    var record;
    isFirstLine', record := ReadLine(lines, i, CommaOnly, ctx, isFirstLine, records);
    records' := records;
    if record.Some? {
      records' := records + [record.value];
    }
  }

  /** The read loop of importBatteryRecordsFromCsv: every accepted row of the file, kept in memory. */
  method CollectRecords(lines: seq<string>, ctx: RecordContext) returns (records: seq<BatteryRecord>)
    ensures records == Accepted(DataRows(lines, CommaOnly), ctx)
  {
    records := [];
    var isFirstLine := true;
    var i := 0;
    assert lines[..0] == [];
    while i < |lines|
      invariant 0 <= i <= |lines|
      invariant ImportState(isFirstLine, records) == ImportScanAt(lines, i, CommaOnly, ctx)
    {
      isFirstLine, records := CollectLine(lines, i, ctx, isFirstLine, records);
      i := i + 1;
    }
    ImportScanComplete(lines, CommaOnly, ctx);
  }

  /**
   * importBatteryRecordsFromCsv: reads an uploaded file with a comma-only split, keeps the
   * accepted rows in memory and saves them in one saveAll at the end; a read error saves
   * nothing. `uploadBatch` is stored on every record as given.
   */
  method ImportBatteryRecordsFromCsv(batteryId: Option<int>, fileName: Option<string>, content: CsvSource,
                                     uploadBatch: Option<string>, batteries: map<int, Battery>,
                                     store: RecordRepository)
    returns (r: Result<(), LegacyImportError>)
    modifies store
    ensures batteryId.None? ==> r == Err(LegacyMissingBatteryId)
    ensures batteryId.Some? && batteryId.value !in batteries ==> r == Err(LegacyBatteryNotFound)
    ensures r.Err? ==> store.saved == old(store.saved) && store.flushSizes == old(store.flushSizes)
    ensures batteryId.Some? && batteryId.value in batteries ==>
              match content
              case Unavailable => r == Err(LegacyReadFailed)
              case Lines(lines, fails) =>
                var acc := Accepted(DataRows(lines, CommaOnly),
                                    RecordContext(batteryId.value, fileName, uploadBatch));
                if fails then r == Err(LegacyReadFailed)
                else
                  r == Ok(()) && store.saved == old(store.saved) + acc &&
                  store.flushSizes == old(store.flushSizes) + (if acc == [] then [] else [|acc|])
  {
    if batteryId.None? {
      return Err(LegacyMissingBatteryId);
    }
    if batteryId.value !in batteries {
      return Err(LegacyBatteryNotFound);
    }
    if content.Unavailable? {
      return Err(LegacyReadFailed);
    }
    var ctx := RecordContext(batteryId.value, fileName, uploadBatch);
    var records := CollectRecords(content.lines, ctx);
    if content.readFails {
      return Err(LegacyReadFailed);
    }
    if records != [] {
      store.SaveAll(records);
    }
    r := Ok(());
  }
}
