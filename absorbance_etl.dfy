/**
 * Ingestion of absorbance plate CSV exports (`AbsorbanceETL`).
 *
 * A file is given as its name and its rows of cells (what `csv.reader`
 * yields). The plate id comes from the name (`plate_<digits>`); row 0 names
 * the wells (`A1` ... `H12`) from column 1 on; every later row holds a time
 * in column 0 and one absorbance value per well column.
 */
module AbsorbanceEtl {
  import opened Wrappers
  import opened Strings
  import opened Sequences
  import opened Storage

  datatype PlateError =
    | MissingPlateId     // no `plate_<digits>` in the file name
    | TooFewRows         // fewer than two CSV rows

  datatype WellError = InvalidWellIdentifier

  datatype Well = Well(rowId: char, columnId: nat)

  /** A decoded header cell: the CSV column it stands in and its well. */
  datatype HeaderWell = HeaderWell(col: nat, well: Well)

  /** A file as the ETL sees it: its name and its rows of cells. */
  datatype PlateFile = PlateFile(name: string, rows: seq<seq<string>>)

  // ---------------------------------------------------------------------------
  // The plate id in the file name: re.search(r'plate_(\d+)', name)
  // ---------------------------------------------------------------------------

  /** The pattern `plate_\d` matches at position `i`. */
  predicate PlateMatchAt(name: string, i: int) {
    0 <= i && i + 7 <= |name| && name[i..i + 6] == "plate_" && IsDigit(name[i + 6])
  }

  /** The number written by the greedy digit run of a match at `i`. */
  function PlateIdAt(name: string, i: int): nat
    requires PlateMatchAt(name, i)
  {
    DigitsValue(LeadingDigits(name[i + 6..]))
  }

  /** `i` is the leftmost position where the pattern matches. */
  predicate FirstPlateMatch(name: string, i: int) {
    PlateMatchAt(name, i) && forall k :: 0 <= k < i ==> !PlateMatchAt(name, k)
  }

  function PlateIdFrom(name: string, i: nat): (r: Option<nat>)
    requires i <= |name|
    requires forall k :: 0 <= k < i ==> !PlateMatchAt(name, k)
    ensures r.None? <==> forall k :: 0 <= k ==> !PlateMatchAt(name, k)
    ensures r.Some? ==> exists k :: FirstPlateMatch(name, k) && r.value == PlateIdAt(name, k)
    decreases |name| - i
  {
    if PlateMatchAt(name, i) then
      assert FirstPlateMatch(name, i);
      Some(PlateIdAt(name, i))
    else if i == |name| then
      assert forall k :: i <= k ==> !PlateMatchAt(name, k);
      None
    else PlateIdFrom(name, i + 1)
  }

  /** `parse_plate_id_from_filename`: the value of the digits of the leftmost
      `plate_<digits>` anywhere in the name, or None if there is none. */
  function ParsePlateId(name: string): (r: Option<nat>)
    ensures r.None? <==> forall k :: 0 <= k ==> !PlateMatchAt(name, k)
    ensures r.Some? ==> exists k :: FirstPlateMatch(name, k) && r.value == PlateIdAt(name, k)
  {
    PlateIdFrom(name, 0)
  }

  /** A name that begins `plate_<n>` followed by a non-digit yields `n`. */
  lemma PlateIdRoundTrip(n: nat, rest: string)
    requires rest == [] || !IsDigit(rest[0])
    ensures ParsePlateId("plate_" + NatToString(n) + rest) == Some(n)
  {
    var name := "plate_" + NatToString(n) + rest;
    assert name[6..] == NatToString(n) + rest;
    assert PlateMatchAt(name, 0);
    LeadingDigitsOf(NatToString(n), rest);
    DigitsRoundTrip(n);
  }

  // ---------------------------------------------------------------------------
  // Well identifiers: re.match(r'([A-H])(\d+)', well)
  // ---------------------------------------------------------------------------

  predicate IsPlateRow(c: char) {
    'A' <= c <= 'H'
  }

  /** `parse_well_identifier`: a row letter A-H then digits, anchored at the
      start only; whatever follows the digit run is ignored. */
  function ParseWell(w: string): (r: Result<Well, WellError>)
    ensures r.Success? <==> |w| >= 2 && IsPlateRow(w[0]) && IsDigit(w[1])
    ensures r.Success? ==> r.value.rowId == w[0]
  {
    if |w| >= 2 && IsPlateRow(w[0]) && IsDigit(w[1]) then
      Success(Well(w[0], DigitsValue(LeadingDigits(w[1..]))))
    else Failure(InvalidWellIdentifier)
  }

  /** The text of a well: row letter then `str(column)`. */
  function WellText(w: Well): string {
    [w.rowId] + NatToString(w.columnId)
  }

  /** Decoding the text of a well, followed by anything that does not start
      with a digit, gives the well back (for any column, not only 1-12). */
  lemma WellRoundTrip(w: Well, rest: string)
    requires IsPlateRow(w.rowId)
    requires rest == [] || !IsDigit(rest[0])
    ensures ParseWell(WellText(w) + rest) == Success(w)
  {
    var s := WellText(w) + rest;
    assert s[1..] == NatToString(w.columnId) + rest;
    LeadingDigitsOf(NatToString(w.columnId), rest);
    DigitsRoundTrip(w.columnId);
  }

  /** The column is the value of the whole digit run after the row letter,
      leading zeros included: `A01` is column 1 and `A007` column 7. */
  lemma WellDigits(r: char, d: string, rest: string)
    requires IsPlateRow(r) && d != [] && AllDigits(d)
    requires rest == [] || !IsDigit(rest[0])
    ensures ParseWell([r] + d + rest) == Success(Well(r, DigitsValue(d)))
  {
    assert ([r] + d + rest)[1..] == d + rest;
    LeadingDigitsOf(d, rest);
  }

  lemma WellLeadingZeros()
    ensures ParseWell("A01") == Success(Well('A', 1))
    ensures ParseWell("H007x") == Success(Well('H', 7))
  {
    WellDigits('A', "01", "");
    assert "A01" == ['A'] + "01" + "";
    WellDigits('H', "007", "x");
    assert "H007x" == ['H'] + "007" + "x";
  }

  /** A first character outside `A`-`H` (lower case included) is rejected. */
  lemma WellRejectsRow(w: string)
    requires |w| > 0 && !IsPlateRow(w[0])
    ensures ParseWell(w).Failure?
  {
  }

  // ---------------------------------------------------------------------------
  // parse_csv_file: what it computes, as functions
  // ---------------------------------------------------------------------------

  /** `int(x)` on a float: truncation toward zero. */
  function Trunc(x: real): (t: int)
    ensures x >= 0.0 ==> 0 <= t && t as real <= x < t as real + 1.0
    ensures x < 0.0 ==> t <= 0 && t as real - 1.0 < x <= t as real
  {
    if x >= 0.0 then x.Floor else -((-x).Floor)
  }

  /** The decoded well of one header cell, if it is non-blank and decodes. */
  function HeaderCell(cell: string, c: nat): (ws: seq<HeaderWell>)
    ensures |ws| <= 1
    ensures forall hw :: hw in ws ==> hw.col == c && IsPlateRow(hw.well.rowId)
  {
    var w := Strip(cell);
    if w != "" && ParseWell(w).Success? then [HeaderWell(c, ParseWell(w).value)] else []
  }

  /** The decoded wells of header columns 1 to `c - 1`, in column order;
      blank and undecodable cells are skipped, column 0 is never looked at. */
  function HeaderWells(header: seq<string>, c: nat): (ws: seq<HeaderWell>)
    requires c <= |header|
    ensures forall hw :: hw in ws ==> 1 <= hw.col < c && IsPlateRow(hw.well.rowId)
  {
    if c <= 1 then [] else HeaderWells(header, c - 1) + HeaderCell(header[c - 1], c - 1)
  }

  /** A header column is recorded exactly when it is not column 0 and its
      trimmed cell is non-blank and decodes, with the decoded well; the
      recorded columns keep header order. */
  lemma {:induction false} HeaderWellsMeaning(header: seq<string>, c: nat)
    requires c <= |header|
    ensures forall hw :: hw in HeaderWells(header, c) <==>
      1 <= hw.col < c && Strip(header[hw.col]) != "" && ParseWell(Strip(header[hw.col])) == Success(hw.well)
    ensures forall i, j :: 0 <= i < j < |HeaderWells(header, c)| ==>
      HeaderWells(header, c)[i].col < HeaderWells(header, c)[j].col
  {
    if c > 1 {
      HeaderWellsMeaning(header, c - 1);
      var prev := HeaderWells(header, c - 1);
      var cell := HeaderCell(header[c - 1], c - 1);
      assert HeaderWells(header, c) == prev + cell;
      assert forall hw :: hw in cell <==>
        hw.col == c - 1 && Strip(header[c - 1]) != "" && ParseWell(Strip(header[c - 1])) == Success(hw.well);
    }
  }

  /** The wells the whole header row names. */
  function HeaderWellsOf(header: seq<string>): seq<HeaderWell> {
    HeaderWells(header, |header|)
  }

  /** The value a data row holds for one header well, if any: the cell must
      exist (the row may be short), be non-blank, and parse as a number. */
  function CellValue(row: seq<string>, hw: HeaderWell, parseNum: string -> Option<real>): Option<real> {
    if hw.col < |row| && Strip(row[hw.col]) != "" then parseNum(Strip(row[hw.col])) else None
  }

  /** The record one header well yields in one data row, if any. */
  function CellRecord(plateId: nat, hw: HeaderWell, row: seq<string>, t: int,
                      parseNum: string -> Option<real>): (rs: seq<PlateRecord>)
    ensures |rs| <= 1
    ensures forall r :: r in rs ==> r == PlateRecord(plateId, hw.well.rowId, hw.well.columnId, r.value, t)
  {
    match CellValue(row, hw, parseNum)
    case Some(v) => [PlateRecord(plateId, hw.well.rowId, hw.well.columnId, v, t)]
    case None => []
  }

  /** The records of one data row for the first `j` header wells. */
  function RowRecords(plateId: nat, wells: seq<HeaderWell>, row: seq<string>, t: int,
                      parseNum: string -> Option<real>, j: nat): (rs: seq<PlateRecord>)
    requires j <= |wells|
    ensures |rs| <= j
  {
    if j == 0 then []
    else RowRecords(plateId, wells, row, t, parseNum, j - 1) + CellRecord(plateId, wells[j - 1], row, t, parseNum)
  }

  /** The header wells whose cell in `row` holds a number. */
  function Filled(row: seq<string>, parseNum: string -> Option<real>): HeaderWell -> bool {
    hw => CellValue(row, hw, parseNum).Some?
  }

  /** `rs` holds, in order, the record of each header well listed by index
      in `filled`: that well's position and number, and the row's time. */
  predicate FilledRecords(plateId: nat, wells: seq<HeaderWell>, row: seq<string>, t: int,
                          parseNum: string -> Option<real>, filled: seq<nat>, rs: seq<PlateRecord>) {
    && |rs| == |filled|
    && forall k :: 0 <= k < |filled| ==>
      && filled[k] < |wells| && CellValue(row, wells[filled[k]], parseNum).Some?
      && rs[k] == PlateRecord(plateId, wells[filled[k]].well.rowId, wells[filled[k]].well.columnId,
                              CellValue(row, wells[filled[k]], parseNum).value, t)
  }

  lemma FilledRecordsSnoc(plateId: nat, wells: seq<HeaderWell>, row: seq<string>, t: int,
                          parseNum: string -> Option<real>, filled: seq<nat>, rs: seq<PlateRecord>, m: nat)
    requires FilledRecords(plateId, wells, row, t, parseNum, filled, rs)
    requires m < |wells| && CellValue(row, wells[m], parseNum).Some?
    ensures FilledRecords(plateId, wells, row, t, parseNum, filled + [m],
      rs + [PlateRecord(plateId, wells[m].well.rowId, wells[m].well.columnId, CellValue(row, wells[m], parseNum).value, t)])
  {
  }

  /** In any data row, partly filled or not, the records are those of the
      wells whose cell exists, is non-blank and is a number, one each, with
      that number, in header order. */
  lemma {:induction false} RowRecordsMeaning(plateId: nat, wells: seq<HeaderWell>, row: seq<string>, t: int,
                                             parseNum: string -> Option<real>, j: nat)
    requires j <= |wells|
    ensures var filled := IndicesWhere(wells, Filled(row, parseNum), j);
      && Increasing(filled)
      && (forall m :: 0 <= m < j ==> (m in filled <==> CellValue(row, wells[m], parseNum).Some?))
      && FilledRecords(plateId, wells, row, t, parseNum, filled, RowRecords(plateId, wells, row, t, parseNum, j))
  {
    IndicesWhereMeaning(wells, Filled(row, parseNum), j);
    if j > 0 {
      RowRecordsMeaning(plateId, wells, row, t, parseNum, j - 1);
      var hw := wells[j - 1];
      var prev := RowRecords(plateId, wells, row, t, parseNum, j - 1);
      var prevFilled := IndicesWhere(wells, Filled(row, parseNum), j - 1);
      assert Filled(row, parseNum)(hw) == CellValue(row, hw, parseNum).Some?;
      if CellValue(row, hw, parseNum).Some? {
        FilledRecordsSnoc(plateId, wells, row, t, parseNum, prevFilled, prev, j - 1);
      }
    }
  }

  /** How the data loop treats a row: skipped (no cells, or a blank first
      cell), the end of the data (a first cell that is not a number), or a
      time sample of `seconds` (the number truncated toward zero). */
  datatype RowKind = Blank | Stop | Timed(seconds: int)

  function Classify(row: seq<string>, parseNum: string -> Option<real>): RowKind {
    if |row| == 0 || Strip(row[0]) == "" then Blank
    else match parseNum(Strip(row[0]))
      case None => Stop
      case Some(time) => Timed(Trunc(time))
  }

  /** The records of the data rows from index `i` on. */
  function RecordsFrom(plateId: nat, wells: seq<HeaderWell>, rows: seq<seq<string>>,
                       parseNum: string -> Option<real>, i: nat): seq<PlateRecord>
    decreases |rows| - i
  {
    if i >= |rows| then []
    else RowStep(plateId, wells, rows[i], parseNum, RecordsFrom(plateId, wells, rows, parseNum, i + 1))
  }

  /** What one data row adds in front of the records of the rows after it. */
  function RowStep(plateId: nat, wells: seq<HeaderWell>, row: seq<string>,
                   parseNum: string -> Option<real>, rest: seq<PlateRecord>): seq<PlateRecord>
  {
    match Classify(row, parseNum)
    case Blank => rest
    case Stop => []
    case Timed(t) => RowRecords(plateId, wells, row, t, parseNum, |wells|) + rest
  }

  /** What `parse_csv_file` returns or raises for a file. */
  function ParsePlateCsv(name: string, rows: seq<seq<string>>, parseNum: string -> Option<real>)
    : Result<seq<PlateRecord>, PlateError>
  {
    match ParsePlateId(name)
    case None => Failure(MissingPlateId)
    case Some(plateId) =>
      if |rows| < 2 then Failure(TooFewRows)
      else Success(RecordsFrom(plateId, HeaderWellsOf(rows[0]), rows, parseNum, 1))
  }

  // ---------------------------------------------------------------------------
  // parse_csv_file: its loops
  // ---------------------------------------------------------------------------

  /** The header loop of `parse_csv_file`: decodes row 0 from column 1 on. */
  method ReadHeader(header: seq<string>) returns (wells: seq<HeaderWell>)
    ensures wells == HeaderWellsOf(header)
  {
    wells := [];
    if |header| == 0 {
      return;
    }
    var c := 1;
    while c < |header|
      invariant 1 <= c <= |header|
      invariant wells == HeaderWells(header, c)
    {
      var wellStr := Strip(header[c]);
      var found: seq<HeaderWell> := [];
      if wellStr != "" {
        var decoded := ParseWell(wellStr);
        if decoded.Success? {
          found := [HeaderWell(c, decoded.value)];
        }
      }
      assert found == HeaderCell(header[c], c);
      wells := wells + found;
      c := c + 1;
    }
  }

  /** The inner loop of `parse_csv_file`: one record per header well whose
      cell in this row is present, non-blank and numeric. */
  method ReadRow(plateId: nat, wells: seq<HeaderWell>, row: seq<string>, seconds: int,
                 parseNum: string -> Option<real>)
    returns (records: seq<PlateRecord>)
    ensures records == RowRecords(plateId, wells, row, seconds, parseNum, |wells|)
  {
    records := [];
    var j := 0;
    while j < |wells|
      invariant 0 <= j <= |wells|
      invariant records == RowRecords(plateId, wells, row, seconds, parseNum, j)
    {
      var hw := wells[j];
      if hw.col < |row| {
        var valueStr := Strip(row[hw.col]);
        if valueStr != "" {
          var value := parseNum(valueStr);
          if value.Some? {
            records := records + [PlateRecord(plateId, hw.well.rowId, hw.well.columnId, value.value, seconds)];
          }
        }
      }
      j := j + 1;
    }
  }

  /** The data loop of `parse_csv_file`: blank rows are skipped, the first
      row whose time is not a number ends the loop. */
  method ReadData(plateId: nat, wells: seq<HeaderWell>, rows: seq<seq<string>>,
                  parseNum: string -> Option<real>)
    returns (plateData: seq<PlateRecord>)
    ensures plateData == RecordsFrom(plateId, wells, rows, parseNum, 1)
  {
    plateData := [];
    var i := 1;
    while i < |rows|
      invariant 1 <= i
      invariant plateData + RecordsFrom(plateId, wells, rows, parseNum, i) == RecordsFrom(plateId, wells, rows, parseNum, 1)
      decreases |rows| - i
    {
      var row := rows[i];
      if |row| == 0 || Strip(row[0]) == "" {
        assert Classify(row, parseNum) == Blank;
        i := i + 1;
        continue;
      }
      var time := parseNum(Strip(row[0]));
      if time.None? {
        assert Classify(row, parseNum) == Stop;
        assert plateData + [] == plateData;
        return;
      }
      var seconds := Trunc(time.value);
      assert Classify(row, parseNum) == Timed(seconds);
      var records := ReadRow(plateId, wells, row, seconds, parseNum);
      assert plateData + (records + RecordsFrom(plateId, wells, rows, parseNum, i + 1))
          == (plateData + records) + RecordsFrom(plateId, wells, rows, parseNum, i + 1);
      plateData := plateData + records;
      i := i + 1;
    }
    assert plateData + [] == plateData;
  }

  /** `parse_csv_file`: the plate id must be in the file name and the file
      must have a header and at least one more row; then the header and
      data loops run. */
  method ParseCsvFile(name: string, rows: seq<seq<string>>, parseNum: string -> Option<real>)
    returns (res: Result<seq<PlateRecord>, PlateError>)
    ensures res == ParsePlateCsv(name, rows, parseNum)
  {
    var plateId := ParsePlateId(name);
    if plateId.None? {
      return Failure(MissingPlateId);
    }
    if |rows| < 2 {
      return Failure(TooFewRows);
    }
    var wells := ReadHeader(rows[0]);
    var plateData := ReadData(plateId.value, wells, rows, parseNum);
    return Success(plateData);
  }

  // ---------------------------------------------------------------------------
  // Properties of the parse
  // ---------------------------------------------------------------------------

  /** Every record carries the plate id from the file name and the well of
      one of the decoded header columns. */
  lemma {:induction false} RowRecordsWells(plateId: nat, wells: seq<HeaderWell>, row: seq<string>, t: int,
                                           parseNum: string -> Option<real>, j: nat)
    requires j <= |wells|
    ensures forall r :: r in RowRecords(plateId, wells, row, t, parseNum, j) ==>
      r.plateId == plateId && r.secondsTimeSample == t &&
      exists hw :: hw in wells && hw.well == Well(r.rowId, r.columnId)
  {
    if j > 0 {
      RowRecordsWells(plateId, wells, row, t, parseNum, j - 1);
      assert wells[j - 1] in wells;
    }
  }

  lemma {:induction false} RecordsWells(plateId: nat, wells: seq<HeaderWell>, rows: seq<seq<string>>,
                                        parseNum: string -> Option<real>, i: nat)
    ensures forall r :: r in RecordsFrom(plateId, wells, rows, parseNum, i) ==>
      r.plateId == plateId && exists hw :: hw in wells && hw.well == Well(r.rowId, r.columnId)
    decreases |rows| - i
  {
    if i < |rows| {
      RecordsWells(plateId, wells, rows, parseNum, i + 1);
      if Classify(rows[i], parseNum).Timed? {
        RowRecordsWells(plateId, wells, rows[i], Classify(rows[i], parseNum).seconds, parseNum, |wells|);
      }
    }
  }

  /** Parsed records all belong to the file's plate and to a well named in
      the header, whose row letter is A-H. */
  lemma ParsedRecordsWellFormed(name: string, rows: seq<seq<string>>, parseNum: string -> Option<real>)
    requires ParsePlateCsv(name, rows, parseNum).Success?
    ensures forall r :: r in ParsePlateCsv(name, rows, parseNum).value ==>
      Some(r.plateId) == ParsePlateId(name) && IsPlateRow(r.rowId)
  {
    var wells := HeaderWellsOf(rows[0]);
    RecordsWells(ParsePlateId(name).value, wells, rows, parseNum, 1);
  }

  /** Two row lists that agree on row `i` and on everything parsed after it
      agree on everything parsed from row `i`. */
  lemma RecordsFromSameRow(plateId: nat, wells: seq<HeaderWell>, rows: seq<seq<string>>, other: seq<seq<string>>,
                           parseNum: string -> Option<real>, i: nat)
    requires i < |rows| && i < |other| && rows[i] == other[i]
    requires RecordsFrom(plateId, wells, rows, parseNum, i + 1) == RecordsFrom(plateId, wells, other, parseNum, i + 1)
    ensures RecordsFrom(plateId, wells, rows, parseNum, i) == RecordsFrom(plateId, wells, other, parseNum, i)
  {
  }

  lemma RecordsFromStop(plateId: nat, wells: seq<HeaderWell>, rows: seq<seq<string>>,
                        parseNum: string -> Option<real>, i: nat)
    requires i < |rows| && Classify(rows[i], parseNum) == Stop
    ensures RecordsFrom(plateId, wells, rows, parseNum, i) == []
  {
  }

  /** The stop rule: nothing after the first row whose time is not a number
      contributes, whatever those rows hold. */
  lemma {:induction false} StopRowEndsInput(plateId: nat, wells: seq<HeaderWell>, rows: seq<seq<string>>,
                                            parseNum: string -> Option<real>, i: nat, k: nat)
    requires i <= k < |rows| && Classify(rows[k], parseNum) == Stop
    ensures RecordsFrom(plateId, wells, rows, parseNum, i) == RecordsFrom(plateId, wells, rows[..k + 1], parseNum, i)
    decreases k - i
  {
    var upto := rows[..k + 1];
    assert upto[i] == rows[i];
    if i < k {
      StopRowEndsInput(plateId, wells, rows, parseNum, i + 1, k);
      RecordsFromSameRow(plateId, wells, rows, upto, parseNum, i);
    } else {
      RecordsFromStop(plateId, wells, rows, parseNum, i);
      RecordsFromStop(plateId, wells, upto, parseNum, i);
    }
  }

  /** The data rows from `i` on that contribute: non-blank with a numeric
      time, counted up to the first stop row. */
  function TimedRows(rows: seq<seq<string>>, parseNum: string -> Option<real>, i: nat): nat
    decreases |rows| - i
  {
    if i >= |rows| then 0
    else CountStep(Classify(rows[i], parseNum), TimedRows(rows, parseNum, i + 1))
  }

  /** How many rows a row of this kind adds to the `n` counted after it. */
  function CountStep(kind: RowKind, n: nat): nat {
    match kind
    case Blank => n
    case Stop => 0
    case Timed(_) => 1 + n
  }

  /** One row adds at most one record per decoded well. */
  lemma RowStepBound(plateId: nat, wells: seq<HeaderWell>, row: seq<string>,
                     parseNum: string -> Option<real>, rest: seq<PlateRecord>, n: nat)
    requires |rest| <= n * |wells|
    ensures |RowStep(plateId, wells, row, parseNum, rest)| <= CountStep(Classify(row, parseNum), n) * |wells|
  {
    if Classify(row, parseNum).Timed? {
      assert (1 + n) * |wells| == |wells| + n * |wells|;
    }
  }

  /** At most one record per consumed data row and decoded well. */
  lemma {:induction false} RecordsBound(plateId: nat, wells: seq<HeaderWell>, rows: seq<seq<string>>,
                                        parseNum: string -> Option<real>, i: nat)
    ensures |RecordsFrom(plateId, wells, rows, parseNum, i)| <= TimedRows(rows, parseNum, i) * |wells|
    decreases |rows| - i
  {
    if i < |rows| {
      RecordsBound(plateId, wells, rows, parseNum, i + 1);
      RowStepBound(plateId, wells, rows[i], parseNum, RecordsFrom(plateId, wells, rows, parseNum, i + 1),
                   TimedRows(rows, parseNum, i + 1));
    }
  }

  /** When every cell under a decoded well holds a number, a data row yields
      exactly one record per well, in header order. */
  lemma {:induction false} FullRowInHeaderOrder(plateId: nat, wells: seq<HeaderWell>, row: seq<string>, t: int,
                                                parseNum: string -> Option<real>, j: nat)
    requires j <= |wells|
    requires forall hw :: hw in wells ==> CellValue(row, hw, parseNum).Some?
    ensures |RowRecords(plateId, wells, row, t, parseNum, j)| == j
    ensures forall m :: 0 <= m < j ==>
      RowRecords(plateId, wells, row, t, parseNum, j)[m]
        == PlateRecord(plateId, wells[m].well.rowId, wells[m].well.columnId, CellValue(row, wells[m], parseNum).value, t)
  {
    if j > 0 {
      var hw := wells[j - 1];
      assert hw in wells;
      FullRowInHeaderOrder(plateId, wells, row, t, parseNum, j - 1);
      var prev := RowRecords(plateId, wells, row, t, parseNum, j - 1);
      var last := PlateRecord(plateId, hw.well.rowId, hw.well.columnId, CellValue(row, hw, parseNum).value, t);
      assert RowRecords(plateId, wells, row, t, parseNum, j) == prev + [last];
    }
  }

  // ---------------------------------------------------------------------------
  // ingest_file / ingest_directory
  // ---------------------------------------------------------------------------

  /** The records a successful file contributes; none for a failing one. */
  function Contribution(file: PlateFile, parseNum: string -> Option<real>): seq<PlateRecord> {
    match ParsePlateCsv(file.name, file.rows, parseNum)
    case Failure(_) => []
    case Success(data) => data
  }

  /** `ingest_file`: parse, then bulk-insert unless nothing was parsed;
      returns the number of rows inserted. A parse error is raised and the
      store is left as it was. */
  method IngestFile(db: Database, file: PlateFile, parseNum: string -> Option<real>, now: int)
    returns (res: Result<nat, PlateError>)
    modifies db`plates
    ensures res.Failure? <==> ParsePlateCsv(file.name, file.rows, parseNum).Failure?
    ensures res.Failure? ==> res.error == ParsePlateCsv(file.name, file.rows, parseNum).error
    ensures res.Success? ==> res.value == |Contribution(file, parseNum)|
    ensures db.plates == old(db.plates) + StampAll(Contribution(file, parseNum), now)
  {
    var parsed := ParseCsvFile(file.name, file.rows, parseNum);
    if parsed.Failure? {
      return Failure(parsed.error);
    }
    var plateData := parsed.value;
    if |plateData| == 0 {
      return Success(0);
    }
    var count := db.BulkCreatePlates(plateData, now);
    return Success(count);
  }

  /** The records of all files that ingest successfully, in file order. */
  function AllContributions(files: seq<PlateFile>, parseNum: string -> Option<real>): seq<PlateRecord> {
    if files == [] then []
    else AllContributions(files[..|files| - 1], parseNum) + Contribution(files[|files| - 1], parseNum)
  }

  lemma AllContributionsSnoc(files: seq<PlateFile>, parseNum: string -> Option<real>, n: nat)
    requires n < |files|
    ensures AllContributions(files[..n + 1], parseNum)
         == AllContributions(files[..n], parseNum) + Contribution(files[n], parseNum)
  {
    assert files[..n + 1][..n] == files[..n];
  }

  /** `ingest_directory`: ingests the files in order; a failing file is
      skipped and the loop goes on. The returned total is the number of rows
      added to the store, which are the successful files' records in order. */
  method IngestDirectory(db: Database, files: seq<PlateFile>, parseNum: string -> Option<real>, now: int)
    returns (total: nat)
    modifies db`plates
    ensures db.plates == old(db.plates) + StampAll(AllContributions(files, parseNum), now)
    ensures total == |AllContributions(files, parseNum)|
    ensures |db.plates| == |old(db.plates)| + total
  {
    total := 0;
    ghost var ingested: seq<PlateRecord> := [];
    ghost var start := db.plates;
    var n := 0;
    while n < |files|
      invariant 0 <= n <= |files|
      invariant ingested == AllContributions(files[..n], parseNum)
      invariant db.plates == start + StampAll(ingested, now)
      invariant total == |ingested|
    {
      ghost var added := Contribution(files[n], parseNum);
      ghost var before := db.plates;
      var res := IngestFile(db, files[n], parseNum, now);
      AllContributionsSnoc(files, parseNum, n);
      StampedTwice(start, ingested, added, before, db.plates, now);
      if res.Success? {
        total := total + res.value;
      }
      ingested := ingested + added;
      n := n + 1;
    }
    assert files[..n] == files;
  }
}
