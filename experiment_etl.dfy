/**
 * Ingestion of experiment parameter CSVs (`ExperimentETL`).
 *
 * A file is a key/value table read with `csv.DictReader` (columns `type`,
 * `value` and optionally `Units`). Two keys are the experiment's scalars
 * (`cell concentration`, `dilution`); every other numeric row is a reagent
 * dose, which is stored only when its name is in the reagent catalogue.
 */
module ExperimentEtl {
  import opened Wrappers
  import opened Strings
  import opened Sequences
  import opened Storage

  const CellConcentrationKey: string := "cell concentration"
  const DilutionKey: string := "dilution"

  datatype ExperimentError =
    | MissingExperimentId       // no `exp <digits>` in the file name
    | MalformedRow              // a row lacks a field the parser reads (`None.strip()`)
    | MissingCellConcentration
    | MissingDilution

  /** A `DictReader` row. A field is None when the row is shorter than the
      header or the header has no such column. */
  datatype KeyValueRow = KeyValueRow(rowType: Option<string>, value: Option<string>, units: Option<string>)

  /** A file: its name, whether its header has a `Units` column, its rows. */
  datatype ExperimentFile = ExperimentFile(name: string, hasUnits: bool, rows: seq<KeyValueRow>)

  /** A reagent row of the file, before catalogue lookup. */
  datatype Candidate = Candidate(name: string, value: real, unit: string)

  /** What `parse_csv_file` returns. */
  datatype ExperimentData = ExperimentData(experimentId: nat, cellConcentration: real, dilution: real,
                                           candidates: seq<Candidate>)

  // ---------------------------------------------------------------------------
  // The experiment id in the file name: re.search(r'exp\s+(\d+)', name, re.I)
  // ---------------------------------------------------------------------------

  /** After `exp`: a non-empty whitespace run, then a digit. Since `\s+` is
      greedy and a digit is not whitespace, backtracking finds nothing more. */
  predicate SpaceThenDigit(s: string) {
    var t := TrimLeft(s);
    |t| < |s| && |t| > 0 && IsDigit(t[0])
  }

  predicate ExpMatchAt(name: string, i: int) {
    0 <= i && i + 3 <= |name| && Lower(name[i..i + 3]) == "exp" && SpaceThenDigit(name[i + 3..])
  }

  function ExpIdAt(name: string, i: int): nat
    requires ExpMatchAt(name, i)
  {
    DigitsValue(LeadingDigits(TrimLeft(name[i + 3..])))
  }

  predicate FirstExpMatch(name: string, i: int) {
    ExpMatchAt(name, i) && forall k :: 0 <= k < i ==> !ExpMatchAt(name, k)
  }

  /** The search for a match from position `i` on. */
  function ExpIdFrom(name: string, i: nat): Option<nat>
    requires i <= |name|
    decreases |name| - i
  {
    if ExpMatchAt(name, i) then Some(ExpIdAt(name, i))
    else if i == |name| then None
    else ExpIdFrom(name, i + 1)
  }

  /** `parse_experiment_id_from_filename`: the number after the leftmost
      `exp`, in any case, followed by whitespace and digits; else None. */
  function ParseExperimentId(name: string): Option<nat> {
    ExpIdFrom(name, 0)
  }

  lemma {:induction false} ExpIdFromMeaning(name: string, i: nat)
    requires i <= |name|
    requires forall k :: 0 <= k < i ==> !ExpMatchAt(name, k)
    ensures ExpIdFrom(name, i).None? <==> forall k :: 0 <= k ==> !ExpMatchAt(name, k)
    ensures ExpIdFrom(name, i).Some? ==> exists k :: FirstExpMatch(name, k) && ExpIdFrom(name, i).value == ExpIdAt(name, k)
    decreases |name| - i
  {
    if ExpMatchAt(name, i) {
      assert FirstExpMatch(name, i);
    } else if i == |name| {
      assert forall k :: i <= k ==> !ExpMatchAt(name, k);
    } else {
      ExpIdFromMeaning(name, i + 1);
    }
  }

  /** The id is None exactly when the pattern matches nowhere, and otherwise
      the number of the leftmost match. */
  lemma ParseExperimentIdMeaning(name: string)
    ensures ParseExperimentId(name).None? <==> forall k :: 0 <= k ==> !ExpMatchAt(name, k)
    ensures ParseExperimentId(name).Some? ==>
      exists k :: FirstExpMatch(name, k) && ParseExperimentId(name).value == ExpIdAt(name, k)
  {
    ExpIdFromMeaning(name, 0);
  }

  /** A name that begins with `exp` in any case, whitespace and the digits of
      `n` (then a non-digit) yields `n`. */
  lemma ExpIdRoundTrip(p: string, ws: string, n: nat, rest: string)
    requires |p| == 3 && Lower(p) == "exp"
    requires |ws| > 0 && forall k :: 0 <= k < |ws| ==> IsSpace(ws[k])
    requires rest == [] || !IsDigit(rest[0])
    ensures ParseExperimentId(p + ws + NatToString(n) + rest) == Some(n)
  {
    var digits := NatToString(n);
    assert (digits + rest)[0] == digits[0];
    TrimLeftSpaces(ws, digits + rest);
    ExpMatchAtStart(p, ws + (digits + rest), digits + rest);
    SeqAssoc(p + ws, digits, rest);
    SeqAssoc(p, ws, digits + rest);
    LeadingDigitsOf(digits, rest);
    DigitsRoundTrip(n);
  }

  /** A match at the start: `exp` in any case, then whitespace before `t`. */
  lemma ExpMatchAtStart(p: string, tail: string, t: string)
    requires |p| == 3 && Lower(p) == "exp"
    requires |tail| > |t| && TrimLeft(tail) == t && |t| > 0 && IsDigit(t[0])
    ensures ParseExperimentId(p + tail) == Some(DigitsValue(LeadingDigits(t)))
  {
    assert (p + tail)[0..3] == p;
    assert (p + tail)[3..] == tail;
    assert ExpMatchAt(p + tail, 0);
  }

  // ---------------------------------------------------------------------------
  // parse_csv_file: what it computes, as functions
  // ---------------------------------------------------------------------------

  /** The fields the parser reads, type then value then (if the header has
      it) units: any of them missing raises. */
  predicate Malformed(row: KeyValueRow, hasUnits: bool) {
    row.rowType.None? || row.value.None? || (hasUnits && row.units.None?)
  }

  /** The row's key: its type trimmed and lower-cased. */
  function RowKey(row: KeyValueRow): string
    requires row.rowType.Some?
  {
    Lower(Strip(row.rowType.value))
  }

  function RowUnit(row: KeyValueRow, hasUnits: bool): string
    requires !Malformed(row, hasUnits)
  {
    if hasUnits then Strip(row.units.value) else ""
  }

  /** What one row does to the parse. */
  datatype RowOutcome =
    | Unreadable                         // a field the parser reads is missing
    | Ignored                            // blank key or value, or a value that is not a number
    | CellConcentration(x: real)
    | Dilution(x: real)
    | ReagentDose(candidate: Candidate)

  /** One iteration of the row loop of `parse_csv_file`. */
  function ClassifyRow(row: KeyValueRow, hasUnits: bool, parseNum: string -> Option<real>): RowOutcome {
    if Malformed(row, hasUnits) then Unreadable
    else
      var key := RowKey(row);
      var valueStr := Strip(row.value.value);
      if key == "" || valueStr == "" then Ignored
      else match parseNum(valueStr)
        case None => Ignored
        case Some(x) =>
          if key == CellConcentrationKey then CellConcentration(x)
          else if key == DilutionKey then Dilution(x)
          else ReagentDose(Candidate(Strip(row.rowType.value), x, RowUnit(row, hasUnits)))
  }

  /** The parser's state after a prefix of the rows. */
  datatype Scan = Scan(cellConcentration: Option<real>, dilution: Option<real>, candidates: seq<Candidate>)

  function ScanStep(st: Scan, outcome: RowOutcome): Result<Scan, ExperimentError> {
    match outcome
    case Unreadable => Failure(MalformedRow)
    case Ignored => Success(st)
    case CellConcentration(x) => Success(st.(cellConcentration := Some(x)))
    case Dilution(x) => Success(st.(dilution := Some(x)))
    case ReagentDose(c) => Success(st.(candidates := st.candidates + [c]))
  }

  /** The scan of the first `n` rows. */
  function ScanRows(rows: seq<KeyValueRow>, hasUnits: bool, parseNum: string -> Option<real>, n: nat)
    : Result<Scan, ExperimentError>
    requires n <= |rows|
  {
    if n == 0 then Success(Scan(None, None, []))
    else match ScanRows(rows, hasUnits, parseNum, n - 1)
      case Failure(e) => Failure(e)
      case Success(st) => ScanStep(st, ClassifyRow(rows[n - 1], hasUnits, parseNum))
  }

  /** What `parse_csv_file` returns or raises. */
  function ParseExperimentCsv(file: ExperimentFile, parseNum: string -> Option<real>)
    : Result<ExperimentData, ExperimentError>
  {
    match ParseExperimentId(file.name)
    case None => Failure(MissingExperimentId)
    case Some(id) =>
      match ScanRows(file.rows, file.hasUnits, parseNum, |file.rows|)
      case Failure(e) => Failure(e)
      case Success(st) =>
        if st.cellConcentration.None? then Failure(MissingCellConcentration)
        else if st.dilution.None? then Failure(MissingDilution)
        else Success(ExperimentData(id, st.cellConcentration.value, st.dilution.value, st.candidates))
  }

  // ---------------------------------------------------------------------------
  // parse_csv_file: its loops
  // ---------------------------------------------------------------------------

  /** A failed scan stays failed whatever rows follow. */
  lemma {:induction false} ScanFailureSticks(rows: seq<KeyValueRow>, hasUnits: bool,
                                             parseNum: string -> Option<real>, n: nat, m: nat)
    requires n <= m <= |rows| && ScanRows(rows, hasUnits, parseNum, n).Failure?
    ensures ScanRows(rows, hasUnits, parseNum, m) == ScanRows(rows, hasUnits, parseNum, n)
    decreases m - n
  {
    if n < m {
      ScanFailureSticks(rows, hasUnits, parseNum, n, m - 1);
    }
  }

  method ParseCsvFile(file: ExperimentFile, parseNum: string -> Option<real>)
    returns (res: Result<ExperimentData, ExperimentError>)
    ensures res == ParseExperimentCsv(file, parseNum)
  {
    var id := ParseExperimentId(file.name);
    if id.None? {
      return Failure(MissingExperimentId);
    }
    var rows := file.rows;
    var cellConcentration: Option<real> := None;
    var dilution: Option<real> := None;
    var candidates: seq<Candidate> := [];
    for i := 0 to |rows|
      invariant ScanRows(rows, file.hasUnits, parseNum, i) == Success(Scan(cellConcentration, dilution, candidates))
    {
      match ClassifyRow(rows[i], file.hasUnits, parseNum)
      case Unreadable =>
        ScanFailureSticks(rows, file.hasUnits, parseNum, i + 1, |rows|);
        return Failure(MalformedRow);
      case Ignored =>
      case CellConcentration(x) =>
        cellConcentration := Some(x);
      case Dilution(x) =>
        dilution := Some(x);
      case ReagentDose(c) =>
        candidates := candidates + [c];
    }
    if cellConcentration.None? {
      return Failure(MissingCellConcentration);
    }
    if dilution.None? {
      return Failure(MissingDilution);
    }
    return Success(ExperimentData(id.value, cellConcentration.value, dilution.value, candidates));
  }

  // ---------------------------------------------------------------------------
  // What the scan means, field by field
  // ---------------------------------------------------------------------------

  /** The value a row gives the scalar named `key`, if any. */
  function ScalarFor(outcome: RowOutcome, key: string): Option<real> {
    match outcome
    case CellConcentration(x) => if key == CellConcentrationKey then Some(x) else None
    case Dilution(x) => if key == DilutionKey then Some(x) else None
    case _ => None
  }

  /** The value of the last of the first `n` rows that sets the scalar `key`. */
  function LastValueOf(rows: seq<KeyValueRow>, hasUnits: bool, parseNum: string -> Option<real>,
                       key: string, n: nat): Option<real>
    requires n <= |rows|
  {
    if n == 0 then None
    else LatestValue(ClassifyRow(rows[n - 1], hasUnits, parseNum), key, LastValueOf(rows, hasUnits, parseNum, key, n - 1))
  }

  /** The scalar `key` after one more row, when it was `earlier` before. */
  function LatestValue(outcome: RowOutcome, key: string, earlier: Option<real>): Option<real> {
    match ScalarFor(outcome, key)
    case Some(x) => Some(x)
    case None => earlier
  }

  /** The reagent rows among the first `n`, as candidates, in file order. */
  function CandidatesOf(rows: seq<KeyValueRow>, hasUnits: bool, parseNum: string -> Option<real>, n: nat)
    : seq<Candidate>
    requires n <= |rows|
  {
    if n == 0 then []
    else
      CandidatesOf(rows, hasUnits, parseNum, n - 1) + RowCandidates(ClassifyRow(rows[n - 1], hasUnits, parseNum))
  }

  function RowCandidates(outcome: RowOutcome): seq<Candidate> {
    match outcome
    case ReagentDose(c) => [c]
    case _ => []
  }

  /** One step of the scan, field by field. */
  lemma StepMeaning(st: Scan, outcome: RowOutcome)
    ensures ScanStep(st, outcome).Failure? <==> outcome.Unreadable?
    ensures ScanStep(st, outcome).Failure? ==> ScanStep(st, outcome).error == MalformedRow
    ensures ScanStep(st, outcome).Success? ==>
      ScanStep(st, outcome).value
        == Scan(LatestValue(outcome, CellConcentrationKey, st.cellConcentration),
                LatestValue(outcome, DilutionKey, st.dilution),
                st.candidates + RowCandidates(outcome))
  {
    if !outcome.ReagentDose? {
      assert st.candidates + [] == st.candidates;
    }
  }

  /** A row is unreadable exactly when it lacks a field. */
  lemma UnreadableMeaning(row: KeyValueRow, hasUnits: bool, parseNum: string -> Option<real>)
    ensures ClassifyRow(row, hasUnits, parseNum).Unreadable? <==> Malformed(row, hasUnits)
  {
  }

  /** The scan fails exactly when some row lacks a field; otherwise each
      scalar is the value of the last row that sets it and the candidates are
      the reagent rows in file order. */
  lemma {:induction false} ScanMeaning(rows: seq<KeyValueRow>, hasUnits: bool, parseNum: string -> Option<real>, n: nat)
    requires n <= |rows|
    ensures ScanRows(rows, hasUnits, parseNum, n).Failure? <==> exists j :: 0 <= j < n && Malformed(rows[j], hasUnits)
    ensures ScanRows(rows, hasUnits, parseNum, n).Failure? ==> ScanRows(rows, hasUnits, parseNum, n).error == MalformedRow
    ensures ScanRows(rows, hasUnits, parseNum, n).Success? ==>
      ScanRows(rows, hasUnits, parseNum, n).value
        == Scan(LastValueOf(rows, hasUnits, parseNum, CellConcentrationKey, n),
                LastValueOf(rows, hasUnits, parseNum, DilutionKey, n),
                CandidatesOf(rows, hasUnits, parseNum, n))
  {
    if n > 0 {
      ScanMeaning(rows, hasUnits, parseNum, n - 1);
      var prev := ScanRows(rows, hasUnits, parseNum, n - 1);
      var outcome := ClassifyRow(rows[n - 1], hasUnits, parseNum);
      UnreadableMeaning(rows[n - 1], hasUnits, parseNum);
      if prev.Success? {
        StepMeaning(prev.value, outcome);
      }
      if exists j :: 0 <= j < n - 1 && Malformed(rows[j], hasUnits) {
        var j :| 0 <= j < n - 1 && Malformed(rows[j], hasUnits);
        assert 0 <= j < n && Malformed(rows[j], hasUnits);
      }
    }
  }

  /** The last occurrence of a key wins: the value of a row that sets it is
      kept when no later row sets it again. */
  lemma {:induction false} LastOccurrenceWins(rows: seq<KeyValueRow>, hasUnits: bool, parseNum: string -> Option<real>,
                                              key: string, j: nat, n: nat)
    requires j < n <= |rows|
    requires ScalarFor(ClassifyRow(rows[j], hasUnits, parseNum), key).Some?
    requires forall m :: j < m < n ==> ScalarFor(ClassifyRow(rows[m], hasUnits, parseNum), key).None?
    ensures LastValueOf(rows, hasUnits, parseNum, key, n) == ScalarFor(ClassifyRow(rows[j], hasUnits, parseNum), key)
    decreases n
  {
    if n - 1 > j {
      LastOccurrenceWins(rows, hasUnits, parseNum, key, j, n - 1);
    }
  }

  /** A key that no row sets is missing. */
  lemma {:induction false} AbsentKeyMissing(rows: seq<KeyValueRow>, hasUnits: bool, parseNum: string -> Option<real>,
                                            key: string, n: nat)
    requires n <= |rows|
    requires forall m :: 0 <= m < n ==> ScalarFor(ClassifyRow(rows[m], hasUnits, parseNum), key).None?
    ensures LastValueOf(rows, hasUnits, parseNum, key, n).None?
  {
    if n > 0 {
      AbsentKeyMissing(rows, hasUnits, parseNum, key, n - 1);
    }
  }

  /** A row sets a scalar exactly when its trimmed, lower-cased type is that
      key and its trimmed value is a number. */
  lemma ScalarRow(row: KeyValueRow, hasUnits: bool, parseNum: string -> Option<real>, key: string)
    requires key == CellConcentrationKey || key == DilutionKey
    ensures ScalarFor(ClassifyRow(row, hasUnits, parseNum), key).Some? <==>
      && !Malformed(row, hasUnits) && Lower(Strip(row.rowType.value)) == key
      && Strip(row.value.value) != "" && parseNum(Strip(row.value.value)).Some?
    ensures ScalarFor(ClassifyRow(row, hasUnits, parseNum), key).Some? ==>
      ScalarFor(ClassifyRow(row, hasUnits, parseNum), key) == parseNum(Strip(row.value.value))
  {
  }

  /** A reagent row's candidate: its name is the trimmed type in its original
      case, non-empty and never one of the scalar keys once lower-cased; its
      value is the parsed value and its unit the trimmed units (or ""). */
  lemma ReagentRow(row: KeyValueRow, hasUnits: bool, parseNum: string -> Option<real>)
    requires ClassifyRow(row, hasUnits, parseNum).ReagentDose?
    ensures var c := ClassifyRow(row, hasUnits, parseNum).candidate;
      && c.name == Strip(row.rowType.value) && Strip(c.name) == c.name && c.name != ""
      && Lower(c.name) != CellConcentrationKey && Lower(c.name) != DilutionKey
      && Some(c.value) == parseNum(Strip(row.value.value))
      && c.unit == (if hasUnits then Strip(row.units.value) else "")
  {
    var name := Strip(row.rowType.value);
    StripIdempotent(row.rowType.value);
    assert |Lower(name)| == |name|;
  }

  /** There is at most one candidate per row. */
  lemma {:induction false} CandidatesBound(rows: seq<KeyValueRow>, hasUnits: bool, parseNum: string -> Option<real>, n: nat)
    requires n <= |rows|
    ensures |CandidatesOf(rows, hasUnits, parseNum, n)| <= n
  {
    if n > 0 {
      CandidatesBound(rows, hasUnits, parseNum, n - 1);
    }
  }

  /** The error order of `parse_csv_file`: the name, then the rows, then the
      cell concentration, then the dilution. A zero dilution is accepted. */
  lemma ParseErrors(file: ExperimentFile, parseNum: string -> Option<real>)
    ensures (ParseExperimentCsv(file, parseNum) == Failure(MissingExperimentId))
              <==> ParseExperimentId(file.name).None?
    ensures (ParseExperimentCsv(file, parseNum) == Failure(MalformedRow))
              <==> ParseExperimentId(file.name).Some? && exists j :: 0 <= j < |file.rows| && Malformed(file.rows[j], file.hasUnits)
    ensures (ParseExperimentCsv(file, parseNum) == Failure(MissingCellConcentration))
              <==> && ParseExperimentId(file.name).Some?
                   && (forall j :: 0 <= j < |file.rows| ==> !Malformed(file.rows[j], file.hasUnits))
                   && LastValueOf(file.rows, file.hasUnits, parseNum, CellConcentrationKey, |file.rows|).None?
    ensures (ParseExperimentCsv(file, parseNum) == Failure(MissingDilution))
              <==> && ParseExperimentId(file.name).Some?
                   && (forall j :: 0 <= j < |file.rows| ==> !Malformed(file.rows[j], file.hasUnits))
                   && LastValueOf(file.rows, file.hasUnits, parseNum, CellConcentrationKey, |file.rows|).Some?
                   && LastValueOf(file.rows, file.hasUnits, parseNum, DilutionKey, |file.rows|).None?
  {
    ScanMeaning(file.rows, file.hasUnits, parseNum, |file.rows|);
  }

  // ---------------------------------------------------------------------------
  // ingest_file: catalogue lookup of the candidates
  // ---------------------------------------------------------------------------

  /** The doses stored for the first `n` candidates: those whose name is in
      the catalogue, under the new experiment's id, in file order. */
  function ResolvedValues(catalogue: seq<Reagent>, experimentId: int, candidates: seq<Candidate>, n: nat)
    : seq<ReagentValue>
    requires n <= |candidates|
  {
    if n == 0 then []
    else
      var c := candidates[n - 1];
      ResolvedValues(catalogue, experimentId, candidates, n - 1)
      + match FindReagent(catalogue, c.name)
        case Some(r) => [ReagentValue(experimentId, r.id, c.value, c.unit)]
        case None => []
  }

  /** The names of the first `n` candidates that are not in the catalogue. */
  function SkippedNames(catalogue: seq<Reagent>, candidates: seq<Candidate>, n: nat): seq<string>
    requires n <= |candidates|
  {
    if n == 0 then []
    else
      SkippedNames(catalogue, candidates, n - 1)
      + if FindReagent(catalogue, candidates[n - 1].name).None? then [candidates[n - 1].name] else []
  }

  /** The loop of `ingest_file` that fills the insert and skip lists. */
  method ResolveCandidates(catalogue: seq<Reagent>, experimentId: int, candidates: seq<Candidate>)
    returns (toInsert: seq<ReagentValue>, skipped: seq<string>)
    ensures toInsert == ResolvedValues(catalogue, experimentId, candidates, |candidates|)
    ensures skipped == SkippedNames(catalogue, candidates, |candidates|)
  {
    toInsert := [];
    skipped := [];
    for i := 0 to |candidates|
      invariant toInsert == ResolvedValues(catalogue, experimentId, candidates, i)
      invariant skipped == SkippedNames(catalogue, candidates, i)
    {
      var c := candidates[i];
      var reagent := FindReagent(catalogue, c.name);
      if reagent.Some? {
        toInsert := toInsert + [ReagentValue(experimentId, reagent.value.id, c.value, c.unit)];
      } else {
        skipped := skipped + [c.name];
      }
    }
  }

  /** Every candidate is either inserted or skipped, never both: the two
      lists together are as long as the candidate list, every dose belongs
      to the new experiment and names a catalogue reagent, and no skipped
      name is in the catalogue. */
  lemma {:induction false} ResolvePartition(catalogue: seq<Reagent>, experimentId: int, candidates: seq<Candidate>, n: nat)
    requires n <= |candidates|
    ensures |ResolvedValues(catalogue, experimentId, candidates, n)| + |SkippedNames(catalogue, candidates, n)| == n
    ensures forall v :: v in ResolvedValues(catalogue, experimentId, candidates, n) ==>
      v.experimentId == experimentId && exists r :: r in catalogue && r.id == v.reagentId
    ensures forall s :: s in SkippedNames(catalogue, candidates, n) ==> forall r :: r in catalogue ==> r.name != s
  {
    if n > 0 {
      ResolvePartition(catalogue, experimentId, candidates, n - 1);
    }
  }

  /** Each candidate lands on the side its catalogue lookup decides. */
  lemma {:induction false} CandidateLands(catalogue: seq<Reagent>, experimentId: int, candidates: seq<Candidate>, k: nat, n: nat)
    requires k < n <= |candidates|
    ensures FindReagent(catalogue, candidates[k].name).Some? ==>
      ReagentValue(experimentId, FindReagent(catalogue, candidates[k].name).value.id, candidates[k].value, candidates[k].unit)
        in ResolvedValues(catalogue, experimentId, candidates, n)
    ensures FindReagent(catalogue, candidates[k].name).None? ==> candidates[k].name in SkippedNames(catalogue, candidates, n)
    decreases n
  {
    if k < n - 1 {
      CandidateLands(catalogue, experimentId, candidates, k, n - 1);
    }
  }

  /** `ingest_file`: parse, create the experiment, store the resolved doses
      (the bulk insert runs only when there are any) and return the id the
      store assigned. A failing parse touches nothing. */
  method IngestFile(db: Database, file: ExperimentFile, parseNum: string -> Option<real>)
    returns (res: Result<int, ExperimentError>)
    requires db.Valid()
    modifies db`experiments, db`nextExperimentId, db`reagentValues
    ensures db.Valid()
    ensures res.Failure? <==> ParseExperimentCsv(file, parseNum).Failure?
    ensures res.Failure? ==>
      && res.error == ParseExperimentCsv(file, parseNum).error
      && db.experiments == old(db.experiments) && db.nextExperimentId == old(db.nextExperimentId)
      && db.reagentValues == old(db.reagentValues)
    ensures res.Success? ==>
      var d := ParseExperimentCsv(file, parseNum).value;
      && res.value == old(db.nextExperimentId)
      && db.experiments == old(db.experiments) + [Experiment(res.value, d.cellConcentration, d.dilution)]
      && db.nextExperimentId == old(db.nextExperimentId) + 1
      && db.reagentValues == old(db.reagentValues) + ResolvedValues(db.reagents, res.value, d.candidates, |d.candidates|)
  {
    var parsed := ParseCsvFile(file, parseNum);
    if parsed.Failure? {
      return Failure(parsed.error);
    }
    var data := parsed.value;
    var experiment := db.CreateExperiment(data.cellConcentration, data.dilution);
    var toInsert, skipped := ResolveCandidates(db.reagents, experiment.id, data.candidates);
    if |toInsert| > 0 {
      var _ := db.BulkCreateReagentValues(toInsert);
    }
    return Success(experiment.id);
  }

  // ---------------------------------------------------------------------------
  // ingest_directory
  // ---------------------------------------------------------------------------

  /** The parsed contents of the first `n` files that parse, in order. */
  function ParsedFiles(files: seq<ExperimentFile>, parseNum: string -> Option<real>, n: nat): seq<ExperimentData>
    requires n <= |files|
  {
    if n == 0 then []
    else
      ParsedFiles(files, parseNum, n - 1)
      + match ParseExperimentCsv(files[n - 1], parseNum)
        case Success(d) => [d]
        case Failure(_) => []
  }

  /** The experiments created for parsed files, numbered from `first`. */
  function NewExperiments(ds: seq<ExperimentData>, first: int): (es: seq<Experiment>)
    ensures |es| == |ds|
  {
    if ds == [] then []
    else
      var d := ds[|ds| - 1];
      NewExperiments(ds[..|ds| - 1], first) + [Experiment(first + |ds| - 1, d.cellConcentration, d.dilution)]
  }

  /** The doses stored for parsed files whose experiments are numbered from `first`. */
  function NewDoses(catalogue: seq<Reagent>, ds: seq<ExperimentData>, first: int): seq<ReagentValue> {
    if ds == [] then []
    else
      var d := ds[|ds| - 1];
      NewDoses(catalogue, ds[..|ds| - 1], first)
      + ResolvedValues(catalogue, first + |ds| - 1, d.candidates, |d.candidates|)
  }

  /** The consecutive ids `first`, `first + 1`, ... of `count` experiments. */
  function IdRange(first: int, count: nat): (ids: seq<int>)
    ensures |ids| == count
  {
    if count == 0 then [] else IdRange(first, count - 1) + [first + count - 1]
  }

  lemma {:induction false} IdRangeValues(first: int, count: nat)
    ensures forall j :: 0 <= j < count ==> IdRange(first, count)[j] == first + j
  {
    if count > 0 {
      IdRangeValues(first, count - 1);
    }
  }

  /** One more parsed file extends the created experiments and doses by its own. */
  lemma DirectoryStep(ds: seq<ExperimentData>, d: ExperimentData, catalogue: seq<Reagent>, first: int,
                      experiments: seq<Experiment>, doses: seq<ReagentValue>, start: seq<Experiment>, startDoses: seq<ReagentValue>)
    requires experiments == start + NewExperiments(ds, first) + [Experiment(first + |ds|, d.cellConcentration, d.dilution)]
    requires doses == startDoses + NewDoses(catalogue, ds, first) + ResolvedValues(catalogue, first + |ds|, d.candidates, |d.candidates|)
    ensures IdRange(first, |ds|) + [first + |ds|] == IdRange(first, |ds + [d]|)
    ensures experiments == start + NewExperiments(ds + [d], first)
    ensures doses == startDoses + NewDoses(catalogue, ds + [d], first)
  {
    assert (ds + [d])[..|ds|] == ds;
  }

  /** `ingest_directory`: ingests every file in order, skipping those that
      fail, and returns the ids of the experiments it created. */
  method IngestDirectory(db: Database, files: seq<ExperimentFile>, parseNum: string -> Option<real>)
    returns (ids: seq<int>)
    requires db.Valid()
    modifies db`experiments, db`nextExperimentId, db`reagentValues
    ensures db.Valid()
    ensures ids == IdRange(old(db.nextExperimentId), |ParsedFiles(files, parseNum, |files|)|)
    ensures db.nextExperimentId == old(db.nextExperimentId) + |ids|
    ensures db.experiments == old(db.experiments) + NewExperiments(ParsedFiles(files, parseNum, |files|), old(db.nextExperimentId))
    ensures db.reagentValues
      == old(db.reagentValues) + NewDoses(db.reagents, ParsedFiles(files, parseNum, |files|), old(db.nextExperimentId))
  {
    ids := [];
    ghost var first := db.nextExperimentId;
    ghost var startExperiments := db.experiments;
    ghost var startDoses := db.reagentValues;
    ghost var ds: seq<ExperimentData> := [];
    for n := 0 to |files|
      invariant ds == ParsedFiles(files, parseNum, n)
      invariant db.Valid()
      invariant ids == IdRange(first, |ds|)
      invariant db.nextExperimentId == first + |ds|
      invariant db.experiments == startExperiments + NewExperiments(ds, first)
      invariant db.reagentValues == startDoses + NewDoses(db.reagents, ds, first)
    {
      var res := IngestFile(db, files[n], parseNum);
      if res.Success? {
        ghost var d := ParseExperimentCsv(files[n], parseNum).value;
        DirectoryStep(ds, d, db.reagents, first, db.experiments, db.reagentValues, startExperiments, startDoses);
        ids := ids + [res.value];
        ds := ds + [d];
      }
    }
  }

  /** The returned ids are consecutive from the first free id: one per file
      that parsed, in processing order. */
  lemma DirectoryIds(first: int, files: seq<ExperimentFile>, parseNum: string -> Option<real>)
    ensures forall j :: 0 <= j < |ParsedFiles(files, parseNum, |files|)| ==>
      IdRange(first, |ParsedFiles(files, parseNum, |files|)|)[j] == first + j
  {
    IdRangeValues(first, |ParsedFiles(files, parseNum, |files|)|);
  }
}
