/**
 * `FeatureExtractor`: the feature matrix of one experiment on one plate.
 *
 * One output row per plate reading, in the order the store returns them.
 * Features 1 to 15 are the experiment's dose values ordered by reagent id
 * (zero where there are fewer doses, later doses ignored); feature 16 is
 * `cell_concentration / (dilution * k)` for the 1-based row number `k`.
 */
module FeatureExtractor {
  import opened Wrappers
  import opened Strings
  import opened Sorting
  import opened Storage

  /** How many dose features a row carries. */
  const DoseSlots: nat := 15

  datatype FeatureError =
    | ExperimentNotFound  // no experiment with the requested id
    | NoPlateData         // the plate has no stored readings

  /** One output row. `feature16` is None where the division by a zero
      dilution gives a non-finite float. */
  datatype FeatureRow = FeatureRow(
    doseFeatures: seq<real>, feature16: Option<real>,
    plateId: nat, rowId: char, columnId: nat, secondsTimeSample: int, absorbance: real, createdAt: int)

  /** The returned table: its column names, then its rows. */
  datatype Frame = Frame(columns: seq<string>, rows: seq<FeatureRow>)

  /** What `get_features_summary` reports (the per-column statistics are left out). */
  datatype FeatureSummary = FeatureSummary(
    numRecords: nat, numFeatures: nat, plateId: int, experimentId: int,
    featureColumns: seq<string>, shape: (nat, nat))

  // ---------------------------------------------------------------------------
  // Column layout
  // ---------------------------------------------------------------------------

  function FeatureName(i: nat): string {
    "feature_" + NatToString(i)
  }

  /** `feature_1` .. `feature_n`. */
  function FeatureNames(n: nat): (names: seq<string>)
    ensures |names| == n
  {
    if n == 0 then [] else FeatureNames(n - 1) + [FeatureName(n)]
  }

  const PassthroughColumns: seq<string> :=
    ["plate_id", "row_id", "column_id", "seconds_time_sample", "absorbance", "created_at"]

  /** The final column order: the sixteen features, then the reading's own columns. */
  function ColumnNames(): seq<string> {
    FeatureNames(16) + PassthroughColumns
  }

  lemma {:induction false} FeatureNamesAt(n: nat)
    ensures forall i :: 0 <= i < n ==> FeatureNames(n)[i] == FeatureName(i + 1)
  {
    if n > 0 {
      FeatureNamesAt(n - 1);
    }
  }

  /** Distinct numbers give distinct feature names. */
  lemma FeatureNameInjective(i: nat, j: nat)
    requires FeatureName(i) == FeatureName(j)
    ensures i == j
  {
    var p := "feature_";
    assert NatToString(i) == FeatureName(i)[|p|..];
    assert NatToString(j) == FeatureName(j)[|p|..];
    DigitsRoundTrip(i);
    DigitsRoundTrip(j);
  }

  /** Twenty-two columns: `feature_1` .. `feature_16` (pairwise distinct),
      then the six reading columns; the helper `row_index` is not among them. */
  lemma ColumnLayout()
    ensures |ColumnNames()| == 22
    ensures forall i :: 0 <= i < 16 ==> ColumnNames()[i] == FeatureName(i + 1)
    ensures forall i, j :: 0 <= i < j < 16 ==> ColumnNames()[i] != ColumnNames()[j]
    ensures ColumnNames()[16..] == PassthroughColumns
    ensures "row_index" !in ColumnNames()
  {
    var cols := ColumnNames();
    FeatureNamesAt(16);
    assert forall i :: 0 <= i < 16 ==> cols[i] == FeatureNames(16)[i];
    forall i, j | 0 <= i < j < 16 ensures cols[i] != cols[j] {
      if cols[i] == cols[j] {
        FeatureNameInjective(i + 1, j + 1);
      }
    }
    forall i | 0 <= i < 16 ensures cols[i] != "row_index" {
      assert cols[i][0] == 'f';
    }
    assert cols[16..] == PassthroughColumns;
  }

  /** `[col for col in columns if col.startswith('feature_')]` */
  function FeatureColumnsOf(columns: seq<string>): (r: seq<string>)
    ensures |r| <= |columns|
  {
    if columns == [] then []
    else
      var last := columns[|columns| - 1];
      FeatureColumnsOf(columns[..|columns| - 1]) + (if StartsWith(last, "feature_") then [last] else [])
  }

  lemma {:induction false} FeatureColumnsOfNames(n: nat)
    ensures FeatureColumnsOf(FeatureNames(n)) == FeatureNames(n)
  {
    if n > 0 {
      FeatureColumnsOfNames(n - 1);
      var names := FeatureNames(n);
      assert names[..n - 1] == FeatureNames(n - 1);
      assert StartsWith(FeatureName(n), "feature_");
    }
  }

  lemma FeatureColumnsOfSkip(a: seq<string>, x: string)
    requires !StartsWith(x, "feature_")
    ensures FeatureColumnsOf(a + [x]) == FeatureColumnsOf(a)
  {
    assert (a + [x])[..|a|] == a;
  }

  lemma {:induction false} FeatureColumnsOfAppend(a: seq<string>, b: seq<string>)
    requires forall i :: 0 <= i < |b| ==> !StartsWith(b[i], "feature_")
    ensures FeatureColumnsOf(a + b) == FeatureColumnsOf(a)
    decreases |b|
  {
    if b == [] {
      assert a + b == a;
    } else {
      var init := b[..|b| - 1];
      FeatureColumnsOfAppend(a, init);
      assert a + b == (a + init) + [b[|b| - 1]];
      FeatureColumnsOfSkip(a + init, b[|b| - 1]);
    }
  }

  /** The summary's feature columns are exactly `feature_1` .. `feature_16`. */
  lemma FeatureColumnsOfLayout()
    ensures FeatureColumnsOf(ColumnNames()) == FeatureNames(16)
  {
    forall i | 0 <= i < |PassthroughColumns| ensures !StartsWith(PassthroughColumns[i], "feature_") {
      assert PassthroughColumns[i][0] != 'f';
    }
    FeatureColumnsOfAppend(FeatureNames(16), PassthroughColumns);
    FeatureColumnsOfNames(16);
  }

  // ---------------------------------------------------------------------------
  // get_features_dataframe: what it computes, as functions
  // ---------------------------------------------------------------------------

  /** `key=lambda rv: rv.reagent_id` */
  predicate ByReagentId(a: ReagentValue, b: ReagentValue) {
    a.reagentId <= b.reagentId
  }

  lemma ByReagentIdPreorder()
    ensures TotalPreorder(ByReagentId)
  {
  }

  /** The experiment's doses, stably sorted by reagent id. */
  function SortedDoses(values: seq<ReagentValue>, experimentId: int): seq<ReagentValue> {
    Sort(ValuesOf(values, experimentId), ByReagentId)
  }

  /** The value of dose column `j` (1-based) for doses in sorted order. */
  function Slot(sorted: seq<ReagentValue>, j: nat): real
    requires 1 <= j <= DoseSlots
  {
    if j <= |sorted| then sorted[j - 1].value else 0.0
  }

  function DoseFeatures(sorted: seq<ReagentValue>): (f: seq<real>)
    ensures |f| == DoseSlots
  {
    seq(DoseSlots, i requires 0 <= i < DoseSlots => Slot(sorted, i + 1))
  }

  /** `cell_concentration / (dilution * k)`; None when the divisor is zero. */
  function Feature16(cellConcentration: real, dilution: real, k: nat): Option<real>
    requires k >= 1
  {
    if dilution == 0.0 then None else Some(cellConcentration / (dilution * k as real))
  }

  function MakeRow(reading: PlateRow, doses: seq<real>, e: Experiment, k: nat): FeatureRow
    requires k >= 1
  {
    FeatureRow(doses, Feature16(e.cellConcentration, e.dilution, k),
               reading.plateId, reading.rowId, reading.columnId, reading.secondsTimeSample,
               reading.value, reading.createdAt)
  }

  /** The rows for the first `n` readings. */
  function RowsFor(readings: seq<PlateRow>, doses: seq<real>, e: Experiment, n: nat): (rows: seq<FeatureRow>)
    requires n <= |readings|
    ensures |rows| == n
  {
    if n == 0 then [] else RowsFor(readings, doses, e, n - 1) + [MakeRow(readings[n - 1], doses, e, n)]
  }

  /** What `get_features_dataframe` returns or raises. */
  function FeatureTable(experiments: seq<Experiment>, values: seq<ReagentValue>, plates: seq<PlateRow>,
                        experimentId: int, plateId: int): Result<Frame, FeatureError>
  {
    match FindExperiment(experiments, experimentId)
    case None => Failure(ExperimentNotFound)
    case Some(e) =>
      var readings := ReadingsOf(plates, plateId);
      if readings == [] then Failure(NoPlateData)
      else Success(Frame(ColumnNames(), RowsFor(readings, DoseFeatures(SortedDoses(values, experimentId)), e, |readings|)))
  }

  // ---------------------------------------------------------------------------
  // get_features_dataframe and get_features_summary: their loops
  // ---------------------------------------------------------------------------

  /** The two column loops: dose `idx` goes to column `idx` while `idx <= 15`,
      then every column 1..15 still absent is set to 0.0. */
  method FillDoseColumns(sorted: seq<ReagentValue>) returns (columns: map<nat, real>)
    ensures forall j :: j in columns <==> 1 <= j <= DoseSlots
    ensures forall j :: 1 <= j <= DoseSlots ==> columns[j] == Slot(sorted, j)
  {
    columns := map[];
    for i := 0 to |sorted|
      invariant forall j :: j in columns <==> 1 <= j <= i && j <= DoseSlots
      invariant forall j :: j in columns ==> columns[j] == sorted[j - 1].value
    {
      var idx := i + 1;
      if idx <= DoseSlots {
        columns := columns[idx := sorted[i].value];
      }
    }
    for idx := 1 to DoseSlots + 1
      invariant forall j :: j in columns <==> (1 <= j <= |sorted| && j <= DoseSlots) || 1 <= j < idx
      invariant forall j :: j in columns ==> columns[j] == Slot(sorted, j)
    {
      if idx !in columns {
        columns := columns[idx := 0.0];
      }
    }
  }

  /** One row per reading, the row number counted from 1. */
  method BuildRows(readings: seq<PlateRow>, doses: seq<real>, e: Experiment) returns (rows: seq<FeatureRow>)
    ensures rows == RowsFor(readings, doses, e, |readings|)
  {
    rows := [];
    for n := 0 to |readings|
      invariant rows == RowsFor(readings, doses, e, n)
    {
      rows := rows + [MakeRow(readings[n], doses, e, n + 1)];
    }
  }

  /** `get_features_dataframe(experiment_id, plate_id)` */
  method GetFeaturesDataframe(db: Database, experimentId: int, plateId: int) returns (res: Result<Frame, FeatureError>)
    ensures res == FeatureTable(db.experiments, db.reagentValues, db.plates, experimentId, plateId)
  {
    var experiment := FindExperiment(db.experiments, experimentId);
    if experiment.None? {
      return Failure(ExperimentNotFound);
    }
    var sorted := Sort(ValuesOf(db.reagentValues, experimentId), ByReagentId);
    var readings := ReadingsOf(db.plates, plateId);
    if |readings| == 0 {
      return Failure(NoPlateData);
    }
    var columns := FillDoseColumns(sorted);
    var doses := seq(DoseSlots, i requires 0 <= i < DoseSlots => columns[i + 1]);
    assert doses == DoseFeatures(sorted);
    var rows := BuildRows(readings, doses, experiment.value);
    return Success(Frame(ColumnNames(), rows));
  }

  /** `get_features_summary(experiment_id, plate_id)`, without the statistics. */
  method GetFeaturesSummary(db: Database, experimentId: int, plateId: int) returns (res: Result<FeatureSummary, FeatureError>)
    ensures res.Failure? <==> FeatureTable(db.experiments, db.reagentValues, db.plates, experimentId, plateId).Failure?
    ensures res.Failure? ==> res.error == FeatureTable(db.experiments, db.reagentValues, db.plates, experimentId, plateId).error
    ensures res.Success? ==>
      && res.value.numRecords == |ReadingsOf(db.plates, plateId)|
      && res.value.numFeatures == 16
      && res.value.plateId == plateId
      && res.value.experimentId == experimentId
      && res.value.featureColumns == FeatureNames(16)
      && res.value.shape == (|ReadingsOf(db.plates, plateId)|, 22)
  {
    var frame := GetFeaturesDataframe(db, experimentId, plateId);
    if frame.Failure? {
      return Failure(frame.error);
    }
    var df := frame.value;
    FeatureColumnsOfLayout();
    ColumnLayout();
    res := Success(FeatureSummary(|df.rows|, 16, plateId, experimentId, FeatureColumnsOf(df.columns),
                                  (|df.rows|, |df.columns|)));
  }

  // ---------------------------------------------------------------------------
  // What the table means
  // ---------------------------------------------------------------------------

  /** The experiment is looked up first; only then does an empty plate raise. */
  lemma FeatureErrors(experiments: seq<Experiment>, values: seq<ReagentValue>, plates: seq<PlateRow>,
                      experimentId: int, plateId: int)
    ensures FeatureTable(experiments, values, plates, experimentId, plateId) == Failure(ExperimentNotFound)
      <==> forall e :: e in experiments ==> e.id != experimentId
    ensures FeatureTable(experiments, values, plates, experimentId, plateId) == Failure(NoPlateData)
      <==> (exists e :: e in experiments && e.id == experimentId) && forall p :: p in plates ==> p.plateId != plateId
  {
    var readings := ReadingsOf(plates, plateId);
    if readings != [] {
      assert readings[0] in readings;
    }
  }

  lemma {:induction false} RowsForAt(readings: seq<PlateRow>, doses: seq<real>, e: Experiment, n: nat)
    requires n <= |readings|
    ensures forall k :: 0 <= k < n ==> RowsFor(readings, doses, e, n)[k] == MakeRow(readings[k], doses, e, k + 1)
  {
    if n > 0 {
      RowsForAt(readings, doses, e, n - 1);
    }
  }

  /** One row per reading of the plate, in stored order; the reading's own
      fields are copied unchanged (its value as `absorbance`), every row has
      the same dose features, and row `k` (from 1) has feature 16 for `k`. */
  lemma RowPerReading(experiments: seq<Experiment>, values: seq<ReagentValue>, plates: seq<PlateRow>,
                      experimentId: int, plateId: int)
    requires FeatureTable(experiments, values, plates, experimentId, plateId).Success?
    ensures var frame := FeatureTable(experiments, values, plates, experimentId, plateId).value;
      var readings := ReadingsOf(plates, plateId);
      var e := FindExperiment(experiments, experimentId).value;
      && frame.columns == ColumnNames()
      && |frame.rows| == |readings|
      && forall k :: 0 <= k < |readings| ==>
        && frame.rows[k].plateId == readings[k].plateId
        && frame.rows[k].rowId == readings[k].rowId
        && frame.rows[k].columnId == readings[k].columnId
        && frame.rows[k].secondsTimeSample == readings[k].secondsTimeSample
        && frame.rows[k].absorbance == readings[k].value
        && frame.rows[k].createdAt == readings[k].createdAt
        && frame.rows[k].doseFeatures == DoseFeatures(SortedDoses(values, experimentId))
        && frame.rows[k].feature16 == Feature16(e.cellConcentration, e.dilution, k + 1)
  {
    var readings := ReadingsOf(plates, plateId);
    var e := FindExperiment(experiments, experimentId).value;
    RowsForAt(readings, DoseFeatures(SortedDoses(values, experimentId)), e, |readings|);
  }

  /** Dose column `i` holds the `i`-th dose by reagent id while there are
      doses left, and 0.0 after that. */
  lemma DoseFeaturesMeaning(sorted: seq<ReagentValue>)
    ensures forall i :: 0 <= i < DoseSlots && i < |sorted| ==> DoseFeatures(sorted)[i] == sorted[i].value
    ensures forall i :: |sorted| <= i < DoseSlots ==> DoseFeatures(sorted)[i] == 0.0
  {
  }

  /** Doses after the fifteenth change nothing. */
  lemma LaterDosesIgnored(sorted: seq<ReagentValue>, extra: seq<ReagentValue>)
    requires |sorted| >= DoseSlots
    ensures DoseFeatures(sorted + extra) == DoseFeatures(sorted)
  {
    assert forall i :: 0 <= i < DoseSlots ==> (sorted + extra)[i] == sorted[i];
  }

  /** The doses used are exactly the experiment's, ordered by reagent id,
      doses with the same reagent id kept in stored order. */
  lemma SortedDosesMeaning(values: seq<ReagentValue>, experimentId: int, k: ReagentValue)
    ensures Sorted(SortedDoses(values, experimentId), ByReagentId)
    ensures multiset(SortedDoses(values, experimentId)) == multiset(ValuesOf(values, experimentId))
    ensures forall v :: v in SortedDoses(values, experimentId) ==> v in values && v.experimentId == experimentId
    ensures SameKey(SortedDoses(values, experimentId), ByReagentId, k) == SameKey(ValuesOf(values, experimentId), ByReagentId, k)
  {
    ByReagentIdPreorder();
    SortSorted(ValuesOf(values, experimentId), ByReagentId);
    SortStable(ValuesOf(values, experimentId), ByReagentId, k);
    forall v | v in SortedDoses(values, experimentId) ensures v in values && v.experimentId == experimentId {
      assert v in multiset(ValuesOf(values, experimentId));
    }
  }

  /** Feature 16 undoes to the cell concentration, and is missing exactly
      when the dilution is zero. */
  lemma Feature16Meaning(cellConcentration: real, dilution: real, k: nat)
    requires k >= 1
    ensures Feature16(cellConcentration, dilution, k).None? <==> dilution == 0.0
    ensures Feature16(cellConcentration, dilution, k).Some? ==>
      Feature16(cellConcentration, dilution, k).value * (dilution * k as real) == cellConcentration
  {
  }
}
