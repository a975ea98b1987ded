/**
 * The relational store the ETL writes and the feature extractor reads: the
 * `plate`, `experiment`, `reagent` and `reagent_values` tables, kept as
 * sequences in insertion order, together with the repository operations the
 * services use (bulk insert returning its length, exact-name lookup,
 * filtered reads in stored order).
 */
module Storage {
  import opened Wrappers

  /** One absorbance reading as the plate ETL produces it. */
  datatype PlateRecord = PlateRecord(plateId: nat, rowId: char, columnId: nat, value: real, secondsTimeSample: int)

  /** A stored `plate` row: the record plus the server-assigned `created_at`. */
  datatype PlateRow = PlateRow(plateId: nat, rowId: char, columnId: nat, value: real, secondsTimeSample: int, createdAt: int)

  datatype Experiment = Experiment(id: int, cellConcentration: real, dilution: real)

  /** A catalogue entry of the `reagent` table. */
  datatype Reagent = Reagent(id: int, name: string)

  /** A `reagent_values` row: one dose of a catalogue reagent in an experiment. */
  datatype ReagentValue = ReagentValue(experimentId: int, reagentId: int, value: real, unit: string)

  function Stamp(r: PlateRecord, now: int): PlateRow {
    PlateRow(r.plateId, r.rowId, r.columnId, r.value, r.secondsTimeSample, now)
  }

  /** The rows `bulk_create` stores for a list of records, in list order. */
  function StampAll(rs: seq<PlateRecord>, now: int): (rows: seq<PlateRow>)
    ensures |rows| == |rs|
  {
    if rs == [] then [] else [Stamp(rs[0], now)] + StampAll(rs[1..], now)
  }

  /** Row `i` stored for a list is record `i` of the list, stamped. */
  lemma {:induction false} StampAllIndex(rs: seq<PlateRecord>, now: int)
    ensures forall i :: 0 <= i < |rs| ==> StampAll(rs, now)[i] == Stamp(rs[i], now)
  {
    if rs != [] {
      StampAllIndex(rs[1..], now);
    }
  }

  /** Stamping distributes over concatenation. */
  lemma {:induction false} StampAllAppend(a: seq<PlateRecord>, b: seq<PlateRecord>, now: int)
    ensures StampAll(a + b, now) == StampAll(a, now) + StampAll(b, now)
  {
    if a != [] {
      StampAllAppend(a[1..], b, now);
      assert (a + b)[1..] == a[1..] + b;
    } else {
      assert a + b == b;
    }
  }

  /** Two bulk inserts in a row store what one insert of both lists would. */
  lemma StampedTwice(start: seq<PlateRow>, done: seq<PlateRecord>, added: seq<PlateRecord>,
                     before: seq<PlateRow>, after: seq<PlateRow>, now: int)
    requires before == start + StampAll(done, now)
    requires after == before + StampAll(added, now)
    ensures after == start + StampAll(done + added, now)
  {
    StampAllAppend(done, added, now);
  }

  /** `get_by_name(name)`: the first catalogue entry whose name is exactly `name`. */
  function FindReagent(catalogue: seq<Reagent>, name: string): (r: Option<Reagent>)
    ensures r.Some? ==> r.value in catalogue && r.value.name == name
    ensures r.None? <==> forall c :: c in catalogue ==> c.name != name
  {
    if catalogue == [] then None
    else if catalogue[0].name == name then Some(catalogue[0])
    else FindReagent(catalogue[1..], name)
  }

  /** `get_by_id(id)` on the experiment table. */
  function FindExperiment(experiments: seq<Experiment>, id: int): (r: Option<Experiment>)
    ensures r.Some? ==> r.value in experiments && r.value.id == id
    ensures r.None? <==> forall e :: e in experiments ==> e.id != id
  {
    if experiments == [] then None
    else if experiments[0].id == id then Some(experiments[0])
    else FindExperiment(experiments[1..], id)
  }

  /** `get_by_experiment_id`: the doses of one experiment, in stored order. */
  function ValuesOf(values: seq<ReagentValue>, experimentId: int): (r: seq<ReagentValue>)
    ensures |r| <= |values|
    ensures forall v :: v in r <==> v in values && v.experimentId == experimentId
  {
    if values == [] then []
    else (if values[0].experimentId == experimentId then [values[0]] else []) + ValuesOf(values[1..], experimentId)
  }

  /** `get_by_plate_id`: the readings of one plate, in stored order. */
  function ReadingsOf(plates: seq<PlateRow>, plateId: int): (r: seq<PlateRow>)
    ensures |r| <= |plates|
    ensures forall p :: p in r <==> p in plates && p.plateId == plateId
  {
    if plates == [] then []
    else (if plates[0].plateId == plateId then [plates[0]] else []) + ReadingsOf(plates[1..], plateId)
  }

  class Database {
    var plates: seq<PlateRow>
    var experiments: seq<Experiment>
    /** The id the next inserted experiment receives (autoincrement). */
    var nextExperimentId: int
    var reagents: seq<Reagent>
    var reagentValues: seq<ReagentValue>

    /** Every stored experiment id was handed out before `nextExperimentId`. */
    ghost predicate Valid()
      reads this
    {
      forall e :: e in experiments ==> e.id < nextExperimentId
    }

    constructor (catalogue: seq<Reagent>)
      ensures Valid()
      ensures plates == [] && experiments == [] && reagentValues == []
      ensures reagents == catalogue && nextExperimentId == 1
    {
      plates := [];
      experiments := [];
      nextExperimentId := 1;
      reagents := catalogue;
      reagentValues := [];
    }

    /** `PlateRepository.bulk_create`: appends every record, returns how many. */
    method BulkCreatePlates(data: seq<PlateRecord>, now: int) returns (count: nat)
      modifies this`plates
      ensures plates == old(plates) + StampAll(data, now)
      ensures count == |data|
    {
      plates := plates + StampAll(data, now);
      count := |data|;
    }

    /** `ExperimentRepository.create`: stores a new experiment under a fresh id. */
    method CreateExperiment(cellConcentration: real, dilution: real) returns (e: Experiment)
      requires Valid()
      modifies this`experiments, this`nextExperimentId
      ensures Valid()
      ensures e == Experiment(old(nextExperimentId), cellConcentration, dilution)
      ensures FindExperiment(old(experiments), e.id).None?
      ensures experiments == old(experiments) + [e]
      ensures nextExperimentId == old(nextExperimentId) + 1
    {
      e := Experiment(nextExperimentId, cellConcentration, dilution);
      experiments := experiments + [e];
      nextExperimentId := nextExperimentId + 1;
    }

    /** `ReagentValueRepository.bulk_create`: appends every dose, returns how many. */
    method BulkCreateReagentValues(data: seq<ReagentValue>) returns (count: nat)
      modifies this`reagentValues
      ensures reagentValues == old(reagentValues) + data
      ensures count == |data|
    {
      reagentValues := reagentValues + data;
      count := |data|;
    }
  }
}
