/**
 * The metric trackers of valued_metrics.py: each turns a measurement into a
 * payload and logs one entry on the benchmark; the time-to-accuracy
 * visualizer decodes logged payloads back into accuracy runs.
 */
module ValuedMetrics {
  import opened Wrappers
  import opened Payloads
  import opened HyperparameterTable
  import opened Timestamps

  const ConfusionMatrixType := "confusion-matrix"
  const HyperparametersType := "hyperparameters"
  const TtaType := "tta"
  const LossType := "loss"

  class ConfusionMatrixTracker {
    const benchmark: Benchmark

    constructor (benchmark: Benchmark)
      ensures this.benchmark == benchmark
    {
      this.benchmark := benchmark;
    }

    /** Logs the matrix and its labels as they are given; nothing checks that they fit together. */
    method Track(matrix: Matrix, labels: seq<string>, description: string)
      modifies benchmark
      ensures benchmark.entries
              == old(benchmark.entries) + [Entry(description, ConfusionMatrixType, ConfusionMatrixRecord(matrix, labels), None)]
    {
      var serialized := Serialize(matrix, labels);
      benchmark.Log(description, ConfusionMatrixType, serialized, None);
    }

    function Serialize(matrix: Matrix, labels: seq<string>): Payload
    {
      ConfusionMatrixRecord(matrix, labels)
    }
  }

  class HyperparameterTracker {
    const benchmark: Benchmark
    const description: string
    const hyperparameters: seq<string>
    const target: string
    const lowMeansGood: bool
    /** The rows of `self.df`, in the order they were tracked. */
    var rows: seq<Measurement>

    /** The columns of `self.df`: the hyperparameters, then the target. */
    function Columns(): seq<string>
      reads this
    {
      hyperparameters + [target]
    }

    ghost predicate Valid()
      reads this
    {
      WellFormed(Columns(), rows)
    }

    constructor (benchmark: Benchmark, description: string, hyperparameters: seq<string>, target: string,
                 lowMeansGood: bool := true)
      ensures Valid()
      ensures this.benchmark == benchmark && this.description == description
      ensures this.hyperparameters == hyperparameters && this.target == target && this.lowMeansGood == lowMeansGood
      ensures Columns() == hyperparameters + [target] && rows == []
    {
      this.benchmark := benchmark;
      this.description := description;
      this.hyperparameters := hyperparameters;
      this.target := target;
      this.lowMeansGood := lowMeansGood;
      rows := [];
    }

    /** `__enter__` hands back the tracker itself. */
    method Enter() returns (self: HyperparameterTracker)
      ensures self == this
    {
      return this;
    }

    /**
     * Rejects a measurement that lacks a declared hyperparameter or the target,
     * leaving the table as it was; otherwise appends one row holding the declared
     * keys only.
     */
    method Track(measurement: Measurement) returns (missing: Option<MissingField>)
      requires Valid()
      modifies this
      ensures Valid()
      ensures missing == MissingOf(hyperparameters, target, measurement)
      ensures missing.Some? ==> rows == old(rows)
      ensures missing.None? ==> rows == old(rows) + [Project(measurement, Columns())]
    {
      missing := FindMissing(hyperparameters, target, measurement);
      if missing.Some? {
        return;
      }
      ProjectAccepted(hyperparameters, target, measurement);
      var row := Project(measurement, Columns());
      rows := rows + [row];
    }

    /** Logs the table; there is no guard, so every call logs one more entry. */
    method Close()
      requires Valid()
      modifies benchmark
      ensures benchmark.entries == old(benchmark.entries) + [Entry(description, HyperparametersType, Serialize(), None)]
    {
      var serialized := Serialize();
      benchmark.Log(description, HyperparametersType, serialized, None);
    }

    /** `__exit__` closes the tracker whether or not the block raised. */
    method Exit()
      requires Valid()
      modifies benchmark
      ensures benchmark.entries == old(benchmark.entries) + [Entry(description, HyperparametersType, Serialize(), None)]
    {
      Close();
    }

    /** The logged record: every column of the table has one value per tracked row. */
    function Serialize(): (p: Payload)
      reads this
      requires Valid()
      ensures p.HyperparameterRecord? && p.hyperparameters == hyperparameters && p.target == target
      ensures p.lowMeansGood == lowMeansGood && p.df.Keys == ColumnSet(Columns())
      ensures forall c :: c in p.df ==> |p.df[c]| == |rows|
      ensures FromColumns(p.df, Columns(), |rows|) == rows
    {
      ColumnsRoundTrip(Columns(), rows);
      HyperparameterRecord(hyperparameters, ToColumns(Columns(), rows), target, lowMeansGood)
    }
  }

  /** The rows the accepted measurements become, in order. */
  function ProjectAll(measurements: seq<Measurement>, columns: seq<string>): (rows: seq<Measurement>)
    ensures |rows| == |measurements|
    ensures forall i :: 0 <= i < |rows| ==> rows[i] == Project(measurements[i], columns)
  {
    seq(|measurements|, i requires 0 <= i < |measurements| => Project(measurements[i], columns))
  }

  /**
   * `with tracker: for m in measurements: tracker.track(m)`: measurements are
   * tracked until one is rejected, and leaving the block logs the table exactly
   * once, on the normal and on the failing path alike.
   */
  method WithTracker(tracker: HyperparameterTracker, measurements: seq<Measurement>)
    returns (accepted: nat, missing: Option<MissingField>)
    requires tracker.Valid()
    modifies tracker, tracker.benchmark
    ensures tracker.Valid()
    ensures accepted <= |measurements|
    ensures missing.None? <==> accepted == |measurements|
    ensures forall i :: 0 <= i < accepted ==> MissingOf(tracker.hyperparameters, tracker.target, measurements[i]).None?
    ensures missing.Some? ==> missing == MissingOf(tracker.hyperparameters, tracker.target, measurements[accepted])
    ensures tracker.rows == old(tracker.rows) + ProjectAll(measurements[..accepted], tracker.Columns())
    ensures tracker.benchmark.entries
            == old(tracker.benchmark.entries)
               + [Entry(tracker.description, HyperparametersType, tracker.Serialize(), None)]
    ensures forall c :: c in tracker.Serialize().df ==> |tracker.Serialize().df[c]| == |old(tracker.rows)| + accepted
  {
    var t := tracker.Enter();
    accepted, missing := 0, None;
    while accepted < |measurements|
      invariant t == tracker && t.Valid() && accepted <= |measurements| && missing.None?
      invariant t.benchmark.entries == old(tracker.benchmark.entries)
      invariant forall i :: 0 <= i < accepted ==> MissingOf(t.hyperparameters, t.target, measurements[i]).None?
      invariant t.rows == old(tracker.rows) + ProjectAll(measurements[..accepted], t.Columns())
    {
      missing := t.Track(measurements[accepted]);
      if missing.Some? {
        break;
      }
      assert measurements[..accepted + 1] == measurements[..accepted] + [measurements[accepted]];
      accepted := accepted + 1;
    }
    t.Exit();
  }

  class TTATracker {
    const benchmark: Benchmark

    constructor (benchmark: Benchmark)
      ensures this.benchmark == benchmark
    {
      this.benchmark := benchmark;
    }

    method Track(accuracies: seq<real>, description: string)
      modifies benchmark
      ensures benchmark.entries
              == old(benchmark.entries) + [Entry(description, TtaType, ValueSequence(accuracies), Some("accuracy"))]
    {
      var serialized := Serialize(accuracies);
      benchmark.Log(description, TtaType, serialized, Some("accuracy"));
    }

    /** The bare list of accuracies, which the visualizer below cannot read back. */
    function Serialize(accuracies: seq<real>): (p: Payload)
      ensures p.ValueSequence? && p.values == accuracies
      ensures DecodeAccuracies(p) == Err(NotAMapping)
    {
      ValueSequence(accuracies)
    }
  }

  class LossTracker {
    const benchmark: Benchmark

    constructor (benchmark: Benchmark)
      ensures this.benchmark == benchmark
    {
      this.benchmark := benchmark;
    }

    method Track(lossValues: seq<real>, description: string)
      modifies benchmark
      ensures benchmark.entries
              == old(benchmark.entries) + [Entry(description, LossType, ValueSequence(lossValues), Some("loss"))]
    {
      var serialized := Serialize(lossValues);
      benchmark.Log(description, LossType, serialized, Some("loss"));
    }

    function Serialize(lossValues: seq<real>): Payload
    {
      ValueSequence(lossValues)
    }
  }

  /**
   * Why `pickle.loads(values)['accuracies']` fails: a list cannot be indexed by
   * a string (TypeError), a dict may lack the key (KeyError).
   */
  datatype DecodeError = NotAMapping | MissingKey(key: string)

  /** `pickle.loads(values)['accuracies']`. */
  function DecodeAccuracies(p: Payload): (r: Result<seq<real>, DecodeError>)
    ensures r.Ok? <==> DictKeys(p).Some? && "accuracies" in DictKeys(p).value
    ensures r.Err? && DictKeys(p).None? ==> r.error == NotAMapping
    ensures r.Err? && DictKeys(p).Some? ==> r.error == MissingKey("accuracies")
  {
    match p
    case AccuracyRecord(accuracies) => Ok(accuracies)
    case ValueSequence(_) => Err(NotAMapping)
    case _ => Err(MissingKey("accuracies"))
  }

  /** The runs of a list of payloads, or the error of the first one that does not decode. */
  function DecodeAll(payloads: seq<Payload>): Result<seq<seq<real>>, DecodeError>
  {
    if payloads == [] then Ok([])
    else
      match DecodeAll(payloads[..|payloads| - 1])
      case Err(e) => Err(e)
      case Ok(runs) =>
        match DecodeAccuracies(payloads[|payloads| - 1])
        case Err(e) => Err(e)
        case Ok(run) => Ok(runs + [run])
  }

  /** Decoding succeeds exactly when every payload decodes, and then keeps one run per payload, in order. */
  lemma {:induction false} DecodeAllOk(payloads: seq<Payload>)
    ensures DecodeAll(payloads).Ok? <==> forall i :: 0 <= i < |payloads| ==> DecodeAccuracies(payloads[i]).Ok?
    ensures DecodeAll(payloads).Ok? ==>
              |DecodeAll(payloads).value| == |payloads|
              && forall i :: 0 <= i < |payloads| ==> DecodeAll(payloads).value[i] == DecodeAccuracies(payloads[i]).value
  {
    if payloads != [] {
      var init := payloads[..|payloads| - 1];
      DecodeAllOk(init);
      assert forall i :: 0 <= i < |init| ==> init[i] == payloads[i];
    }
  }

  /** A failure is the error of the first payload that does not decode: no run is skipped silently. */
  lemma {:induction false} DecodeAllErr(payloads: seq<Payload>)
    requires DecodeAll(payloads).Err?
    ensures exists k :: 0 <= k < |payloads| && DecodeAccuracies(payloads[k]) == Err(DecodeAll(payloads).error)
                        && forall j :: 0 <= j < k ==> DecodeAccuracies(payloads[j]).Ok?
  {
    var init := payloads[..|payloads| - 1];
    assert forall i :: 0 <= i < |init| ==> init[i] == payloads[i];
    if DecodeAll(init).Err? {
      DecodeAllErr(init);
      var k :| 0 <= k < |init| && DecodeAccuracies(init[k]) == Err(DecodeAll(init).error)
               && forall j :: 0 <= j < k ==> DecodeAccuracies(init[j]).Ok?;
      assert DecodeAccuracies(payloads[k]) == Err(DecodeAll(payloads).error);
    } else {
      DecodeAllOk(init);
      var k := |payloads| - 1;
      assert DecodeAccuracies(payloads[k]) == Err(DecodeAll(payloads).error);
    }
  }

  /** The loop of `TTAVisualizer.__init__`, appending one decoded run per payload. */
  method DecodeRuns(serialized: seq<Payload>) returns (r: Result<seq<seq<real>>, DecodeError>)
    ensures r == DecodeAll(serialized)
  {
    var runs: seq<seq<real>> := [];
    for i := 0 to |serialized|
      invariant DecodeAll(serialized[..i]) == Ok(runs)
    {
      assert serialized[..i + 1][..i] == serialized[..i];
      var decoded := DecodeAccuracies(serialized[i]);
      if decoded.Err? {
        DecodeAllPrefixErr(serialized, i + 1);
        return Err(decoded.error);
      }
      runs := runs + [decoded.value];
    }
    assert serialized[..|serialized|] == serialized;
    return Ok(runs);
  }

  /** Once a prefix fails to decode, so does the whole list, with the same error. */
  lemma {:induction false} DecodeAllPrefixErr(payloads: seq<Payload>, n: nat)
    requires n <= |payloads| && DecodeAll(payloads[..n]).Err?
    ensures DecodeAll(payloads) == DecodeAll(payloads[..n])
  {
    if n < |payloads| {
      var init := payloads[..|payloads| - 1];
      assert init[..n] == payloads[..n];
      DecodeAllPrefixErr(init, n);
    } else {
      assert payloads[..n] == payloads;
    }
  }

  /** The x-values of one run: epochs `1..n`. */
  function EpochAxis(n: nat): seq<int>
  {
    if n == 0 then [] else EpochAxis(n - 1) + [n]
  }

  lemma {:induction false} EpochAxisCounts(n: nat)
    ensures |EpochAxis(n)| == n
    ensures forall i :: 0 <= i < n ==> EpochAxis(n)[i] == i + 1
  {
    if n > 0 {
      EpochAxisCounts(n - 1);
    }
  }

  /** The legend label of a run. */
  function RunLabel(start: Timestamp): string
  {
    "Run from " + IsoFormat(start)
  }

  /** Each label is "Run from " followed by text that reads back as its start, to the second. */
  lemma RunLabelNamesStart(start: Timestamp)
    ensures |RunLabel(start)| == 28 && RunLabel(start)[..9] == "Run from "
    ensures ParseIsoFormat(RunLabel(start)[9..]) == Some(start.(microsecond := 0))
  {
    assert RunLabel(start)[9..] == IsoFormat(start);
    IsoFormatRoundTrip(start);
  }

  /** What one plotted line shows: x-values, y-values and its legend label. */
  datatype Series = Series(xValues: seq<int>, yValues: seq<real>, legend: string)

  /** `starts[run]` raising IndexError: fewer start times than runs. */
  datatype VisualizeError = MissingStart(run: nat)

  class TTAVisualizer {
    var accuracies: seq<seq<real>>

    constructor FromRuns(runs: seq<seq<real>>)
      ensures accuracies == runs
    {
      accuracies := runs;
    }

    /**
     * One line per run in the order the payloads came, x-values `1..len(run)`,
     * labelled with that run's start; fails on the first run without a start.
     */
    method Visualize(starts: seq<Timestamp>) returns (r: Result<seq<Series>, VisualizeError>)
      ensures r.Err? <==> |starts| < |accuracies|
      ensures r.Err? ==> r.error == MissingStart(|starts|)
      ensures r.Ok? ==> |r.value| == |accuracies|
      ensures r.Ok? ==> forall k :: 0 <= k < |accuracies| ==>
                          r.value[k] == Series(EpochAxis(|accuracies[k]|), accuracies[k], RunLabel(starts[k]))
    {
      var series: seq<Series> := [];
      for run := 0 to |accuracies|
        invariant |series| == run && run <= |starts|
        invariant forall k :: 0 <= k < run ==>
                    series[k] == Series(EpochAxis(|accuracies[k]|), accuracies[k], RunLabel(starts[k]))
      {
        var xValues: seq<int> := [];
        for i := 0 to |accuracies[run]|
          invariant xValues == EpochAxis(i)
        {
          xValues := xValues + [i + 1];
        }
        if run >= |starts| {
          return Err(MissingStart(run));
        }
        series := series + [Series(xValues, accuracies[run], RunLabel(starts[run]))];
      }
      return Ok(series);
    }
  }

  /** `TTAVisualizer(serialized_bytes)`: fails, as a whole, on the first payload that does not decode. */
  method NewTTAVisualizer(serialized: seq<Payload>) returns (r: Result<TTAVisualizer, DecodeError>)
    ensures r.Ok? <==> DecodeAll(serialized).Ok?
    ensures r.Ok? ==> fresh(r.value) && r.value.accuracies == DecodeAll(serialized).value
    ensures r.Err? ==> r.error == DecodeAll(serialized).error
  {
    var runs := DecodeRuns(serialized);
    if runs.Err? {
      return Err(runs.error);
    }
    var visualizer := new TTAVisualizer.FromRuns(runs.value);
    return Ok(visualizer);
  }
}
