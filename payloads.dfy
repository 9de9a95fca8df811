/**
 * What the trackers hand to the benchmark: the payload objects they would
 * pickle, and the append-only log that receives them.
 */
module Payloads {
  import opened Wrappers

  /** One cell of a hyperparameter measurement; the tracker accepts any Python value. */
  datatype Scalar = Num(x: real) | Int(i: int) | Text(s: string) | Flag(b: bool)

  /** Rows of a confusion matrix: axis 0 is the predicted class, axis 1 the actual one. */
  type Matrix = seq<seq<real>>

  /**
   * The object a payload's bytes unpickle to. The two record kinds are Python
   * dicts; ValueSequence is a bare Python list. AccuracyRecord is a dict with an
   * `accuracies` entry: the shape the time-to-accuracy visualizer reads, which
   * no tracker in valued_metrics.py writes.
   */
  datatype Payload =
    | ConfusionMatrixRecord(matrix: Matrix, labels: seq<string>)
    | HyperparameterRecord(hyperparameters: seq<string>, df: map<string, seq<Scalar>>,
                           target: string, lowMeansGood: bool)
    | ValueSequence(values: seq<real>)
    | AccuracyRecord(accuracies: seq<real>)

  /** The keys of a dict payload; None for a list payload, which has no keys. */
  function DictKeys(p: Payload): (keys: Option<set<string>>)
    ensures keys.None? <==> p.ValueSequence?
  {
    match p
    case ConfusionMatrixRecord(_, _) => Some({"matrix", "labels"})
    case HyperparameterRecord(_, _, _, _) => Some({"hyperparameters", "df", "target", "low_means_good"})
    case ValueSequence(_) => None
    case AccuracyRecord(_) => Some({"accuracies"})
  }

  /** One call of `benchmark.log(description, measure_type, payload, unit=...)`. */
  datatype Entry = Entry(description: string, measureType: string, payload: Payload, unit: Option<string>)

  /** The benchmark sink: everything logged so far, oldest first. */
  class Benchmark {
    var entries: seq<Entry>

    constructor ()
      ensures entries == []
    {
      entries := [];
    }

    method Log(description: string, measureType: string, payload: Payload, unit: Option<string>)
      modifies this
      ensures entries == old(entries) + [Entry(description, measureType, payload, unit)]
    {
      entries := entries + [Entry(description, measureType, payload, unit)];
    }
  }
}
