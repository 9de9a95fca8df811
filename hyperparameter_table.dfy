/**
 * The table a HyperparameterTracker fills: which measurements it accepts,
 * the row it keeps of each, and the column-wise dict (`to_dict(orient='list')`)
 * it serialises.
 */
module HyperparameterTable {
  import opened Wrappers
  import opened Payloads

  /** A measurement dict: parameter or target name to value. */
  type Measurement = map<string, Scalar>

  /** The assertion `track` fails: a declared hyperparameter, or the target, is absent. */
  datatype MissingField = MissingHyperparameter(name: string) | MissingTarget(name: string)

  /** The first failing assertion of `track`: hyperparameters in declared order, then the target. */
  function MissingOf(hyperparameters: seq<string>, target: string, m: Measurement): Option<MissingField>
  {
    if hyperparameters == [] then
      if target in m then None else Some(MissingTarget(target))
    else if hyperparameters[0] !in m then Some(MissingHyperparameter(hyperparameters[0]))
    else MissingOf(hyperparameters[1..], target, m)
  }

  /** A measurement is accepted exactly when every declared hyperparameter and the target are present. */
  lemma {:induction false} MissingOfNone(hyperparameters: seq<string>, target: string, m: Measurement)
    ensures MissingOf(hyperparameters, target, m) == None
            <==> (forall i :: 0 <= i < |hyperparameters| ==> hyperparameters[i] in m) && target in m
  {
    if hyperparameters != [] {
      MissingOfNone(hyperparameters[1..], target, m);
      assert forall i :: 1 <= i < |hyperparameters| ==> hyperparameters[i] == hyperparameters[1..][i - 1];
    }
  }

  /** A hyperparameter is reported exactly when it is the first declared one that is absent. */
  lemma {:induction false} MissingOfFirstHyperparameter(hyperparameters: seq<string>, target: string,
                                                        m: Measurement, p: string)
    ensures MissingOf(hyperparameters, target, m) == Some(MissingHyperparameter(p))
            <==> exists i :: 0 <= i < |hyperparameters| && hyperparameters[i] == p && p !in m
                             && forall j :: 0 <= j < i ==> hyperparameters[j] in m
  {
    if hyperparameters != [] {
      MissingOfFirstHyperparameter(hyperparameters[1..], target, m, p);
      var tail := hyperparameters[1..];
      if hyperparameters[0] in m {
        if exists i :: 0 <= i < |hyperparameters| && hyperparameters[i] == p && p !in m
                       && forall j :: 0 <= j < i ==> hyperparameters[j] in m {
          var i :| 0 <= i < |hyperparameters| && hyperparameters[i] == p && p !in m
                   && forall j :: 0 <= j < i ==> hyperparameters[j] in m;
          assert i > 0;
          assert tail[i - 1] == p && forall j :: 0 <= j < i - 1 ==> tail[j] == hyperparameters[j + 1];
        }
        if exists i :: 0 <= i < |tail| && tail[i] == p && p !in m && forall j :: 0 <= j < i ==> tail[j] in m {
          var i :| 0 <= i < |tail| && tail[i] == p && p !in m && forall j :: 0 <= j < i ==> tail[j] in m;
          assert hyperparameters[i + 1] == p;
          assert forall j :: 1 <= j < i + 1 ==> hyperparameters[j] == tail[j - 1];
        }
      }
    }
  }

  /** The target is reported exactly when every hyperparameter is present and the target is not. */
  lemma {:induction false} MissingOfTarget(hyperparameters: seq<string>, target: string, m: Measurement, t: string)
    ensures MissingOf(hyperparameters, target, m) == Some(MissingTarget(t))
            <==> t == target && target !in m && forall i :: 0 <= i < |hyperparameters| ==> hyperparameters[i] in m
  {
    if hyperparameters != [] {
      MissingOfTarget(hyperparameters[1..], target, m, t);
      assert forall i :: 1 <= i < |hyperparameters| ==> hyperparameters[i] == hyperparameters[1..][i - 1];
    }
  }

  /** The loop of assertions at the head of `track`. */
  method FindMissing(hyperparameters: seq<string>, target: string, measurement: Measurement)
    returns (missing: Option<MissingField>)
    ensures missing == MissingOf(hyperparameters, target, measurement)
  {
    for i := 0 to |hyperparameters|
      invariant MissingOf(hyperparameters, target, measurement)
                == MissingOf(hyperparameters[i..], target, measurement)
    {
      if hyperparameters[i] !in measurement {
        return Some(MissingHyperparameter(hyperparameters[i]));
      }
      assert hyperparameters[i..][1..] == hyperparameters[i + 1..];
    }
    if target !in measurement {
      return Some(MissingTarget(target));
    }
    return None;
  }

  function ColumnSet(columns: seq<string>): set<string>
  {
    set c | c in columns
  }

  /** `{k: v for k, v in measurement.items() if k in columns}`. */
  function Project(m: Measurement, columns: seq<string>): Measurement
  {
    map k | k in m && k in columns :: m[k]
  }

  /** An accepted measurement becomes a row holding exactly the declared columns, with their values. */
  lemma ProjectAccepted(hyperparameters: seq<string>, target: string, m: Measurement)
    requires MissingOf(hyperparameters, target, m) == None
    ensures Project(m, hyperparameters + [target]).Keys == ColumnSet(hyperparameters + [target])
    ensures forall k :: k in Project(m, hyperparameters + [target]) ==> Project(m, hyperparameters + [target])[k] == m[k]
    ensures forall k :: k in m && k !in hyperparameters && k != target ==> k !in Project(m, hyperparameters + [target])
  {
    MissingOfNone(hyperparameters, target, m);
    var columns := hyperparameters + [target];
    forall c | c in ColumnSet(columns) ensures c in m {
      var i :| 0 <= i < |columns| && columns[i] == c;
      if i < |hyperparameters| { assert hyperparameters[i] == c; }
    }
  }

  /** Every row holds exactly the table's columns. */
  ghost predicate WellFormed(columns: seq<string>, rows: seq<Measurement>)
  {
    forall i :: 0 <= i < |rows| ==> rows[i].Keys == ColumnSet(columns)
  }

  /** One column of the table, top row first. */
  function Column(rows: seq<Measurement>, c: string): (col: seq<Scalar>)
    requires forall i :: 0 <= i < |rows| ==> c in rows[i]
    ensures |col| == |rows|
  {
    if rows == [] then [] else Column(rows[..|rows| - 1], c) + [rows[|rows| - 1][c]]
  }

  lemma {:induction false} ColumnAt(rows: seq<Measurement>, c: string, i: nat)
    requires forall k :: 0 <= k < |rows| ==> c in rows[k]
    requires i < |rows|
    ensures Column(rows, c)[i] == rows[i][c]
  {
    if i < |rows| - 1 {
      ColumnAt(rows[..|rows| - 1], c, i);
    }
  }

  /** `df.to_dict(orient='list')`: each column name to the list of its values, top row first. */
  function ToColumns(columns: seq<string>, rows: seq<Measurement>): (df: map<string, seq<Scalar>>)
    requires WellFormed(columns, rows)
    ensures df.Keys == ColumnSet(columns)
    ensures forall c :: c in df ==> |df[c]| == |rows|
  {
    map c | c in columns :: Column(rows, c)
  }

  /** Row `i` read back out of a column-wise dict. */
  function RowAt(df: map<string, seq<Scalar>>, columns: seq<string>, i: nat): Measurement
    requires forall c :: c in columns ==> c in df && i < |df[c]|
  {
    map c | c in columns :: df[c][i]
  }

  /** The `n` rows of a column-wise dict whose columns all have length `n`. */
  function FromColumns(df: map<string, seq<Scalar>>, columns: seq<string>, n: nat): seq<Measurement>
    requires forall c :: c in columns ==> c in df && |df[c]| == n
  {
    seq(n, i requires 0 <= i < n => RowAt(df, columns, i))
  }

  /** The column-wise dict loses nothing: the rows, in order and with duplicates, can be read back from it. */
  lemma ColumnsRoundTrip(columns: seq<string>, rows: seq<Measurement>)
    requires WellFormed(columns, rows)
    ensures FromColumns(ToColumns(columns, rows), columns, |rows|) == rows
  {
    var df := ToColumns(columns, rows);
    var back := FromColumns(df, columns, |rows|);
    forall i | 0 <= i < |rows| ensures back[i] == rows[i] {
      forall c | c in columns ensures df[c][i] == rows[i][c] {
        ColumnAt(rows, c, i);
      }
    }
  }

  /** Appending a row appends its value to the end of every column and changes nothing else. */
  lemma AppendRowExtendsColumns(columns: seq<string>, rows: seq<Measurement>, row: Measurement)
    requires WellFormed(columns, rows) && row.Keys == ColumnSet(columns)
    ensures WellFormed(columns, rows + [row])
    ensures forall c :: c in columns ==> ToColumns(columns, rows + [row])[c] == ToColumns(columns, rows)[c] + [row[c]]
  {
    var extended := rows + [row];
    assert extended[..|extended| - 1] == rows;
  }
}
