/**
 * `add_failure_columns_to_df_with_one_serial_number`: the rows of one disk,
 * sorted by date and stripped of their `failure` column when the disk failed,
 * joined to its failure-window labels.
 */
module FeatureExtraction {
  import opened FailureLabels

  /** One day of one disk: its date (ordered), whether it failed, and the other columns. */
  datatype Row<R> = Row(date: int, failure: bool, other: R)

  /** `df.failure.any()` */
  predicate AnyFailure<R>(rows: seq<Row<R>>)
  {
    exists i :: 0 <= i < |rows| && rows[i].failure
  }

  ghost predicate SortedByDate<R>(rows: seq<Row<R>>)
  {
    forall i, j :: 0 <= i < j < |rows| ==> rows[i].date <= rows[j].date
  }

  function InsertByDate<R>(x: Row<R>, rows: seq<Row<R>>): (r: seq<Row<R>>)
    requires SortedByDate(rows)
    ensures |r| == |rows| + 1 && (r[0] == x || (rows != [] && r[0] == rows[0]))
    ensures SortedByDate(r) && multiset(r) == multiset(rows) + multiset{x}
  {
    if rows == [] || x.date <= rows[0].date then [x] + rows
    else
      var rest := InsertByDate(x, rows[1..]);
      assert rows == [rows[0]] + rows[1..];
      assert rows[0].date <= rest[0].date;
      [rows[0]] + rest
  }

  /** One ascending order of the rows by date. */
  function SortByDate<R>(rows: seq<Row<R>>): (r: seq<Row<R>>)
    ensures SortedByDate(r) && multiset(r) == multiset(rows)
  {
    if rows == [] then []
    else
      assert rows == [rows[0]] + rows[1..];
      InsertByDate(rows[0], SortByDate(rows[1..]))
  }

  /** The column list once every column called `name` is dropped, others in their order. */
  function Without(columns: seq<string>, name: string): (r: seq<string>)
    ensures forall c :: c in r <==> c in columns && c != name
    ensures multiset(r) == multiset(columns)[name := 0]
    ensures name !in columns ==> r == columns
  {
    if columns == [] then []
    else
      assert columns == [columns[0]] + columns[1..];
      if columns[0] == name then Without(columns[1..], name)
      else [columns[0]] + Without(columns[1..], name)
  }

  /** Dropping a column from a concatenation drops it from each part, so the kept columns keep their order. */
  lemma {:induction false} WithoutConcat(a: seq<string>, b: seq<string>, name: string)
    ensures Without(a + b, name) == Without(a, name) + Without(b, name)
  {
    if a != [] {
      assert (a + b)[1..] == a[1..] + b;
      WithoutConcat(a[1..], b, name);
    } else {
      assert a + b == b;
    }
  }

  /** With distinct column names, the drop removes exactly the one position holding `name`. */
  lemma WithoutDistinct(columns: seq<string>, name: string, k: nat)
    requires forall i, j :: 0 <= i < j < |columns| ==> columns[i] != columns[j]
    requires k < |columns| && columns[k] == name
    ensures Without(columns, name) == columns[..k] + columns[k + 1..]
  {
    assert columns == columns[..k] + ([name] + columns[k + 1..]);
    WithoutConcat(columns[..k], [name] + columns[k + 1..], name);
    WithoutConcat([name], columns[k + 1..], name);
    assert name !in columns[..k];
    assert name !in columns[k + 1..];
    assert Without([name], name) == [];
  }

  /**
   * A pandas frame for one serial number. Each row keeps its `failure` field
   * after the column is dropped. That field belongs to the frame only while
   * "failure" is among `columns`. Once dropped, it stands for nothing in the
   * frame pandas holds.
   */
  class DataFrame<R> {
    var columns: seq<string>
    var rows: seq<Row<R>>

    constructor (columns: seq<string>, rows: seq<Row<R>>)
      ensures this.columns == columns && this.rows == rows
    {
      this.columns := columns;
      this.rows := rows;
    }

    /**
     * `df.sort_values('date', inplace=True)`: the rows in ascending date order.
     * pandas sorts with an unstable quicksort, so the contract fixes no order
     * among rows of the same date.
     */
    method SortValuesByDate()
      modifies this
      ensures columns == old(columns)
      ensures SortedByDate(rows) && multiset(rows) == multiset(old(rows))
    {
      rows := SortByDate(rows);
    }

    /** `df.drop(columns=[name], inplace=True)`; pandas raises KeyError when there is no such column. */
    method DropColumn(name: string)
      requires name in columns
      modifies this
      ensures columns == Without(old(columns), name) && name !in columns
      ensures rows == old(rows)
    {
      columns := Without(columns, name);
    }
  }

  /** `pd.concat([df, failure_features], axis=1)`, rows paired by position. */
  datatype LabelledFrame<R> = LabelledFrame(columns: seq<string>, rows: seq<Row<R>>, labels: seq<seq<bool>>)

  const FailureColumn := "failure"

  method AddFailureColumns<R>(df: DataFrame<R>, numLookAheadDays: nat) returns (result: LabelledFrame<R>)
    requires FailureColumn in df.columns
    modifies df
    ensures result.rows == df.rows && |result.rows| == |old(df.rows)|
    ensures result.columns == df.columns + ColumnNames(numLookAheadDays)
    ensures result.labels == LabelMatrix(AnyFailure(old(df.rows)), |old(df.rows)|, numLookAheadDays)
    ensures AnyFailure(old(df.rows)) ==>
              && SortedByDate(df.rows) && multiset(df.rows) == multiset(old(df.rows))
              && df.columns == Without(old(df.columns), FailureColumn)
    ensures !AnyFailure(old(df.rows)) ==> df.rows == old(df.rows) && df.columns == old(df.columns)
  {
    var entryCount := |df.rows|;
    var boolValues;
    if AnyFailure(df.rows) {
      df.SortValuesByDate();
      df.DropColumn(FailureColumn);
      boolValues := NonZero(FlipLR(Tril(Ones(entryCount, numLookAheadDays), numLookAheadDays - entryCount)));
    } else {
      boolValues := NonZero(Zeros(entryCount, numLookAheadDays));
    }
    var colNames := ColumnNames(numLookAheadDays);
    assert |multiset(df.rows)| == |multiset(old(df.rows))|;
    result := LabelledFrame(df.columns + colNames, df.rows, boolValues);
  }

  /** In a failed disk's result the latest-dated row is labelled true in every column. */
  lemma LatestDateAllTrue<R>(result: LabelledFrame<R>, d: nat, c: nat)
    requires SortedByDate(result.rows) && result.rows != [] && c < d
    requires result.labels == LabelMatrix(true, |result.rows|, d)
    ensures forall k :: 0 <= k < |result.rows| ==> result.rows[k].date <= result.rows[|result.rows| - 1].date
    ensures result.labels[|result.rows| - 1][c]
  {
    LatestRowAllTrue(|result.rows|, d, c);
  }
}
