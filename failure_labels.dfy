/**
 * The failure-window label matrix of one disk, built with numpy exactly as
 * feature_extraction_pandas.py builds it, its closed form, and the names of
 * its columns.
 */
module FailureLabels {
  import opened Wrappers
  import opened Decimal

  /** A numpy array of 0/1 values, row by row. */
  type Grid = seq<seq<int>>

  ghost predicate HasShape<T>(m: seq<seq<T>>, rows: nat, cols: nat)
  {
    |m| == rows && forall r :: 0 <= r < rows ==> |m[r]| == cols
  }

  /** `np.ones((n, d))` */
  function Ones(n: nat, d: nat): (m: Grid)
    ensures HasShape(m, n, d)
  {
    seq(n, _ => seq(d, _ => 1))
  }

  /** `np.zeros((n, d))` */
  function Zeros(n: nat, d: nat): (m: Grid)
    ensures HasShape(m, n, d)
  {
    seq(n, _ => seq(d, _ => 0))
  }

  /** `np.tril(m, k)`: every entry above the k-th diagonal (column - row > k) set to 0. */
  function Tril(m: Grid, k: int): (t: Grid)
    ensures |t| == |m| && forall r :: 0 <= r < |m| ==> |t[r]| == |m[r]|
  {
    seq(|m|, r requires 0 <= r < |m| =>
      seq(|m[r]|, j requires 0 <= j < |m[r]| => if j - r <= k then m[r][j] else 0))
  }

  /** `np.fliplr(m)`: every row reversed. */
  function FlipLR(m: Grid): (f: Grid)
    ensures |f| == |m| && forall r :: 0 <= r < |m| ==> |f[r]| == |m[r]|
  {
    seq(|m|, r requires 0 <= r < |m| =>
      seq(|m[r]|, c requires 0 <= c < |m[r]| => m[r][|m[r]| - 1 - c]))
  }

  /** `m != 0` */
  function NonZero(m: Grid): (b: seq<seq<bool>>)
    ensures |b| == |m| && forall r :: 0 <= r < |m| ==> |b[r]| == |m[r]|
  {
    seq(|m|, r requires 0 <= r < |m| => seq(|m[r]|, c requires 0 <= c < |m[r]| => m[r][c] != 0))
  }

  /** The labels of a disk that failed: `np.fliplr(np.tril(ones, d - n)) != 0`. */
  function FailureTriangle(n: nat, d: nat): seq<seq<bool>>
  {
    NonZero(FlipLR(Tril(Ones(n, d), d - n)))
  }

  /** The labels of a disk that never failed: `np.zeros((n, d)) != 0`. */
  function NoFailureLabels(n: nat, d: nat): seq<seq<bool>>
  {
    NonZero(Zeros(n, d))
  }

  /** The `n` by `d` label matrix of a disk with `n` rows, in both branches. */
  function LabelMatrix(failed: bool, n: nat, d: nat): (labels: seq<seq<bool>>)
    ensures HasShape(labels, n, d)
  {
    if failed then FailureTriangle(n, d) else NoFailureLabels(n, d)
  }

  /** A disk that never failed gets no true label. */
  lemma NoFailureAllFalse(n: nat, d: nat, r: nat, c: nat)
    requires r < n && c < d
    ensures !LabelMatrix(false, n, d)[r][c]
  {
  }

  /** Row `r` (0-based, date order) of a failed disk is labelled from column `n - 1 - r` on. */
  lemma FailureLabelAt(n: nat, d: nat, r: nat, c: nat)
    requires r < n && c < d
    ensures LabelMatrix(true, n, d)[r][c] <==> c >= n - 1 - r
  {
    var tril := Tril(Ones(n, d), d - n);
    assert FlipLR(tril)[r][c] == tril[r][d - 1 - c];
  }

  /** The latest row of a failed disk is true in every column. */
  lemma LatestRowAllTrue(n: nat, d: nat, c: nat)
    requires n > 0 && c < d
    ensures LabelMatrix(true, n, d)[n - 1][c]
  {
    FailureLabelAt(n, d, n - 1, c);
  }

  /** Along a row the labels only switch from false to true. */
  lemma RowMonotone(failed: bool, n: nat, d: nat, r: nat, c: nat)
    requires r < n && c + 1 < d
    requires LabelMatrix(failed, n, d)[r][c]
    ensures LabelMatrix(failed, n, d)[r][c + 1]
  {
    if failed {
      FailureLabelAt(n, d, r, c);
      FailureLabelAt(n, d, r, c + 1);
    }
  }

  /** Down a column the labels only switch from false to true. */
  lemma ColumnMonotone(failed: bool, n: nat, d: nat, r: nat, c: nat)
    requires r + 1 < n && c < d
    requires LabelMatrix(failed, n, d)[r][c]
    ensures LabelMatrix(failed, n, d)[r + 1][c]
  {
    if failed {
      FailureLabelAt(n, d, r, c);
      FailureLabelAt(n, d, r + 1, c);
    }
  }

  /** A row more than `d - 1` rows before the last is all false. */
  lemma FarRowAllFalse(failed: bool, n: nat, d: nat, r: nat, c: nat)
    requires r < n && c < d && n - 1 - r >= d
    ensures !LabelMatrix(failed, n, d)[r][c]
  {
    if failed {
      FailureLabelAt(n, d, r, c);
    }
  }

  function CountTrue(s: seq<bool>): (k: nat)
    ensures k <= |s|
  {
    if s == [] then 0 else CountTrue(s[..|s| - 1]) + if s[|s| - 1] then 1 else 0
  }

  function Clamp(x: int, lo: int, hi: int): int
    requires lo <= hi
  {
    if x < lo then lo else if x > hi then hi else x
  }

  /** A row that is false before position `t` and true from `t` on has `|s| - t` true entries (clamped). */
  lemma {:induction false} CountThreshold(s: seq<bool>, t: int)
    requires forall c :: 0 <= c < |s| ==> (s[c] <==> c >= t)
    ensures CountTrue(s) == |s| - Clamp(t, 0, |s|)
  {
    if s != [] {
      var init := s[..|s| - 1];
      assert forall c :: 0 <= c < |init| ==> init[c] == s[c];
      CountThreshold(init, t);
    }
  }

  /** Row `r` of a failed disk has `d - (n - 1 - r)` true labels, clamped to `0..d`. */
  lemma TrueCountOfRow(n: nat, d: nat, r: nat)
    requires r < n
    ensures CountTrue(LabelMatrix(true, n, d)[r]) == d - Clamp(n - 1 - r, 0, d)
  {
    var row := LabelMatrix(true, n, d)[r];
    forall c | 0 <= c < d ensures row[c] <==> c >= n - 1 - r {
      FailureLabelAt(n, d, r, c);
    }
    CountThreshold(row, n - 1 - r);
  }

  /** Later rows carry at least as many true labels as earlier ones. */
  lemma LaterRowsMoreTrue(failed: bool, n: nat, d: nat, r1: nat, r2: nat)
    requires r1 <= r2 < n
    ensures CountTrue(LabelMatrix(failed, n, d)[r1]) <= CountTrue(LabelMatrix(failed, n, d)[r2])
  {
    if failed {
      TrueCountOfRow(n, d, r1);
      TrueCountOfRow(n, d, r2);
    } else {
      CountThreshold(LabelMatrix(false, n, d)[r1], d);
      CountThreshold(LabelMatrix(false, n, d)[r2], d);
    }
  }

  const ColumnPrefix := "fails_within_"
  const ColumnSuffix := "_days"

  /** `[f"fails_within_{i}_days" for i in range(1, d + 1)]` */
  function ColumnNames(d: nat): (names: seq<string>)
    ensures |names| == d
  {
    seq(d, (i: nat) => ColumnPrefix + ToDecimal(i + 1) + ColumnSuffix)
  }

  /** The look-ahead in days a label column name stands for; None for any other name. */
  function ParseColumnName(name: string): Option<nat>
  {
    if |name| > |ColumnPrefix| + |ColumnSuffix|
       && name[..|ColumnPrefix|] == ColumnPrefix
       && name[|name| - |ColumnSuffix|..] == ColumnSuffix
       && AllDigits(name[|ColumnPrefix|..|name| - |ColumnSuffix|])
    then Some(ParseDigits(name[|ColumnPrefix|..|name| - |ColumnSuffix|]))
    else None
  }

  /** Column `i` is the label for "fails within `i + 1` days". */
  lemma ColumnNameDays(d: nat, i: nat)
    requires i < d
    ensures ParseColumnName(ColumnNames(d)[i]) == Some(i + 1)
  {
    var digits := ToDecimal(i + 1);
    var name := ColumnPrefix + digits + ColumnSuffix;
    assert name[..|ColumnPrefix|] == ColumnPrefix;
    assert name[|name| - |ColumnSuffix|..] == ColumnSuffix;
    assert name[|ColumnPrefix|..|name| - |ColumnSuffix|] == digits;
    DecimalRoundTrip(i + 1);
  }

  /** The label columns have pairwise distinct names, in increasing order of days. */
  lemma ColumnNamesIncreasing(d: nat, i: nat, j: nat)
    requires i < j < d
    ensures ColumnNames(d)[i] != ColumnNames(d)[j]
    ensures ParseColumnName(ColumnNames(d)[i]).value < ParseColumnName(ColumnNames(d)[j]).value
  {
    ColumnNameDays(d, i);
    ColumnNameDays(d, j);
  }
}
