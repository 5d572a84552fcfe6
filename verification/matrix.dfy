/** The list and numpy operations `get_graph` strings together: left padding
    of ragged rows, transpose, element-wise sum and difference, and the
    diagonal matrix `np.diag(np.diag(a))`. Matrices are dense row sequences. */
module Matrix {
  import opened Population

  type Mat = seq<seq<int>>

  predicate IsMatrix(m: Mat, rows: nat, cols: nat) {
    |m| == rows && forall i :: 0 <= i < |m| ==> |m[i]| == cols
  }

  predicate IsSquare(m: Mat, n: nat) {
    IsMatrix(m, n, n)
  }

  predicate Symmetric(m: Mat)
    requires IsSquare(m, |m|)
  {
    forall i, j :: 0 <= i < |m| && 0 <= j < |m| ==> m[i][j] == m[j][i]
  }

  /** Every entry is 0 or 1. */
  predicate ZeroOne(m: Mat) {
    forall i, j :: 0 <= i < |m| && 0 <= j < |m[i]| ==> m[i][j] == 0 || m[i][j] == 1
  }

  /** Every entry strictly below the diagonal is 0. */
  predicate UpperTriangular(m: Mat)
    requires IsSquare(m, |m|)
  {
    forall i, j :: 0 <= j < i < |m| ==> m[i][j] == 0
  }

  /** Python's `[0] * k`: k zeros, and no zeros at all when k is negative. */
  function Zeros(k: int): (r: seq<int>)
    ensures |r| == Max(k, 0)
    ensures forall i :: 0 <= i < |r| ==> r[i] == 0
  {
    if k <= 0 then [] else Zeros(k - 1) + [0]
  }

  /** `max(rows, key=len)`: the index of the first longest row, found by a
      left-to-right scan that only switches to a strictly longer row.
      Python's `max` raises on an empty list, hence the precondition. */
  function Longest(rows: seq<seq<int>>): (k: nat)
    requires |rows| >= 1
    ensures k < |rows|
    ensures forall i :: 0 <= i < |rows| ==> |rows[i]| <= |rows[k]|
    ensures forall i :: 0 <= i < k ==> |rows[i]| < |rows[k]|
  {
    if |rows| == 1 then 0
    else
      var k := Longest(rows[..|rows| - 1]);
      assert forall i :: 0 <= i < |rows| - 1 ==> rows[i] == rows[..|rows| - 1][i];
      if |rows[|rows| - 1]| > |rows[k]| then |rows| - 1 else k
  }

  /** `m` is `rows` left-padded with zeros to `width` columns: row `i` starts
      with `width - |rows[i]|` zeros followed by `rows[i]` itself. */
  predicate PaddedFrom(rows: seq<seq<int>>, width: nat, m: Mat) {
    && (forall i :: 0 <= i < |rows| ==> |rows[i]| <= width)
    && IsMatrix(m, |rows|, width)
    && (forall i, j :: 0 <= i < |rows| && 0 <= j < width - |rows[i]| ==> m[i][j] == 0)
    && (forall i, j :: 0 <= i < |rows| && width - |rows[i]| <= j < width ==>
          m[i][j] == rows[i][j - (width - |rows[i]|)])
  }

  /** `[[0] * (width - len(r)) + r for r in rows]`: every row no longer than
      `width` becomes exactly `width` long, its entries shifted to the right. */
  function PadLeft(rows: seq<seq<int>>, width: nat): (r: Mat)
    requires forall i :: 0 <= i < |rows| ==> |rows[i]| <= width
    ensures PaddedFrom(rows, width, r)
  {
    if |rows| == 0 then []
    else
      var rest := PadLeft(rows[1..], width);
      assert forall i :: 1 <= i < |rows| ==> rows[i] == rows[1..][i - 1];
      var pad := width - |rows[0]|;
      var head := Zeros(pad) + rows[0];
      assert forall j :: pad <= j < width ==> head[j] == rows[0][j - pad];
      [head] + rest
  }

  /** numpy's `m.T`. */
  function Transpose(m: Mat): (t: Mat)
    requires IsSquare(m, |m|)
    ensures IsSquare(t, |m|)
    ensures forall i, j :: 0 <= i < |m| && 0 <= j < |m| ==> t[i][j] == m[j][i]
  {
    seq(|m|, i requires 0 <= i < |m| => seq(|m|, j requires 0 <= j < |m| => m[j][i]))
  }

  /** Transposing twice gives the matrix back. */
  lemma TransposeInvolution(m: Mat)
    requires IsSquare(m, |m|)
    ensures Transpose(Transpose(m)) == m
  {
    var t := Transpose(Transpose(m));
    forall i | 0 <= i < |m|
      ensures t[i] == m[i]
    {
      assert forall j :: 0 <= j < |m| ==> t[i][j] == m[i][j];
    }
  }

  /** numpy's `a + b` on two n×n arrays. */
  function Add(a: Mat, b: Mat): (s: Mat)
    requires IsSquare(a, |a|) && IsSquare(b, |a|)
    ensures IsSquare(s, |a|)
    ensures forall i, j :: 0 <= i < |a| && 0 <= j < |a| ==> s[i][j] == a[i][j] + b[i][j]
  {
    seq(|a|, i requires 0 <= i < |a| => seq(|a|, j requires 0 <= j < |a| => a[i][j] + b[i][j]))
  }

  /** numpy's `a - b` on two n×n arrays. */
  function Sub(a: Mat, b: Mat): (s: Mat)
    requires IsSquare(a, |a|) && IsSquare(b, |a|)
    ensures IsSquare(s, |a|)
    ensures forall i, j :: 0 <= i < |a| && 0 <= j < |a| ==> s[i][j] == a[i][j] - b[i][j]
  {
    seq(|a|, i requires 0 <= i < |a| => seq(|a|, j requires 0 <= j < |a| => a[i][j] - b[i][j]))
  }

  /** `np.diag(np.diag(m))`: the diagonal of `m`, zeros elsewhere. */
  function DiagOnly(m: Mat): (d: Mat)
    requires IsSquare(m, |m|)
    ensures IsSquare(d, |m|)
    ensures forall i :: 0 <= i < |m| ==> d[i][i] == m[i][i]
    ensures forall i, j :: 0 <= i < |m| && 0 <= j < |m| && i != j ==> d[i][j] == 0
  {
    seq(|m|, i requires 0 <= i < |m| => seq(|m|, j requires 0 <= j < |m| => if i == j then m[i][i] else 0))
  }

  /** `a + a.T - np.diag(np.diag(a))`. */
  function Mirror(a: Mat): (g: Mat)
    requires IsSquare(a, |a|)
    ensures IsSquare(g, |a|)
  {
    Sub(Add(a, Transpose(a)), DiagOnly(a))
  }

  /** Mirroring an upper-triangular matrix keeps its upper triangle and
      diagonal as they were and copies the upper triangle into the lower
      one: nothing is counted twice. */
  lemma MirrorUpper(a: Mat)
    requires IsSquare(a, |a|) && UpperTriangular(a)
    ensures var g := Mirror(a);
      forall i, j :: 0 <= i <= j < |a| ==> g[i][j] == a[i][j]
    ensures var g := Mirror(a);
      forall i, j :: 0 <= j < i < |a| ==> g[i][j] == a[j][i]
  {
    var d := DiagOnly(a);
    var g := Sub(Add(a, Transpose(a)), d);
    forall i, j | 0 <= i < |a| && 0 <= j < |a|
      ensures g[i][j] == a[i][j] + a[j][i] - d[i][j]
    {
    }
    forall i, j | 0 <= i <= j < |a|
      ensures g[i][j] == a[i][j]
    {
      if i < j {
        assert a[j][i] == 0 && d[i][j] == 0;
      }
    }
    forall i, j | 0 <= j < i < |a|
      ensures g[i][j] == a[j][i]
    {
      assert a[i][j] == 0 && d[i][j] == 0;
    }
  }
}
