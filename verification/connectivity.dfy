/** The communication graph of one iteration (`is_connected`, `get_graph`).

    Two users are linked when their distance is within both ranges. The graph
    is built the way the source builds it: a ragged list whose row `i` holds
    the links of user `i` to users `i..n-1`, left-padded with zeros to the
    longest row, then mirrored with `a + a.T - np.diag(np.diag(a))`. */
module Connectivity {
  import opened Population
  import opened Matrix

  /** 1 when the two users can reach each other, 0 otherwise. The boundary is
      inclusive, and the stricter of the two ranges decides. */
  function IsConnected(dist: Distance, x: Node, y: Node): (r: int)
    ensures r == 0 || r == 1
    ensures r == 1 <==> dist(x.Position(), y.Position()) <= Min(x.range, y.range) as real
  {
    var d := dist(x.Position(), y.Position());
    if d <= x.range as real && d <= y.range as real then 1 else 0
  }

  /** The link test does not depend on argument order when the distance does not. */
  lemma ConnectedSymmetric(dist: Distance, x: Node, y: Node)
    requires dist(x.Position(), y.Position()) == dist(y.Position(), x.Position())
    ensures IsConnected(dist, x, y) == IsConnected(dist, y, x)
  {
  }

  /** A user is linked to itself exactly when its range is not negative. */
  lemma SelfConnected(dist: Distance, x: Node)
    requires dist(x.Position(), x.Position()) == 0.0
    ensures IsConnected(dist, x, x) == 1 <==> x.range >= 0
  {
  }

  /** `[is_connected(users[i], users[j]) for j in range(from, n)]`. */
  function Links(dist: Distance, users: seq<Node>, i: nat, from: nat): (row: seq<int>)
    requires i < |users| && from <= |users|
    ensures |row| == |users| - from
    ensures forall k :: 0 <= k < |row| ==> row[k] == IsConnected(dist, users[i], users[from + k])
    decreases |users| - from
  {
    if from == |users| then []
    else [IsConnected(dist, users[i], users[from])] + Links(dist, users, i, from + 1)
  }

  /** The rows `from .. n-1` of the ragged list `connections`: row `i` lists
      the links of user `i` to users `i, i+1, ..., n-1`, so it is `n - i` long. */
  function RowsFrom(dist: Distance, users: seq<Node>, from: nat): (rows: seq<seq<int>>)
    requires from <= |users|
    ensures |rows| == |users| - from
    ensures forall k :: 0 <= k < |rows| ==> rows[k] == Links(dist, users, from + k, from + k)
    decreases |users| - from
  {
    if from == |users| then []
    else [Links(dist, users, from, from)] + RowsFrom(dist, users, from + 1)
  }

  /** `rows` has the shape of `connections`: row `i` is `n - i` long and
      lists the links of user `i` to users `i, i+1, ..., n-1`. */
  predicate LinkRows(dist: Distance, users: seq<Node>, rows: seq<seq<int>>) {
    && |rows| == |users|
    && (forall i :: 0 <= i < |users| ==> |rows[i]| == |users| - i)
    && (forall i, k :: 0 <= i < |users| && 0 <= k < |users| - i ==>
          rows[i][k] == IsConnected(dist, users[i], users[i + k]))
  }

  /** The ragged list `connections` that `users.apply` builds, one row per user. */
  function ConnectionRows(dist: Distance, users: seq<Node>): (rows: seq<seq<int>>)
    ensures LinkRows(dist, users, rows)
  {
    RowsFrom(dist, users, 0)
  }

  /** The longest connection row is the first one, `n` long, so padding
      turns the ragged list into an n×n matrix. */
  lemma PadWidth(dist: Distance, users: seq<Node>)
    requires |users| >= 1
    ensures var rows := ConnectionRows(dist, users); |rows[Longest(rows)]| == |users|
  {
    var rows := ConnectionRows(dist, users);
    assert |rows[0]| == |users| - 0;
  }

  /** Left-padding row `i` of the ragged list with `i` zeros puts the link
      of `i` and `j` at column `j` and zeros left of the diagonal. */
  lemma PaddedIsUpper(dist: Distance, users: seq<Node>, rows: seq<seq<int>>, a: Mat)
    requires LinkRows(dist, users, rows)
    requires PaddedFrom(rows, |users|, a)
    ensures IsSquare(a, |users|) && UpperTriangular(a) && ZeroOne(a)
    ensures forall i, j :: 0 <= i <= j < |users| ==> a[i][j] == IsConnected(dist, users[i], users[j])
  {
    forall i, j | 0 <= i <= j < |users|
      ensures a[i][j] == IsConnected(dist, users[i], users[j])
    {
      assert |users| - |rows[i]| == i;
      assert a[i][j] == rows[i][j - i];
    }
    forall i, j | 0 <= j < i < |users|
      ensures a[i][j] == 0
    {
      assert |users| - |rows[i]| == i;
    }
  }

  /** The padded connection rows form an upper-triangular n×n 0/1 matrix
      holding the link test on and above the diagonal. */
  lemma PaddedConnections(dist: Distance, users: seq<Node>)
    requires |users| >= 1
    ensures var rows := ConnectionRows(dist, users); |rows[Longest(rows)]| == |users|
    ensures var a := PadLeft(ConnectionRows(dist, users), |users|);
      && IsSquare(a, |users|) && UpperTriangular(a) && ZeroOne(a)
      && forall i, j :: 0 <= i <= j < |users| ==> a[i][j] == IsConnected(dist, users[i], users[j])
  {
    PadWidth(dist, users);
    var rows := ConnectionRows(dist, users);
    var a := PadLeft(rows, |users|);
    PaddedIsUpper(dist, users, rows, a);
  }

  /** The padded matrix before mirroring: entry `[i][j]` is the link of `i`
      and `j` on and above the diagonal, and 0 below it. */
  function UpperGraph(dist: Distance, users: seq<Node>): (a: Mat)
    requires |users| >= 1
    ensures IsSquare(a, |users|)
    ensures UpperTriangular(a)
    ensures ZeroOne(a)
    ensures forall i, j :: 0 <= i <= j < |users| ==> a[i][j] == IsConnected(dist, users[i], users[j])
  {
    PaddedConnections(dist, users);
    var rows := ConnectionRows(dist, users);
    PadLeft(rows, |rows[Longest(rows)]|)
  }

  /** `g` is the communication graph of `users`: a symmetric n×n matrix
      holding the link test of users `i` and `j` at `[i][j]` for `i <= j`. */
  predicate GraphOf(dist: Distance, users: seq<Node>, g: Mat) {
    && IsSquare(g, |users|)
    && Symmetric(g)
    && forall i, j :: 0 <= i <= j < |users| ==> g[i][j] == IsConnected(dist, users[i], users[j])
  }

  /** `get_graph`: an n×n 0/1 symmetric matrix whose entry `[i][j]`, for
      `i <= j`, is the link test of users `i` and `j`. The diagonal is not
      cleared: `[i][i]` is the user's link to itself. Python's `max` fails on
      an empty row list, hence n >= 1. */
  function GetGraph(dist: Distance, users: seq<Node>): (g: Mat)
    requires |users| >= 1
    ensures GraphOf(dist, users, g)
    ensures ZeroOne(g)
  {
    var a := UpperGraph(dist, users);
    MirrorUpper(a);
    var g := Mirror(a);
    MirroredGraph(a, g);
    g
  }

  /** The upper triangle and symmetry pin the graph down: there is exactly
      one matrix satisfying `GraphOf`, the one `get_graph` builds. */
  lemma GraphOfUnique(dist: Distance, users: seq<Node>, g: Mat, h: Mat)
    requires GraphOf(dist, users, g) && GraphOf(dist, users, h)
    ensures g == h
  {
    forall i | 0 <= i < |users|
      ensures g[i] == h[i]
    {
      forall j | 0 <= j < |users|
        ensures g[i][j] == h[i][j]
      {
        if j < i {
          assert g[i][j] == g[j][i] && h[i][j] == h[j][i];
          assert g[j][i] == IsConnected(dist, users[j], users[i]) == h[j][i];
        } else {
          assert g[i][j] == IsConnected(dist, users[i], users[j]) == h[i][j];
        }
      }
    }
  }

  /** The mirror of a 0/1 upper-triangular matrix is 0/1 and symmetric. */
  lemma MirroredGraph(a: Mat, g: Mat)
    requires IsSquare(a, |a|) && IsSquare(g, |a|) && ZeroOne(a)
    requires forall i, j :: 0 <= i <= j < |a| ==> g[i][j] == a[i][j]
    requires forall i, j :: 0 <= j < i < |a| ==> g[i][j] == a[j][i]
    ensures ZeroOne(g) && Symmetric(g)
  {
    forall i, j | 0 <= i < |g| && 0 <= j < |g[i]|
      ensures g[i][j] == 0 || g[i][j] == 1
    {
      if i <= j {
        assert g[i][j] == a[i][j];
      } else {
        assert g[i][j] == a[j][i];
      }
    }
  }

  /** With a symmetric distance every entry of the graph, below the diagonal
      too, is the plain pairwise link test. */
  lemma GraphMatchesPairwise(dist: Distance, users: seq<Node>, g: Mat)
    requires GraphOf(dist, users, g)
    requires SymmetricDistance(dist)
    ensures forall i, j :: 0 <= i < |users| && 0 <= j < |users| ==>
      g[i][j] == IsConnected(dist, users[i], users[j])
  {
    forall i, j | 0 <= j < i < |users|
      ensures g[i][j] == IsConnected(dist, users[i], users[j])
    {
      assert g[i][j] == g[j][i];
      ConnectedSymmetric(dist, users[i], users[j]);
    }
  }

  /** When a point is at distance 0 from itself, the diagonal of the graph
      holds 1 for every user whose range is not negative and 0 for the
      others. */
  lemma GraphDiagonal(dist: Distance, users: seq<Node>, g: Mat)
    requires GraphOf(dist, users, g)
    requires ZeroSelfDistance(dist)
    ensures forall i :: 0 <= i < |users| ==> (g[i][i] == 1 <==> users[i].range >= 0)
  {
    forall i | 0 <= i < |users|
      ensures g[i][i] == 1 <==> users[i].range >= 0
    {
      assert g[i][i] == IsConnected(dist, users[i], users[i]);
      SelfConnected(dist, users[i]);
    }
  }
}
