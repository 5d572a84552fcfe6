/** The edge list drawn on the map (`get_edge_positions`): every pair `(i, j)`
    with `i < j` whose graph entry is 1, visited row by row, turned into the
    two users' positions. Row `i` is scanned from column `i + 1` to the end of
    the row, and the last row is never scanned. */
module Edges {
  import opened Population
  import opened Matrix
  import opened Connectivity

  type Edge = (int, int)

  /** `(i, j)` is reported: `i` is a scanned row, `j` a column to the right of
      the diagonal inside that row, and the entry is 1. */
  predicate IsEdge(g: Mat, i: int, j: int) {
    0 <= i < |g| - 1 && i < j < |g[i]| && g[i][j] == 1
  }

  /** Row-major order on index pairs. */
  predicate Before(e: Edge, f: Edge) {
    e.0 < f.0 || (e.0 == f.0 && e.1 < f.1)
  }

  /** Strictly increasing in row-major order (so also free of repeats). */
  predicate RowMajor(s: seq<Edge>) {
    forall p, q :: 0 <= p < q < |s| ==> Before(s[p], s[q])
  }

  /** The reported edges of row `i` among columns `i+1 .. j-1`, in column
      order; columns past the end of the row contribute nothing. */
  function RowEdges(g: Mat, i: nat, j: nat): seq<Edge>
    requires i < |g|
    decreases j
  {
    if j <= i + 1 then []
    else if j > |g[i]| then RowEdges(g, i, |g[i]|)
    else RowEdges(g, i, j - 1) + (if g[i][j - 1] == 1 then [(i, j - 1)] else [])
  }

  /** The reported edges of rows `0 .. i-1`, row by row. */
  function RowsEdges(g: Mat, i: nat): seq<Edge>
    requires i <= |g|
  {
    if i == 0 then [] else RowsEdges(g, i - 1) + RowEdges(g, i - 1, |g[i - 1]|)
  }

  /** The edges of `get_edge_positions`, which scans rows `0 .. len(graph)-2`. */
  function AllEdges(g: Mat): seq<Edge> {
    if |g| == 0 then [] else RowsEdges(g, |g| - 1)
  }

  lemma {:induction false} RowEdgesMembers(g: Mat, i: nat, j: nat)
    requires i < |g|
    ensures forall e :: e in RowEdges(g, i, j) <==>
      e.0 == i && i < e.1 < j && e.1 < |g[i]| && g[i][e.1] == 1
    ensures RowMajor(RowEdges(g, i, j))
    decreases j
  {
    if j <= i + 1 {
    } else if j > |g[i]| {
      RowEdgesMembers(g, i, |g[i]|);
    } else {
      RowEdgesMembers(g, i, j - 1);
      var front := RowEdges(g, i, j - 1);
      var last: seq<Edge> := if g[i][j - 1] == 1 then [(i, j - 1)] else [];
      forall x, y | x in front && y in last
        ensures Before(x, y)
      {
      }
      AppendRowMajor(front, last);
    }
  }

  lemma {:induction false} RowsEdgesMembers(g: Mat, i: nat)
    requires i <= |g|
    ensures forall e :: e in RowsEdges(g, i) <==>
      0 <= e.0 < i && e.0 < e.1 < |g[e.0]| && g[e.0][e.1] == 1
    ensures RowMajor(RowsEdges(g, i))
  {
    if i > 0 {
      RowsEdgesMembers(g, i - 1);
      RowEdgesMembers(g, i - 1, |g[i - 1]|);
      var front := RowsEdges(g, i - 1);
      var last := RowEdges(g, i - 1, |g[i - 1]|);
      forall x, y | x in front && y in last
        ensures Before(x, y)
      {
      }
      AppendRowMajor(front, last);
    }
  }

  /** Two row-major runs, the first wholly before the second, concatenate
      into a row-major run. */
  lemma AppendRowMajor(a: seq<Edge>, b: seq<Edge>)
    requires RowMajor(a) && RowMajor(b)
    requires forall x, y :: x in a && y in b ==> Before(x, y)
    ensures RowMajor(a + b)
  {
    var s := a + b;
    forall p, q | 0 <= p < q < |s|
      ensures Before(s[p], s[q])
    {
      if q < |a| {
        assert s[p] == a[p] && s[q] == a[q];
      } else if p >= |a| {
        assert s[p] == b[p - |a|] && s[q] == b[q - |a|];
      } else {
        assert s[p] == a[p] && s[q] == b[q - |a|];
        assert s[p] in a && s[q] in b;
      }
    }
  }

  /** The reference edge list holds exactly the reported pairs, strictly in
      row-major order. */
  lemma AllEdgesSpec(g: Mat)
    ensures forall e :: e in AllEdges(g) <==> IsEdge(g, e.0, e.1)
    ensures RowMajor(AllEdges(g))
  {
    if |g| > 0 {
      RowsEdgesMembers(g, |g| - 1);
    }
  }

  /** On a square matrix the reported pairs are the 1-entries strictly above
      the diagonal: the diagonal is never reported, and nothing is lost by not
      scanning the last row. */
  lemma SquareEdges(g: Mat, n: nat)
    requires IsSquare(g, n)
    ensures forall i, j :: IsEdge(g, i, j) <==> 0 <= i < j < n && g[i][j] == 1
  {
  }

  /** The two positions of an edge's end points. */
  function Endpoints(users: seq<Node>, e: Edge): (Point, Point)
    requires 0 <= e.0 < |users| && 0 <= e.1 < |users|
  {
    (users[e.0].Position(), users[e.1].Position())
  }

  /** `points[k]` holds the positions of the end points of `edges[k]`. */
  predicate Located(users: seq<Node>, edges: seq<Edge>, points: seq<(Point, Point)>) {
    && |points| == |edges|
    && forall k :: 0 <= k < |edges| ==>
         0 <= edges[k].0 < |users| && 0 <= edges[k].1 < |users| && points[k] == Endpoints(users, edges[k])
  }

  lemma LocatedAppend(users: seq<Node>, edges: seq<Edge>, points: seq<(Point, Point)>, i: int, j: int)
    requires Located(users, edges, points)
    requires 0 <= i < |users| && 0 <= j < |users|
    ensures Located(users, edges + [(i, j)], points + [(users[i].Position(), users[j].Position())])
  {
  }

  /** The inner loop of `get_edge_positions` over row `i`: appends the
      row's reported pairs, and their positions, to what the earlier rows
      gave. */
  method ScanRow(users: seq<Node>, g: Mat, i: nat, edges0: seq<Edge>, points0: seq<(Point, Point)>)
    returns (edges: seq<Edge>, points: seq<(Point, Point)>)
    requires i < |g| - 1
    requires forall j :: IsEdge(g, i, j) ==> j < |users|
    requires Located(users, edges0, points0)
    ensures edges == edges0 + RowEdges(g, i, |g[i]|)
    ensures Located(users, edges, points)
  {
    edges, points := edges0, points0;
    var j := i + 1;
    while j < |g[i]|
      invariant i + 1 <= j
      invariant j <= |g[i]| || j == i + 1
      invariant edges == edges0 + RowEdges(g, i, j)
      invariant Located(users, edges, points)
    {
      if g[i][j] == 1 {
        assert IsEdge(g, i, j);
        LocatedAppend(users, edges, points, i, j);
        edges := edges + [(i, j)];
        points := points + [(users[i].Position(), users[j].Position())];
      }
      j := j + 1;
    }
    assert RowEdges(g, i, j) == RowEdges(g, i, |g[i]|);
  }

  /** `get_edge_positions`: the nested loops of the source. `edges` is the
      list of index pairs the loops visit with entry 1 (the source keeps only
      their positions, returned in `points`). The source looks each end
      point up among the users, so every reported column must be a user. */
  method GetEdgePositions(users: seq<Node>, g: Mat) returns (edges: seq<Edge>, points: seq<(Point, Point)>)
    requires forall i, j :: IsEdge(g, i, j) ==> j < |users|
    ensures edges == AllEdges(g)
    ensures forall e :: e in edges <==> IsEdge(g, e.0, e.1)
    ensures RowMajor(edges)
    ensures Located(users, edges, points)
  {
    edges, points := [], [];
    var i := 0;
    while i < |g| - 1
      invariant 0 <= i <= |g|
      invariant i == 0 || i <= |g| - 1
      invariant edges == RowsEdges(g, i)
      invariant Located(users, edges, points)
    {
      edges, points := ScanRow(users, g, i, edges, points);
      assert edges == RowsEdges(g, i + 1);
      i := i + 1;
    }
    assert edges == AllEdges(g);
    AllEdgesSpec(g);
  }

  /** On a communication graph the edge list holds each linked pair of
      distinct users exactly once, lower index first: self-links on the
      diagonal are never drawn. */
  lemma GraphEdges(dist: Distance, users: seq<Node>, g: Mat)
    requires GraphOf(dist, users, g)
    ensures forall e: Edge :: e in AllEdges(g) <==>
      0 <= e.0 < e.1 < |users| && IsConnected(dist, users[e.0], users[e.1]) == 1
    ensures RowMajor(AllEdges(g))
  {
    AllEdgesSpec(g);
    SquareEdges(g, |users|);
    forall e: Edge | 0 <= e.0 < e.1 < |users|
      ensures g[e.0][e.1] == IsConnected(dist, users[e.0], users[e.1])
    {
    }
  }

  /** A graph without a 1 above the diagonal, the empty graph included,
      yields no edges. */
  lemma NoLinksNoEdges(g: Mat)
    requires forall i, j :: 0 <= i < |g| && i < j < |g[i]| ==> g[i][j] != 1
    ensures AllEdges(g) == []
  {
    if |g| > 0 {
      NoLinksRows(g, |g| - 1);
    }
  }

  lemma {:induction false} NoLinksRows(g: Mat, i: nat)
    requires i <= |g|
    requires forall r, j :: 0 <= r < |g| && r < j < |g[r]| ==> g[r][j] != 1
    ensures RowsEdges(g, i) == []
  {
    if i > 0 {
      NoLinksRows(g, i - 1);
      NoLinksRow(g, i - 1, |g[i - 1]|);
    }
  }

  lemma {:induction false} NoLinksRow(g: Mat, i: nat, j: nat)
    requires i < |g|
    requires forall c :: i < c < |g[i]| ==> g[i][c] != 1
    ensures RowEdges(g, i, j) == []
    decreases j
  {
    if j <= i + 1 {
    } else if j > |g[i]| {
      NoLinksRow(g, i, |g[i]|);
    } else {
      NoLinksRow(g, i, j - 1);
    }
  }
}
