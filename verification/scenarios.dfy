/** Small worked cases of the model, with users on one meridian and the flat
    distance `LineDistance` in place of the geodesic. */
module Scenarios {
  import opened Population
  import opened Matrix
  import opened Connectivity
  import opened Movement
  import opened Edges

  /** Metres along a meridian under the source's own approximation
      (0.00001 degrees per metre), ignoring longitude. */
  function LineDistance(p: Point, q: Point): (d: real)
    ensures d >= 0.0
    ensures d == 0.0 <==> p.latitude == q.latitude
  {
    var delta := p.latitude - q.latitude;
    (if delta < 0.0 then -delta else delta) * 100000.0
  }

  /** The flat distance meets both assumptions the graph lemmas use. */
  lemma LineDistanceProper()
    ensures SymmetricDistance(LineDistance)
    ensures ZeroSelfDistance(LineDistance)
  {
    forall p: Point, q: Point
      ensures LineDistance(p, q) == LineDistance(q, p)
    {
    }
  }

  /** Three users 100 metres apart with a 150-metre range: the neighbours
      are linked, the two ends (200 metres apart) are not, and the diagonal
      holds each user's link to itself. */
  lemma ChainIsNotTransitive()
    ensures var users := [Node(0.0, 0.0, 150), Node(0.001, 0.0, 150), Node(0.002, 0.0, 150)];
      GetGraph(LineDistance, users) == [[1, 1, 0], [1, 1, 1], [0, 1, 1]]
  {
    var users := [Node(0.0, 0.0, 150), Node(0.001, 0.0, 150), Node(0.002, 0.0, 150)];
    var m: Mat := [[1, 1, 0], [1, 1, 1], [0, 1, 1]];
    assert IsConnected(LineDistance, users[0], users[1]) == 1;
    assert IsConnected(LineDistance, users[1], users[2]) == 1;
    assert IsConnected(LineDistance, users[0], users[2]) == 0;
    assert IsConnected(LineDistance, users[0], users[0]) == 1;
    assert IsConnected(LineDistance, users[1], users[1]) == 1;
    assert IsConnected(LineDistance, users[2], users[2]) == 1;
    assert GraphOf(LineDistance, users, m);
    GraphOfUnique(LineDistance, users, GetGraph(LineDistance, users), m);
  }

  /** Two users 100 metres apart with ranges 150 and 50: the shorter range
      decides, so they are not linked although one could reach the other. */
  lemma ShorterRangeDecides()
    ensures var users := [Node(0.0, 0.0, 150), Node(0.001, 0.0, 50)];
      GetGraph(LineDistance, users) == [[1, 0], [0, 1]]
  {
    var users := [Node(0.0, 0.0, 150), Node(0.001, 0.0, 50)];
    var m: Mat := [[1, 0], [0, 1]];
    assert IsConnected(LineDistance, users[0], users[1]) == 0;
    assert IsConnected(LineDistance, users[0], users[0]) == 1;
    assert IsConnected(LineDistance, users[1], users[1]) == 1;
    assert GraphOf(LineDistance, users, m);
    GraphOfUnique(LineDistance, users, GetGraph(LineDistance, users), m);
  }

  /** The chain's edge list: the two neighbour links, row by row. */
  lemma ChainEdges()
    ensures AllEdges([[1, 1, 0], [1, 1, 1], [0, 1, 1]]) == [(0, 1), (1, 2)]
  {
    var g: Mat := [[1, 1, 0], [1, 1, 1], [0, 1, 1]];
    assert RowEdges(g, 0, 3) == [(0, 1)] by {
      assert RowEdges(g, 0, 2) == [(0, 1)];
    }
    assert RowEdges(g, 1, 3) == [(1, 2)];
    assert RowsEdges(g, 2) == RowsEdges(g, 1) + RowEdges(g, 1, 3);
  }

  /** A move of 20 metres north from 0.9999 leaves the unit box and is
      clamped back onto its edge; without a box it is taken in full. */
  lemma ClampAtEdge()
    ensures ChangeLatLong(0.9999, 50, 20, Some(Box(0.0, 0.0, 1.0, 1.0)), true) == 1.0
    ensures ChangeLatLong(0.9999, 50, 20, None, true) == 1.0001
  {
    assert ValidOffset(50, 20);
  }

  /** With a maximum move of one metre, `randrange(-1, 0)` can only give -1:
      every coordinate drifts one metre down on every move. */
  lemma OneMetreOnlyDown(k: int)
    ensures ValidOffset(1, k) <==> k == -1
  {
    assert OffsetLow(1) == -1 && OffsetHigh(1) == 0;
  }
}
