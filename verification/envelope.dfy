/** The min/max envelope of a population (`calc_bounding_box`), used as the
    movement box when a seed dataset is loaded without an explicit box. */
module Envelope {
  import opened Population

  function Latitudes(users: seq<Node>): (r: seq<real>)
    ensures |r| == |users|
    ensures forall i :: 0 <= i < |users| ==> r[i] == users[i].latitude
  {
    seq(|users|, i requires 0 <= i < |users| => users[i].latitude)
  }

  function Longitudes(users: seq<Node>): (r: seq<real>)
    ensures |r| == |users|
    ensures forall i :: 0 <= i < |users| ==> r[i] == users[i].longitude
  {
    seq(|users|, i requires 0 <= i < |users| => users[i].longitude)
  }

  /** The least element of a non-empty column. */
  function MinOf(xs: seq<real>): (m: real)
    requires |xs| >= 1
    ensures forall i :: 0 <= i < |xs| ==> m <= xs[i]
    ensures exists i :: 0 <= i < |xs| && xs[i] == m
  {
    if |xs| == 1 then xs[0]
    else
      var rest := MinOf(xs[1..]);
      assert forall i :: 1 <= i < |xs| ==> xs[i] == xs[1..][i - 1];
      if xs[0] <= rest then xs[0] else rest
  }

  /** The greatest element of a non-empty column. */
  function MaxOf(xs: seq<real>): (m: real)
    requires |xs| >= 1
    ensures forall i :: 0 <= i < |xs| ==> xs[i] <= m
    ensures exists i :: 0 <= i < |xs| && xs[i] == m
  {
    if |xs| == 1 then xs[0]
    else
      var rest := MaxOf(xs[1..]);
      assert forall i :: 1 <= i < |xs| ==> xs[i] == xs[1..][i - 1];
      if rest <= xs[0] then xs[0] else rest
  }

  /** The smallest box holding every node: each node lies inside it, and each
      of its four edges is touched by some node. */
  function CalcBoundingBox(users: seq<Node>): (box: Box)
    requires |users| >= 1
    ensures box.WellFormed()
    ensures AllInBox(users, box)
    ensures exists i :: 0 <= i < |users| && users[i].latitude == box.minLat
    ensures exists i :: 0 <= i < |users| && users[i].longitude == box.minLon
    ensures exists i :: 0 <= i < |users| && users[i].latitude == box.maxLat
    ensures exists i :: 0 <= i < |users| && users[i].longitude == box.maxLon
  {
    var lats := Latitudes(users);
    var lons := Longitudes(users);
    assert lats[0] == users[0].latitude && lons[0] == users[0].longitude;
    Box(MinOf(lats), MinOf(lons), MaxOf(lats), MaxOf(lons))
  }

  /** Any box holding every node contains the computed one: it is the
      smallest such box. */
  lemma BoundingBoxSmallest(users: seq<Node>, other: Box)
    requires |users| >= 1
    requires AllInBox(users, other)
    ensures var box := CalcBoundingBox(users);
      && other.minLat <= box.minLat && other.minLon <= box.minLon
      && box.maxLat <= other.maxLat && box.maxLon <= other.maxLon
  {
    var box := CalcBoundingBox(users);
    var a :| 0 <= a < |users| && users[a].latitude == box.minLat;
    var b :| 0 <= b < |users| && users[b].longitude == box.minLon;
    var c :| 0 <= c < |users| && users[c].latitude == box.maxLat;
    var d :| 0 <= d < |users| && users[d].longitude == box.maxLon;
    assert other.Contains(users[a].Position()) && other.Contains(users[b].Position());
    assert other.Contains(users[c].Position()) && other.Contains(users[d].Position());
  }
}
