/** The data a simulation run works on: nodes with a geographic position and a
    communication range, the optional bounding box that confines movement, and
    the distance function that decides connectivity.

    A population is an ordered `seq<Node>`; the index of a node is its row and
    column in every communication graph built from that population. */
module Population {

  /** The conventional Some/None datatype; a missing bounding box is `None`. */
  datatype Option<+T> = None | Some(value: T)

  /** A geographic position in degrees. */
  datatype Point = Point(latitude: real, longitude: real)

  /** One simulated user: position in degrees and communication range in metres.
      The range is drawn once, as an integer, before the first iteration. */
  datatype Node = Node(latitude: real, longitude: real, range: int) {
    function Position(): Point {
      Point(latitude, longitude)
    }
  }

  /** A bounding box in the order the source keeps it:
      `[min latitude, min longitude, max latitude, max longitude]`. */
  datatype Box = Box(minLat: real, minLon: real, maxLat: real, maxLon: real) {
    /** Both intervals are non-empty. */
    predicate WellFormed() {
      minLat <= maxLat && minLon <= maxLon
    }

    predicate Contains(p: Point) {
      minLat <= p.latitude <= maxLat && minLon <= p.longitude <= maxLon
    }
  }

  /** The distance in metres between two positions (an ellipsoidal geodesic in
      the source, an arbitrary function here). */
  type Distance = (Point, Point) -> real

  ghost predicate SymmetricDistance(dist: Distance) {
    forall p, q :: dist(p, q) == dist(q, p)
  }

  ghost predicate ZeroSelfDistance(dist: Distance) {
    forall p :: dist(p, p) == 0.0
  }

  /** Every node of the population lies inside the box. */
  predicate AllInBox(users: seq<Node>, box: Box) {
    forall i :: 0 <= i < |users| ==> box.Contains(users[i].Position())
  }

  function Min(a: int, b: int): int {
    if a <= b then a else b
  }

  function Max(a: int, b: int): int {
    if a <= b then b else a
  }
}
