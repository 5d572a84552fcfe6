/** Movement of the users between two iterations (`change_lat_long`,
    `move_users`).

    Each coordinate moves by an integer number `k` of metres drawn with
    `random.randrange(-m // 2, m // 2)`, converted with the fixed
    approximation 1 metre = 0.00001 degrees on both axes, and is then clamped
    to the bounding box when there is one. The draws are parameters here. */
module Movement {
  import opened Population

  /** `k` metres in degrees, with the fixed approximation the source uses on
      both axes: one metre is 0.00001 degrees. */
  function Degrees(k: int): real {
    k as real * 0.00001
  }

  /** Python's `a // 2`: the floor of `a / 2`, also for negative `a`. */
  function FloorHalf(a: int): (q: int)
    ensures 2 * q <= a < 2 * q + 2
  {
    a / 2
  }

  /** The first argument of `randrange`: `-1 * m // 2`. */
  function OffsetLow(maxChange: int): int {
    FloorHalf(-1 * maxChange)
  }

  /** The second (excluded) argument of `randrange`: `m // 2`. */
  function OffsetHigh(maxChange: int): int {
    FloorHalf(maxChange)
  }

  /** `k` is a value `randrange(OffsetLow(m), OffsetHigh(m))` can return. */
  predicate ValidOffset(maxChange: int, k: int) {
    OffsetLow(maxChange) <= k < OffsetHigh(maxChange)
  }

  /** The offsets in metres, without floor division: for odd `m` the range
      reaches one metre further down than up. */
  lemma ValidOffsetBounds(maxChange: int, k: int)
    ensures ValidOffset(maxChange, k) <==> -maxChange - 1 <= 2 * k <= maxChange - 2
  {
    var lo, hi := OffsetLow(maxChange), OffsetHigh(maxChange);
    assert 2 * lo <= -maxChange < 2 * lo + 2;
    assert 2 * hi <= maxChange < 2 * hi + 2;
  }

  /** `randrange` raises on an empty range: a draw exists exactly when the
      maximum move is at least one metre. */
  lemma OffsetExists(maxChange: int)
    ensures (exists k :: ValidOffset(maxChange, k)) <==> maxChange >= 1
  {
    if maxChange >= 1 {
      var k := OffsetHigh(maxChange) - 1;
      ValidOffsetBounds(maxChange, k);
      assert ValidOffset(maxChange, k);
    } else {
      forall k
        ensures !ValidOffset(maxChange, k)
      {
        ValidOffsetBounds(maxChange, k);
      }
    }
  }

  /** The hard clamp of `change_lat_long`: above `hi` gives `hi`, otherwise
      below `lo` gives `lo`, otherwise the value itself. */
  function Clamp(v: real, lo: real, hi: real): (r: real)
    ensures lo <= hi ==> lo <= r <= hi
    ensures lo <= v <= hi ==> r == v
    ensures r == v || r == lo || r == hi
    ensures v > hi ==> r == hi
    ensures v <= hi && v < lo ==> r == lo
  {
    if v > hi then hi else if v < lo then lo else v
  }

  /** Clamping twice to a proper interval is clamping once. */
  lemma ClampIdempotent(v: real, lo: real, hi: real)
    requires lo <= hi
    ensures Clamp(Clamp(v, lo, hi), lo, hi) == Clamp(v, lo, hi)
  {
  }

  /** With an inverted interval the clamp is not idempotent: a value between
      the two bounds is first sent to `hi` and then to `lo`. */
  lemma ClampInvertedNotIdempotent()
    ensures Clamp(0.5, 1.0, 0.0) == 0.0
    ensures Clamp(Clamp(0.5, 1.0, 0.0), 1.0, 0.0) == 1.0
  {
  }

  /** `change_lat_long` with the drawn offset `k`: the unclamped position is
      `prev + k * 0.00001`; with a box it is clamped to the box's latitude
      interval (`isLat`) or longitude interval. */
  function ChangeLatLong(prev: real, maxChange: int, k: int, box: Option<Box>, isLat: bool): (r: real)
    requires ValidOffset(maxChange, k)
    ensures box.None? ==> r == prev + Degrees(k)
    ensures box.None? ==>
      Degrees(-(maxChange + 1)) <= 2.0 * (r - prev) <= Degrees(maxChange - 2)
    ensures box.Some? && isLat && box.value.minLat <= box.value.maxLat ==>
      box.value.minLat <= r <= box.value.maxLat
    ensures box.Some? && !isLat && box.value.minLon <= box.value.maxLon ==>
      box.value.minLon <= r <= box.value.maxLon
    ensures box.Some? && isLat && box.value.minLat <= prev + Degrees(k) <= box.value.maxLat ==>
      r == prev + Degrees(k)
    ensures box.Some? && !isLat && box.value.minLon <= prev + Degrees(k) <= box.value.maxLon ==>
      r == prev + Degrees(k)
    ensures box.Some? && isLat && prev + Degrees(k) > box.value.maxLat ==> r == box.value.maxLat
    ensures box.Some? && isLat && prev + Degrees(k) <= box.value.maxLat && prev + Degrees(k) < box.value.minLat ==>
      r == box.value.minLat
    ensures box.Some? && !isLat && prev + Degrees(k) > box.value.maxLon ==> r == box.value.maxLon
    ensures box.Some? && !isLat && prev + Degrees(k) <= box.value.maxLon && prev + Degrees(k) < box.value.minLon ==>
      r == box.value.minLon
  {
    ValidOffsetBounds(maxChange, k);
    var newLocation := prev + Degrees(k);
    match box
    case None => newLocation
    case Some(bb) =>
      if isLat then Clamp(newLocation, bb.minLat, bb.maxLat)
      else Clamp(newLocation, bb.minLon, bb.maxLon)
  }

  /** `move_users` discards the box when bounding is switched off. */
  function MovementBox(box: Option<Box>, useBounding: bool): Option<Box> {
    if useBounding then box else None
  }

  /** The draws of one `move_users` call on `n` users: the `n` latitude
      offsets in user order, then the `n` longitude offsets, all in range. */
  predicate ValidDraws(n: nat, maxChange: int, draws: seq<int>) {
    |draws| == 2 * n && forall i :: 0 <= i < |draws| ==> ValidOffset(maxChange, draws[i])
  }

  /** One user's move: both coordinates change by their own offsets, the
      range stays. */
  function MoveNode(u: Node, maxChange: int, box: Option<Box>, latK: int, lonK: int): (v: Node)
    requires ValidOffset(maxChange, latK) && ValidOffset(maxChange, lonK)
    ensures v.range == u.range
    ensures box.None? ==> v.latitude == u.latitude + Degrees(latK)
    ensures box.None? ==> v.longitude == u.longitude + Degrees(lonK)
    ensures box.Some? && box.value.WellFormed() ==> box.value.Contains(v.Position())
  {
    Node(ChangeLatLong(u.latitude, maxChange, latK, box, true),
         ChangeLatLong(u.longitude, maxChange, lonK, box, false),
         u.range)
  }

  /** One coordinate column after `users[col].apply(change_lat_long, ...)`:
      the latitude (`isLat`) or the longitude of user `i` moves by
      `offsets[i]`; the other coordinate and the range stay. */
  function MoveColumn(users: seq<Node>, maxChange: int, offsets: seq<int>, box: Option<Box>, isLat: bool): (r: seq<Node>)
    requires |offsets| == |users|
    requires forall i :: 0 <= i < |offsets| ==> ValidOffset(maxChange, offsets[i])
    ensures |r| == |users|
    ensures isLat ==> forall i :: 0 <= i < |users| ==>
      r[i] == users[i].(latitude := ChangeLatLong(users[i].latitude, maxChange, offsets[i], box, true))
    ensures !isLat ==> forall i :: 0 <= i < |users| ==>
      r[i] == users[i].(longitude := ChangeLatLong(users[i].longitude, maxChange, offsets[i], box, false))
  {
    if |users| == 0 then []
    else
      var u := users[0];
      var v := if isLat then u.(latitude := ChangeLatLong(u.latitude, maxChange, offsets[0], box, true))
               else u.(longitude := ChangeLatLong(u.longitude, maxChange, offsets[0], box, false));
      assert forall i :: 1 <= i < |users| ==> users[i] == users[1..][i - 1] && offsets[i] == offsets[1..][i - 1];
      [v] + MoveColumn(users[1..], maxChange, offsets[1..], box, isLat)
  }

  /** `move_users`: every latitude is moved (drawing the first `n` offsets),
      then every longitude (drawing the next `n`). Users keep their number,
      and with bounding on and a proper box they all end inside it;
      `MoveUsersAt` says where each one goes. */
  function MoveUsers(users: seq<Node>, maxChange: int, box: Option<Box>, useBounding: bool, draws: seq<int>): (r: seq<Node>)
    requires ValidDraws(|users|, maxChange, draws)
    ensures |r| == |users|
    ensures useBounding && box.Some? && box.value.WellFormed() ==> AllInBox(r, box.value)
  {
    var n := |users|;
    var b := MovementBox(box, useBounding);
    var moved := MoveColumn(users, maxChange, draws[..n], b, true);
    var r := MoveColumn(moved, maxChange, draws[n..], b, false);
    assert forall i :: 0 <= i < n ==> draws[..n][i] == draws[i] && draws[n..][i] == draws[n + i];
    assert forall i :: 0 <= i < n ==> r[i] == MoveNode(users[i], maxChange, b, draws[i], draws[n + i]);
    r
  }

  /** User `i` after `move_users`: the latitude moves by `draws[i]`, the
      longitude by `draws[n + i]`, the range stays, and nothing but the
      user's own old position and its two offsets decides where it goes. */
  lemma MoveUsersAt(users: seq<Node>, maxChange: int, box: Option<Box>, useBounding: bool, draws: seq<int>, i: nat)
    requires ValidDraws(|users|, maxChange, draws)
    requires i < |users|
    ensures var r := MoveUsers(users, maxChange, box, useBounding, draws);
      && r[i] == MoveNode(users[i], maxChange, MovementBox(box, useBounding), draws[i], draws[|users| + i])
      && r[i].range == users[i].range
    ensures !useBounding || box.None? ==>
      var r := MoveUsers(users, maxChange, box, useBounding, draws);
      && r[i].latitude == users[i].latitude + Degrees(draws[i])
      && r[i].longitude == users[i].longitude + Degrees(draws[|users| + i])
  {
    var n := |users|;
    var b := MovementBox(box, useBounding);
    var moved := MoveColumn(users, maxChange, draws[..n], b, true);
    assert draws[..n][i] == draws[i] && draws[n..][i] == draws[n + i];
    assert moved[i] == users[i].(latitude := ChangeLatLong(users[i].latitude, maxChange, draws[i], b, true));
  }

  /** Without a box a move is undone by the move with the opposite offsets,
      whenever those can be drawn too. */
  lemma MoveUndo(users: seq<Node>, maxChange: int, box: Option<Box>, useBounding: bool, draws: seq<int>, back: seq<int>)
    requires !useBounding || box.None?
    requires ValidDraws(|users|, maxChange, draws) && ValidDraws(|users|, maxChange, back)
    requires forall i :: 0 <= i < |draws| ==> back[i] == -draws[i]
    ensures MoveUsers(MoveUsers(users, maxChange, box, useBounding, draws), maxChange, box, useBounding, back) == users
  {
    var moved := MoveUsers(users, maxChange, box, useBounding, draws);
    var r := MoveUsers(moved, maxChange, box, useBounding, back);
    forall i | 0 <= i < |users|
      ensures r[i] == users[i]
    {
      MoveUsersAt(users, maxChange, box, useBounding, draws, i);
      MoveUsersAt(moved, maxChange, box, useBounding, back, i);
      assert back[i] == -draws[i] && back[|users| + i] == -draws[|users| + i];
    }
  }
}
