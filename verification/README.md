# ComGraphGen in Dafny

A model of the communication-graph generator of the CrowdCache dataset
(`ComGraphGen.py`). A population of users, each with a position in degrees
and an integer communication range in metres, is simulated for a number of
iterations. Each iteration records a copy of the users and their
communication graph, then moves every user by a random number of metres,
optionally clamped to a bounding box.

Modules, in dependency order:

- `Population` (population.dfy): users (`Node`), positions, the four-number
  bounding box, and the distance function `Distance`. The geodesic distance is
  an arbitrary function parameter here.
- `Envelope` (envelope.dfy): `calc_bounding_box`, the min/max box of a population.
- `Matrix` (matrix.dfy): the list and numpy steps `get_graph` is built from:
  `max(rows, key=len)`, left padding with zeros, transpose, sum, difference and
  `np.diag(np.diag(a))`.
- `Connectivity` (connectivity.dfy): `is_connected` and `get_graph`, built the
  way the source builds it. First comes the ragged list of links of user `i`
  to users `i..n-1`. It is padded to the longest row, then mirrored with
  `a + a.T - diag(a)`. The predicate `GraphOf` characterises the result
  independently of that construction.
- `Movement` (movement.dfy): `change_lat_long` and `move_users`. The random
  offsets are parameters.
- `Edges` (edges.dfy): `get_edge_positions`, the edge list drawn on the map.
- `Simulation` (simulation.dfy): the loop of `generate_data`.
- `Scenarios` (scenarios.dfy): worked cases. They use users on one meridian
  and a flat distance.

Inputs the source takes from elsewhere are parameters:

- The distance between two positions is `dist: (Point, Point) -> real`.
  Symmetry and `dist(p, p) == 0` are assumed only by the lemmas that need
  them.
- Each `random.randrange` offset is an integer argument. `ValidOffset` states
  the range it is drawn from.
- One `move_users` call on `n` users draws `2n` offsets: all latitudes first,
  then all longitudes, as the two column `apply` calls draw them.

The diagonal of the graph is not cleared: entry `[i][i]` is
`is_connected(users[i], users[i])`, because `a + a.T - diag(a)` keeps the
diagonal of `a`. It is 1 for every user whose
range is not negative whenever the distance from a point to itself is 0
(`Connectivity.GraphDiagonal`, `Scenarios.ChainIsNotTransitive`).

For an empty population `get_graph` raises `ValueError`, because `max` is
taken of an empty list (ComGraphGen.py:47). So `get_graph` requires at least
one user.

## Model

| member | source | states |
|---|---|---|
| Connectivity.IsConnected | ComGraphGen.py:36-41 | the result is 0 or 1, and it is 1 exactly when the distance is within the smaller of the two ranges, boundary included |
| Connectivity.ConnectedSymmetric | ComGraphGen.py:36-41 | swapping the two users does not change the link test when the distance is symmetric for them |
| Connectivity.SelfConnected | ComGraphGen.py:36-41 | a user at distance 0 from itself is linked to itself exactly when its range is not negative |
| Connectivity.Links | ComGraphGen.py:45 | one row of the comprehension: `n - from` entries, entry `k` being the link test of user `i` and user `from + k` |
| Connectivity.RowsFrom | ComGraphGen.py:45 | the rows `from..n-1` of the ragged list: row `k` lists the links of user `from + k` to itself and every later user |
| Connectivity.ConnectionRows | ComGraphGen.py:45-46 | the ragged list has one row per user; row `i` is `n - i` long and holds the links of user `i` to users `i..n-1` |
| Matrix.Longest | ComGraphGen.py:47 | `max(lst, key=len)` picks a row no shorter than any other, and the first such row |
| Connectivity.PadWidth | ComGraphGen.py:47 | the padding width is `n`, the length of the first row |
| Matrix.Zeros | ComGraphGen.py:48 | `[0] * k` has `max(k, 0)` entries, all 0 |
| Matrix.PadLeft | ComGraphGen.py:48 | every row becomes exactly `width` long: zeros on the left, then the row's own entries in order |
| Connectivity.PaddedIsUpper | ComGraphGen.py:45-48 | padding row `i` with `i` zeros gives an n×n 0/1 matrix: the link of `i` and `j` at `[i][j]` for `i <= j`, and zeros below the diagonal |
| Connectivity.PaddedConnections | ComGraphGen.py:45-48 | the padded connection rows form that upper-triangular n×n matrix |
| Connectivity.UpperGraph | ComGraphGen.py:45-48 | the matrix before mirroring is square, upper-triangular and 0/1, with the link tests on and above the diagonal |
| Matrix.Transpose | ComGraphGen.py:49 | `a.T` has entry `[j][i]` of `a` at `[i][j]` |
| Matrix.TransposeInvolution | ComGraphGen.py:49 | transposing an n×n array twice gives it back |
| Matrix.Add | ComGraphGen.py:49 | element-wise sum of two n×n arrays |
| Matrix.Sub | ComGraphGen.py:49 | element-wise difference of two n×n arrays |
| Matrix.DiagOnly | ComGraphGen.py:49 | `np.diag(np.diag(a))` keeps the diagonal of `a` and is 0 elsewhere |
| Matrix.MirrorUpper | ComGraphGen.py:49 | mirroring an upper-triangular matrix keeps its diagonal and upper triangle, and copies the upper triangle below: nothing is counted twice |
| Connectivity.MirroredGraph | ComGraphGen.py:49 | the mirror of a 0/1 upper-triangular matrix is 0/1 and symmetric |
| Connectivity.GetGraph | ComGraphGen.py:44-50 | for n >= 1 the graph is an n×n symmetric 0/1 matrix whose `[i][j]`, for `i <= j`, is the link test of users `i` and `j` |
| Connectivity.GraphOfUnique | ComGraphGen.py:44-50 | symmetry and the upper triangle determine the graph: two matrices that both satisfy the characterisation are equal |
| Connectivity.GraphMatchesPairwise | ComGraphGen.py:44-50 | with a symmetric distance every entry, below the diagonal too, is the link test of its row and column user |
| Connectivity.GraphDiagonal | ComGraphGen.py:38-39 | with zero self-distance, the diagonal entry of a user is 1 exactly when its range is not negative (no self-loop is removed) |
| Movement.FloorHalf | ComGraphGen.py:55 | Python's `a // 2`: `2q <= a < 2q + 2`, for negative `a` too |
| Movement.ValidOffsetBounds | ComGraphGen.py:55 | an offset can be drawn from `randrange(-1*m//2, m//2)` exactly when `-m-1 <= 2k <= m-2` |
| Movement.OffsetExists | ComGraphGen.py:55 | an offset can be drawn at all exactly when the maximum move is at least 1 |
| Movement.Clamp | ComGraphGen.py:56-66 | a value above `hi` becomes `hi`; otherwise a value below `lo` becomes `lo`; any other value is kept; so with `lo <= hi` the result lies in `[lo, hi]` |
| Movement.ClampIdempotent | ComGraphGen.py:56-66 | clamping twice to a proper interval is clamping once |
| Movement.ClampInvertedNotIdempotent | ComGraphGen.py:56-66 | with an inverted interval the test order makes the clamp move a value twice |
| Movement.ChangeLatLong | ComGraphGen.py:54-67 | without a box the coordinate moves by exactly `k * 0.00001`, which is within the floor-division bounds; with a box a position past the upper edge lands on that edge, otherwise one past the lower edge lands on the lower edge, and any other position is kept; with a proper box the result lies in the latitude or longitude interval |
| Movement.MoveNode | ComGraphGen.py:73-74 | one user's move keeps its range, moves it exactly without a box, and keeps it in a proper box |
| Movement.MoveColumn | ComGraphGen.py:73-74 | a column `apply` changes only the chosen coordinate of each user, by that user's own offset |
| Movement.MoveUsers | ComGraphGen.py:69-74 | the number of users is kept; with bounding on and a proper box every user ends inside it |
| Movement.MoveUsersAt | ComGraphGen.py:69-74 | user `i` keeps its place and range and moves by offsets `i` and `n + i` only; switching bounding off removes the clamp, so the move is then exact |
| Movement.MoveUndo | ComGraphGen.py:69-74 | without a box, a move followed by the move with opposite offsets restores the population |
| Envelope.Latitudes | ComGraphGen.py:33 | the latitude column, in user order |
| Envelope.Longitudes | ComGraphGen.py:33 | the longitude column, in user order |
| Envelope.MinOf | ComGraphGen.py:33 | the column minimum is no larger than any entry and is one of them |
| Envelope.MaxOf | ComGraphGen.py:33 | the column maximum is no smaller than any entry and is one of them |
| Envelope.CalcBoundingBox | ComGraphGen.py:32-34 | the box is well formed, holds every user, and each of its four edges is touched by some user |
| Envelope.BoundingBoxSmallest | ComGraphGen.py:32-34 | every box holding all users contains the computed box |
| Edges.RowEdgesMembers | ComGraphGen.py:83-87 | scanning row `i` reports exactly its 1-entries right of the diagonal, in column order |
| Edges.RowsEdgesMembers | ComGraphGen.py:82-87 | scanning rows `0..i-1` reports exactly their 1-entries right of the diagonal, row by row |
| Edges.AppendRowMajor | ComGraphGen.py:82-87 | row-major runs, the first wholly before the second, concatenate into a row-major run |
| Edges.AllEdgesSpec | ComGraphGen.py:82-87 | the edge list holds exactly the scanned pairs with entry 1, strictly increasing in row-major order (so no pair twice) |
| Edges.SquareEdges | ComGraphGen.py:82-83 | on an n×n matrix the scanned pairs are exactly the 1-entries strictly above the diagonal; skipping the last row loses nothing |
| Edges.GraphEdges | ComGraphGen.py:78-89 | on a communication graph the edges are exactly the linked pairs `i < j`; no self-link is drawn |
| Edges.NoLinksNoEdges | ComGraphGen.py:82-87 | a graph with no 1 above the diagonal, the empty graph included, yields no edges |
| Edges.NoLinksRows | ComGraphGen.py:82-87 | rows without a 1 right of the diagonal report no pair |
| Edges.LocatedAppend | ComGraphGen.py:85-87 | appending a pair and its two positions keeps the positions aligned with the pairs |
| Edges.ScanRow | ComGraphGen.py:83-87 | the inner loop appends exactly row `i`'s reported pairs, in column order, with the positions of both end points |
| Edges.GetEdgePositions | ComGraphGen.py:78-89 | the nested loops return exactly the pairs of the reference edge list, in row-major order, with the positions of both end points of each |
| Simulation.Passes | ComGraphGen.py:190 | `range(iterations)` runs `iterations` times, and not at all when `iterations <= 0` |
| Simulation.Trajectory | ComGraphGen.py:190-193 | the populations of a run start with the initial users and keep their number |
| Simulation.TrajectoryStep | ComGraphGen.py:190-193 | each population of a run is one `move_users`, with that move's offsets, after the one before it |
| Simulation.TrajectoryInBox | ComGraphGen.py:190-193 | with bounding on and a proper box, every population after the first move lies inside the box |
| Simulation.RecordNext | ComGraphGen.py:191-192 | appending the population after `k` moves and its graph extends a record of `k` snapshots |
| Simulation.GenerateData | ComGraphGen.py:188-194 | `max(iterations, 0)` snapshots; snapshot `k` holds the users after `k` moves and their graph, snapshot 0 the initial users; the final population is one unrecorded move after the last snapshot; with bounding on and a proper box every snapshot after the first, and the final population, lie inside the box |
| Simulation.Iteration | ComGraphGen.py:191-193 | one pass records the current users with their graph, keeps the earlier snapshots, and leaves the users one move further |
| Simulation.InBoxAppend | ComGraphGen.py:192 | recording a population that lies in the box keeps every snapshot after the first inside it |
| Simulation.RecordedOrder | ComGraphGen.py:190-193 | snapshot then move: each recorded population is one `move_users` after the previous one |
| Scenarios.LineDistanceProper | ComGraphGen.py:38 | the flat meridian distance used by the worked cases is symmetric and 0 from a point to itself, as the geodesic is |
| Scenarios.ChainIsNotTransitive | ComGraphGen.py:44-50 | three users 100 m apart with range 150 give `[[1,1,0],[1,1,1],[0,1,1]]`: linking is not transitive, and the diagonal is 1 |
| Scenarios.ShorterRangeDecides | ComGraphGen.py:39-40 | ranges 150 and 50 at 100 m give no link: the shorter range decides |
| Scenarios.ChainEdges | ComGraphGen.py:82-87 | the chain's edge list is `[(0,1), (1,2)]` |
| Scenarios.ClampAtEdge | ComGraphGen.py:55-59 | a 20 m move north from latitude 0.9999 is clamped to 1.0 in the unit box and reaches 1.0001 without one |
| Scenarios.OneMetreOnlyDown | ComGraphGen.py:55 | with a maximum move of 1 the only offset is -1, so every coordinate drifts down |

## Left out

- The geodesic distance (`geopy`) is replaced by the parameter `dist`. No property of the ellipsoid is modelled.
- The random source is left out. `randrange` and `uniform` become explicit offsets. So are the initial positions of `generate_users` and the ranges of `set_range`, which the model takes as given.
- Floating point is left out. Coordinates are exact reals, so the rounding of `k * 0.00001` and of the additions is not reproduced.
- pandas and numpy are left out. A DataFrame becomes a `seq<Node>` in index order, and `users.copy()` becomes the immutable value itself.
- Reading the seed CSV (`get_users_from_csv`) is left out because it is I/O. Choosing between that file and `generate_users` is left out too.
- Box resolution in `generate_data` lines 180-186 is left out. The model receives the box that is finally used.
- Plotting (`plot_charts`), the file and JSON writers (`save_iteration_files`, `save_json`, `save_files`) and the configuration in `main` are left out: they are rendering and I/O.
- ReadSample.py is not part of this model. It only reads and prints saved output.
- Bounding boxes with fewer than four numbers are not modelled. `Box` always has four fields, so the `IndexError` such a list raises in `change_lat_long` cannot occur.
- Connectivity.GetGraph: the `ValueError` for an empty population is a precondition, `|users| >= 1`, not an error result.
- Envelope.CalcBoundingBox: an empty population gives NaN bounds in pandas. Reals have no NaN, so the model requires at least one user.

