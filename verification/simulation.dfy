/** The simulation loop of `generate_data`: record the users and their graph,
    then move the users, once per iteration.

    The users are given with their ranges already assigned; `draws[k]` holds
    the offsets the k-th `move_users` call draws (see `Movement.ValidDraws`). */
module Simulation {
  import opened Population
  import opened Matrix
  import opened Connectivity
  import opened Movement

  /** One recorded iteration: a copy of the users and their graph. */
  datatype Snapshot = Snapshot(users: seq<Node>, graph: Mat)

  /** How many times `for _ in range(iterations)` runs its body. */
  function Passes(iterations: int): (p: nat)
    ensures iterations > 0 ==> p == iterations
    ensures iterations <= 0 ==> p == 0
  {
    if iterations <= 0 then 0 else iterations
  }

  /** Every move of the run draws in-range offsets for all users. */
  predicate ValidRunDraws(n: nat, maxMove: int, draws: seq<seq<int>>) {
    forall k :: 0 <= k < |draws| ==> ValidDraws(n, maxMove, draws[k])
  }

  /** The populations of a run: entry `j` holds the users after the first
      `j` moves, for `j` up to `k`. It starts with the given users and keeps
      their number; `TrajectoryStep` relates consecutive entries. */
  function Trajectory(users: seq<Node>, maxMove: int, box: Option<Box>, useBounding: bool,
                      draws: seq<seq<int>>, k: nat): (pops: seq<seq<Node>>)
    requires ValidRunDraws(|users|, maxMove, draws)
    requires k <= |draws|
    ensures |pops| == k + 1
    ensures pops[0] == users
    ensures forall j :: 0 <= j <= k ==> |pops[j]| == |users|
  {
    if k == 0 then [users]
    else
      var before := Trajectory(users, maxMove, box, useBounding, draws, k - 1);
      before + [MoveUsers(before[k - 1], maxMove, box, useBounding, draws[k - 1])]
  }

  /** Each entry of a trajectory is one `move_users` after the previous one. */
  lemma {:induction false} TrajectoryStep(users: seq<Node>, maxMove: int, box: Option<Box>, useBounding: bool,
                                          draws: seq<seq<int>>, k: nat, j: nat)
    requires ValidRunDraws(|users|, maxMove, draws)
    requires j < k <= |draws|
    ensures var pops := Trajectory(users, maxMove, box, useBounding, draws, k);
      pops[j + 1] == MoveUsers(pops[j], maxMove, box, useBounding, draws[j])
  {
    if j < k - 1 {
      TrajectoryStep(users, maxMove, box, useBounding, draws, k - 1, j);
    }
  }

  /** `output` holds, in order, the populations `pops[0], pops[1], ...`,
      each with the graph built from it. */
  predicate Recorded(dist: Distance, pops: seq<seq<Node>>, output: seq<Snapshot>) {
    && |output| <= |pops|
    && forall j :: 0 <= j < |output| ==>
         && output[j].users == pops[j]
         && |pops[j]| >= 1
         && GraphOf(dist, pops[j], output[j].graph)
  }

  /** Recording the next population with its graph extends the record. */
  lemma RecordNext(dist: Distance, pops: seq<seq<Node>>, output: seq<Snapshot>, graph: Mat)
    requires Recorded(dist, pops, output)
    requires |output| < |pops|
    requires |pops[|output|]| >= 1
    requires GraphOf(dist, pops[|output|], graph)
    ensures Recorded(dist, pops, output + [Snapshot(pops[|output|], graph)])
  {
    var next := output + [Snapshot(pops[|output|], graph)];
    forall j | 0 <= j < |next|
      ensures next[j].users == pops[j] && |pops[j]| >= 1 && GraphOf(dist, pops[j], next[j].graph)
    {
      if j < |output| {
        assert next[j] == output[j];
      }
    }
  }

  /** `generate_data` lines 188-194. `output[k]` holds a copy of the users
      after `k` moves and their graph; `last` is the population after the
      final move, which the source computes but never records. The graph of
      an empty population cannot be built (Python's `max` of an empty list),
      so a run with at least one iteration needs a user. */
  method GenerateData(dist: Distance, users: seq<Node>, maxMove: int, box: Option<Box>, useBounding: bool,
                      iterations: int, draws: seq<seq<int>>)
    returns (output: seq<Snapshot>, last: seq<Node>)
    requires iterations > 0 ==> |users| >= 1
    requires |draws| == Passes(iterations)
    requires ValidRunDraws(|users|, maxMove, draws)
    ensures |output| == Passes(iterations)
    ensures Recorded(dist, Trajectory(users, maxMove, box, useBounding, draws, |draws|), output)
    ensures |output| > 0 ==> output[0].users == users
    ensures last == Trajectory(users, maxMove, box, useBounding, draws, |draws|)[|draws|]
    ensures |output| == 0 ==> last == users
    ensures useBounding && box.Some? && box.value.WellFormed() ==>
      && InBoxAfterFirst(output, box.value)
      && (|output| > 0 ==> AllInBox(last, box.value))
  {
    var pops := Trajectory(users, maxMove, box, useBounding, draws, |draws|);
    output := [];
    var current := users;
    var k := 0;
    while k < Passes(iterations)
      invariant 0 <= k <= |draws|
      invariant |output| == k
      invariant current == pops[k]
      invariant Recorded(dist, pops, output)
      invariant useBounding && box.Some? && box.value.WellFormed() ==>
        && InBoxAfterFirst(output, box.value)
        && (k > 0 ==> AllInBox(current, box.value))
    {
      assert |current| == |users| >= 1;
      TrajectoryStep(users, maxMove, box, useBounding, draws, |draws|, k);
      output, current := Iteration(dist, maxMove, box, useBounding, draws, pops, output, current);
      k := k + 1;
    }
    last := current;
  }

  /** Every recorded population after the first lies in the box. */
  predicate InBoxAfterFirst(output: seq<Snapshot>, box: Box) {
    forall k :: 0 < k < |output| ==> AllInBox(output[k].users, box)
  }

  /** Appending a population that lies in the box keeps the record inside
      it; the first entry is exempt. */
  lemma InBoxAppend(output: seq<Snapshot>, s: Snapshot, box: Box)
    requires InBoxAfterFirst(output, box)
    requires |output| > 0 ==> AllInBox(s.users, box)
    ensures InBoxAfterFirst(output + [s], box)
  {
    var next := output + [s];
    forall k | 0 < k < |next|
      ensures AllInBox(next[k].users, box)
    {
      if k < |output| {
        assert next[k] == output[k];
      }
    }
  }

  /** The body of the loop: record a copy of the users with their graph,
      then move the users. */
  method Iteration(dist: Distance, maxMove: int, box: Option<Box>, useBounding: bool,
                   draws: seq<seq<int>>, pops: seq<seq<Node>>, output: seq<Snapshot>, current: seq<Node>)
    returns (recorded: seq<Snapshot>, next: seq<Node>)
    requires |output| < |draws| && |pops| == |draws| + 1
    requires Recorded(dist, pops, output)
    requires current == pops[|output|] && |current| >= 1
    requires ValidDraws(|current|, maxMove, draws[|output|])
    requires pops[|output| + 1] == MoveUsers(current, maxMove, box, useBounding, draws[|output|])
    requires useBounding && box.Some? && box.value.WellFormed() ==>
      && InBoxAfterFirst(output, box.value)
      && (|output| > 0 ==> AllInBox(current, box.value))
    ensures |recorded| == |output| + 1
    ensures recorded[..|output|] == output
    ensures Recorded(dist, pops, recorded)
    ensures next == pops[|output| + 1]
    ensures useBounding && box.Some? && box.value.WellFormed() ==>
      InBoxAfterFirst(recorded, box.value) && AllInBox(next, box.value)
  {
    var graph := GetGraph(dist, current);
    RecordNext(dist, pops, output, graph);
    if useBounding && box.Some? && box.value.WellFormed() {
      InBoxAppend(output, Snapshot(current, graph), box.value);
    }
    recorded := output + [Snapshot(current, graph)];
    next := MoveUsers(current, maxMove, box, useBounding, draws[|output|]);
  }

  /** Snapshot before move: each recorded population is one `move_users`
      after the one recorded before it. */
  lemma RecordedOrder(dist: Distance, users: seq<Node>, maxMove: int, box: Option<Box>, useBounding: bool,
                      draws: seq<seq<int>>, output: seq<Snapshot>)
    requires ValidRunDraws(|users|, maxMove, draws)
    requires Recorded(dist, Trajectory(users, maxMove, box, useBounding, draws, |draws|), output)
    ensures forall k :: 0 <= k < |output| - 1 ==>
      && |output[k].users| == |users|
      && output[k + 1].users == MoveUsers(output[k].users, maxMove, box, useBounding, draws[k])
  {
    var pops := Trajectory(users, maxMove, box, useBounding, draws, |draws|);
    forall k | 0 <= k < |output| - 1
      ensures |output[k].users| == |users|
      ensures output[k + 1].users == MoveUsers(output[k].users, maxMove, box, useBounding, draws[k])
    {
      TrajectoryStep(users, maxMove, box, useBounding, draws, |draws|, k);
      assert output[k].users == pops[k] && output[k + 1].users == pops[k + 1];
    }
  }

  /** With bounding on and a proper box, every population after the first
      move lies inside the box. */
  lemma TrajectoryInBox(users: seq<Node>, maxMove: int, box: Box, draws: seq<seq<int>>, k: nat, j: nat)
    requires ValidRunDraws(|users|, maxMove, draws)
    requires box.WellFormed()
    requires 0 < j <= k <= |draws|
    ensures AllInBox(Trajectory(users, maxMove, Some(box), true, draws, k)[j], box)
  {
    TrajectoryStep(users, maxMove, Some(box), true, draws, k, j - 1);
  }
}
