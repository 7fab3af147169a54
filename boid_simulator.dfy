/** The flock: a fixed population of boids, each steered once per frame by cohesion,
    alignment, separation and a predator at the mouse. */
module BoidSimulation {
  import opened Vectors
  import opened BoidAgent

  /** The population size. */
  const Count: nat := 200

  const FlockPower: real := 0.003
  const AlignDistance: real := 50.0
  const AlignPower: real := 0.01
  const AvoidPower: real := 0.01
  const PredatorDistance: real := 80.0
  const PredatorPower: real := 0.01

  /** A velocity component drawn by `Random.Next(-5, 5)`, whose upper bound is exclusive. */
  type Draw = d: int | -5 <= d < 5

  /** What a rule adds up over the other boids, and within which distance of this one. */
  datatype Rule =
    | Cohesion(radius: real)    // positions of the neighbours
    | Alignment(radius: real)   // velocities of the neighbours
    | Separation(radius: real)  // pushes away from the neighbours, stronger when closer

  function Radius(rule: Rule): real
  {
    match rule
    case Cohesion(r) => r
    case Alignment(r) => r
    case Separation(r) => r
  }

  /** What one neighbour adds to the sum of a rule. */
  function Term(rule: Rule, me: BoidState, other: BoidState, length: Vec2 -> real): Vec2
  {
    match rule
    case Cohesion(_) => other.position
    case Alignment(_) => other.velocity
    case Separation(r) =>
      var difference := other.position.Minus(me.position);
      difference.Negated().Times(r - length(difference))
  }

  /** Whether boid `j` counts as a neighbour of boid `i` for a rule: it is another boid and
      strictly closer than the rule's radius. */
  predicate Neighbour(states: seq<BoidState>, i: nat, j: nat, rule: Rule, length: Vec2 -> real)
    requires i < |states| && j < |states|
  {
    j != i && length(states[j].position.Minus(states[i].position)) < Radius(rule)
  }

  /** The accumulator of a rule after visiting boids 0 .. upTo-1 in list order, starting
      from `start`. */
  function Accumulate(states: seq<BoidState>, i: nat, rule: Rule, length: Vec2 -> real, upTo: nat, start: Vec2): Vec2
    requires i < |states| && upTo <= |states|
  {
    if upTo == 0 then start
    else
      var sum := Accumulate(states, i, rule, length, upTo - 1, start);
      if Neighbour(states, i, upTo - 1, rule, length) then sum.Plus(Term(rule, states[i], states[upTo - 1], length))
      else sum
  }

  /** Cohesion: towards the neighbours' positions, with the boid's own position counted once
      and the sum divided by the population minus one. */
  function FlockOf(states: seq<BoidState>, i: nat, power: real, params: Parameters, ops: VectorOps): Vec2
    requires i < |states| && |states| > 1
  {
    var me := states[i].position;
    var mean := Accumulate(states, i, Cohesion(params.flockDistance), ops.length, |states|, me).DividedBy((|states| - 1) as real);
    mean.Minus(me).Times(power)
  }

  /** Alignment: towards the neighbours' velocities, in the same shape as cohesion. */
  function AlignOf(states: seq<BoidState>, i: nat, distance: real, power: real, ops: VectorOps): Vec2
    requires i < |states| && |states| > 1
  {
    var me := states[i].velocity;
    var mean := Accumulate(states, i, Alignment(distance), ops.length, |states|, me).DividedBy((|states| - 1) as real);
    mean.Minus(me).Times(power)
  }

  /** Separation: away from every neighbour within the avoid distance. */
  function AvoidOf(states: seq<BoidState>, i: nat, power: real, params: Parameters, ops: VectorOps): Vec2
    requires i < |states|
  {
    Accumulate(states, i, Separation(params.avoidDistance), ops.length, |states|, Zero).Times(power)
  }

  /** The push away from the predator at the mouse: zero unless the mouse is strictly
      within `distance`, and then stronger the closer it is. */
  function Predator(mouse: Vec2, me: BoidState, distance: real, power: real, ops: VectorOps): Vec2
  {
    var difference := mouse.Minus(me.position);
    var velocity := if ops.length(difference) < distance
      then ops.normalize(difference).Negated().Times(distance - ops.length(difference))
      else Zero;
    velocity.Times(power)
  }

  /** The predator push is zero unless the mouse is strictly within the distance; inside,
      it points away from the mouse, scaled by the power times how far inside the distance
      the mouse is, a factor that is positive for a positive power. */
  lemma PredatorOnlyWithinDistance(mouse: Vec2, me: BoidState, distance: real, power: real, ops: VectorOps)
    ensures var difference := mouse.Minus(me.position);
            var r := Predator(mouse, me, distance, power, ops);
            (ops.length(difference) >= distance ==> r == Zero) &&
            (ops.length(difference) < distance ==>
               r == ops.normalize(difference).Negated().Times((distance - ops.length(difference)) * power)) &&
            (ops.length(difference) < distance && power > 0.0 ==>
               (distance - ops.length(difference)) * power > 0.0)
  {
  }

  /** With no neighbour the accumulator of a rule stays at its start, even though the
      boid's own distance to itself may be below the radius: a boid never counts itself. */
  lemma {:induction false} NoNeighbourLeavesStart(states: seq<BoidState>, i: nat, rule: Rule, length: Vec2 -> real, upTo: nat, start: Vec2)
    requires i < |states| && upTo <= |states|
    requires forall j :: 0 <= j < |states| && j != i ==> length(states[j].position.Minus(states[i].position)) >= Radius(rule)
    ensures Accumulate(states, i, rule, length, upTo, start) == start
  {
    if upTo > 0 {
      NoNeighbourLeavesStart(states, i, rule, length, upTo - 1, start);
    }
  }

  /** A boid's own velocity and contributions never enter a rule's sum; only its position
      does, as the centre of the neighbourhood. */
  lemma {:induction false} OwnStateIsSkipped(states: seq<BoidState>, i: nat, rule: Rule, length: Vec2 -> real, upTo: nat, start: Vec2, me: BoidState)
    requires i < |states| && upTo <= |states|
    requires me.position == states[i].position
    ensures Accumulate(states[i := me], i, rule, length, upTo, start) == Accumulate(states, i, rule, length, upTo, start)
  {
    if upTo > 0 {
      OwnStateIsSkipped(states, i, rule, length, upTo - 1, start, me);
    }
  }

  /** Separation gives the zero vector when no other boid is strictly within the avoid
      distance. */
  lemma AvoidWithoutNeighbours(states: seq<BoidState>, i: nat, power: real, params: Parameters, ops: VectorOps)
    requires i < |states|
    requires forall j :: 0 <= j < |states| && j != i ==> ops.length(states[j].position.Minus(states[i].position)) >= params.avoidDistance
    ensures AvoidOf(states, i, power, params, ops) == Zero
  {
    NoNeighbourLeavesStart(states, i, Separation(params.avoidDistance), ops.length, |states|, Zero);
  }

  /** Cohesion still divides by the population minus one when no boid is near: for the full
      flock it gives (position/199 - position) times the power, which is not zero unless the
      position is. */
  lemma FlockWithoutNeighbours(states: seq<BoidState>, i: nat, params: Parameters, ops: VectorOps)
    requires |states| == Count && i < |states|
    requires forall j :: 0 <= j < |states| && j != i ==> ops.length(states[j].position.Minus(states[i].position)) >= params.flockDistance
    ensures var p := states[i].position;
            FlockOf(states, i, FlockPower, params, ops) == p.DividedBy(199.0).Minus(p).Times(0.003)
    ensures states[i].position != Zero ==> FlockOf(states, i, FlockPower, params, ops) != Zero
  {
    NoNeighbourLeavesStart(states, i, Cohesion(params.flockDistance), ops.length, |states|, states[i].position);
  }

  /** Alignment likewise gives (velocity/199 - velocity) times the power with no neighbour,
      which is not zero unless the velocity is. */
  lemma AlignWithoutNeighbours(states: seq<BoidState>, i: nat, ops: VectorOps)
    requires |states| == Count && i < |states|
    requires forall j :: 0 <= j < |states| && j != i ==> ops.length(states[j].position.Minus(states[i].position)) >= AlignDistance
    ensures var v := states[i].velocity;
            AlignOf(states, i, AlignDistance, AlignPower, ops) == v.DividedBy(199.0).Minus(v).Times(0.01)
    ensures states[i].velocity != Zero ==> AlignOf(states, i, AlignDistance, AlignPower, ops) != Zero
  {
    NoNeighbourLeavesStart(states, i, Alignment(AlignDistance), ops.length, |states|, states[i].velocity);
  }

  /** The four contributions boid `i` receives, computed from `states`. */
  function ContributionsOf(states: seq<BoidState>, i: nat, mouse: Vec2, params: Parameters, ops: VectorOps): Contributions
    requires i < |states| && |states| > 1
  {
    Contributions(
      FlockOf(states, i, FlockPower, params, ops),
      AlignOf(states, i, AlignDistance, AlignPower, ops),
      AvoidOf(states, i, AvoidPower, params, ops),
      Predator(mouse, states[i], PredatorDistance, PredatorPower, ops))
  }

  /** Boid `i` after its turn in a frame: it receives its contributions, computed from
      `states`, and then steers and moves. */
  function Advance(states: seq<BoidState>, i: nat, dt: real, mouse: Vec2, view: View, params: Parameters, ops: VectorOps): BoidState
    requires i < |states| && |states| > 1
  {
    Move(states[i].(contributions := ContributionsOf(states, i, mouse, params, ops)), dt, view, params, ops)
  }

  lemma AdvanceReceivesContributions(states: seq<BoidState>, i: nat, c: Contributions, dt: real, mouse: Vec2, view: View, params: Parameters, ops: VectorOps)
    requires i < |states| && |states| > 1
    requires c == ContributionsOf(states, i, mouse, params, ops)
    ensures Advance(states, i, dt, mouse, view, params, ops) == Move(states[i].(contributions := c), dt, view, params, ops)
  {
  }

  /** How a boid's turn computes its new state from the flock as it stands. */
  type Turn = (seq<BoidState>, nat) --> BoidState

  /** Whether a turn can be taken by every boid of a flock of `n`. */
  ghost predicate Defined(turn: Turn, n: nat)
  {
    forall s: seq<BoidState>, k: nat :: |s| == n && k < n ==> turn.requires(s, k)
  }

  /** The turn of the simulator for one frame. */
  function TurnOf(dt: real, mouse: Vec2, view: View, params: Parameters, ops: VectorOps): Turn
  {
    (s: seq<BoidState>, k: nat) requires k < |s| && |s| > 1 => Advance(s, k, dt, mouse, view, params, ops)
  }

  /** The flock after the first `upTo` boids have had their turn, in list order, each one
      reading the flock as the earlier turns left it. */
  ghost function SequentialFrame(states: seq<BoidState>, upTo: nat, turn: Turn): (r: seq<BoidState>)
    requires upTo <= |states| && Defined(turn, |states|)
    ensures |r| == |states|
    ensures forall k :: upTo <= k < |states| ==> r[k] == states[k]
  {
    if upTo == 0 then states
    else
      var prev := SequentialFrame(states, upTo - 1, turn);
      prev[upTo - 1 := turn(prev, upTo - 1)]
  }

  /** There is no snapshot: when boid `i` takes its turn, every earlier boid already holds
      its final state of the frame, and every later boid still holds its state from before. */
  lemma LaterBoidsSeeEarlierUpdates(states: seq<BoidState>, i: nat, turn: Turn)
    requires i < |states| && Defined(turn, |states|)
    ensures var seen := SequentialFrame(states, i, turn);
            var final := SequentialFrame(states, |states|, turn);
            (forall k :: 0 <= k < i ==> seen[k] == final[k]) &&
            (forall k :: i <= k < |states| ==> seen[k] == states[k]) &&
            final[i] == turn(seen, i)
  {
    FinishedTurnsStay(states, i + 1, |states|, turn);
    FinishedTurnsStay(states, i, |states|, turn);
  }

  /** One more turn extends the frame by one boid. */
  lemma NextTurn(states: seq<BoidState>, i: nat, turn: Turn, prev: seq<BoidState>)
    requires i < |states| && Defined(turn, |states|)
    requires prev == SequentialFrame(states, i, turn)
    ensures SequentialFrame(states, i + 1, turn) == prev[i := turn(prev, i)]
  {
  }

  /** Within a frame, the turn of boid `i` replaces its state by the move it makes with the
      contributions computed from the flock as the earlier turns left it. */
  lemma TurnTakesContributions(start: seq<BoidState>, i: nat, prev: seq<BoidState>, c: Contributions,
                               dt: real, mouse: Vec2, view: View, params: Parameters, ops: VectorOps)
    requires i < |start| && |start| > 1 && Defined(TurnOf(dt, mouse, view, params, ops), |start|)
    requires prev == SequentialFrame(start, i, TurnOf(dt, mouse, view, params, ops))
    requires c == ContributionsOf(prev, i, mouse, params, ops)
    ensures SequentialFrame(start, i + 1, TurnOf(dt, mouse, view, params, ops))
            == prev[i := Move(prev[i].(contributions := c), dt, view, params, ops)]
  {
    var turn := TurnOf(dt, mouse, view, params, ops);
    NextTurn(start, i, turn, prev);
    AdvanceReceivesContributions(prev, i, c, dt, mouse, view, params, ops);
    assert turn(prev, i) == Advance(prev, i, dt, mouse, view, params, ops);
  }

  /** Once boids 0 .. m-1 have had their turn, later turns leave them as they are. */
  lemma {:induction false} FinishedTurnsStay(states: seq<BoidState>, m: nat, n: nat, turn: Turn)
    requires m <= n <= |states| && Defined(turn, |states|)
    ensures var a := SequentialFrame(states, m, turn);
            var b := SequentialFrame(states, n, turn);
            forall k :: 0 <= k < m ==> b[k] == a[k]
    decreases n - m
  {
    if m < n {
      FinishedTurnsStay(states, m, n - 1, turn);
    }
  }

  /** The states of a list of boids, in order. */
  function States(bs: seq<Boid>): (r: seq<BoidState>)
    reads set b | b in bs
    ensures |r| == |bs| && forall k :: 0 <= k < |bs| ==> r[k] == bs[k].State()
  {
    if bs == [] then [] else States(bs[..|bs| - 1]) + [bs[|bs| - 1].State()]
  }

  class BoidSimulator {
    /** The flock; it is fixed when the simulator is built and never grows or shrinks. */
    const boids: seq<Boid>

    /** The population: 200 distinct boids. */
    predicate Population()
    {
      |boids| == Count && forall i, j :: 0 <= i < j < |boids| ==> boids[i] != boids[j]
    }

    predicate Valid()
      reads this, set b | b in boids
    {
      Population() && forall i :: 0 <= i < |boids| ==> boids[i].Valid()
    }

    /** Builds the 200 boids at the origin, boid k with the velocity drawn as `draws[k]`. */
    constructor (draws: seq<(Draw, Draw)>)
      requires |draws| == Count
      ensures Valid()
      ensures forall k :: 0 <= k < Count ==>
                fresh(boids[k]) && boids[k].traces == [] &&
                boids[k].State() == BoidState(Zero, OfInts(draws[k].0, draws[k].1), NoContributions)
    {
      var bs: seq<Boid> := [];
      var idx := 0;
      while idx < Count
        invariant 0 <= idx <= Count && |bs| == idx
        invariant forall i, j :: 0 <= i < j < |bs| ==> bs[i] != bs[j]
        invariant forall k :: 0 <= k < idx ==>
                    fresh(bs[k]) && bs[k].Valid() && bs[k].traces == [] &&
                    bs[k].State() == BoidState(Zero, OfInts(draws[k].0, draws[k].1), NoContributions)
      {
        var b := new Boid(OfInts(draws[idx].0, draws[idx].1));
        bs := bs + [b];
        idx := idx + 1;
      }
      boids := bs;
    }

    /** One frame: the boids take their turns in list order, each one first receiving its four
        contributions, computed from the flock as it is at that moment, and then advancing. */
    method FrameTick(dt: real, mouse: Vec2, view: View, params: Parameters, ops: VectorOps)
      requires Valid()
      modifies set b | b in boids
      modifies set b, t | b in boids && t in b.traces :: t
      ensures Valid()
      ensures States(boids) == SequentialFrame(old(States(boids)), |boids|, TurnOf(dt, mouse, view, params, ops))
    {
      ghost var start := States(boids);
      ghost var turn := TurnOf(dt, mouse, view, params, ops);
      assert Defined(turn, |start|);
      var i := 0;
      while i < |boids|
        invariant 0 <= i <= |boids|
        invariant Valid()
        invariant |start| == |boids| && Defined(turn, |start|)
        invariant States(boids) == SequentialFrame(start, i, turn)
        invariant forall k :: i <= k < |boids| ==> boids[k].traces == old(boids[k].traces)
      {
        assert forall k, m :: 0 <= k < m < |boids| ==> boids[k] != boids[m];
        NextInFrame(i, start, turn, dt, mouse, view, params, ops);
        i := i + 1;
      }
    }

    /** Boid `i` takes its turn within a frame that started from `start`. */
    method NextInFrame(i: nat, ghost start: seq<BoidState>, ghost turn: Turn, dt: real, mouse: Vec2, view: View, params: Parameters, ops: VectorOps)
      requires Valid() && i < |boids| == |start|
      requires turn == TurnOf(dt, mouse, view, params, ops) && Defined(turn, |start|)
      requires States(boids) == SequentialFrame(start, i, turn)
      modifies boids[i], set t | t in boids[i].traces
      ensures Valid()
      ensures States(boids) == SequentialFrame(start, i + 1, turn)
    {
      ghost var prev := States(boids);
      var c := TakeTurn(i, prev, dt, mouse, view, params, ops);
      TurnTakesContributions(start, i, prev, c, dt, mouse, view, params, ops);
    }

    /** The turn of boid `i`: its contributions are computed from the flock as it stands,
        and it then receives them and advances. */
    method TakeTurn(i: nat, ghost before: seq<BoidState>, dt: real, mouse: Vec2, view: View, params: Parameters, ops: VectorOps)
      returns (c: Contributions)
      requires Valid() && i < |boids| && before == States(boids)
      modifies boids[i], set t | t in boids[i].traces
      ensures c == ContributionsOf(before, i, mouse, params, ops)
      ensures States(boids) == before[i := Move(before[i].(contributions := c), dt, view, params, ops)]
      ensures Valid()
    {
      c := ComputeContributions(boids[i], i, before, mouse, params, ops);
      StillValid();
      StatesUnchanged(boids);
      ghost var next := Move(before[i].(contributions := c), dt, view, params, ops);
      ReceiveAndAdvance(i, before, c, next, dt, view, params, ops);
    }

    /** A flock none of whose boids changed is as well formed as it was. */
    twostate lemma StillValid()
      requires old(Valid()) && unchanged(set b | b in boids)
      ensures Valid()
    {
      assert forall k :: 0 <= k < |boids| ==> old(boids[k].Valid()) && boids[k].Valid();
    }

    /** Hands boid `i` its contributions and advances it to `next`; no other boid changes. */
    method ReceiveAndAdvance(i: nat, ghost before: seq<BoidState>, c: Contributions, ghost next: BoidState,
                             dt: real, view: View, params: Parameters, ops: VectorOps)
      requires Valid() && i < |boids| && before == States(boids)
      requires next == Move(before[i].(contributions := c), dt, view, params, ops)
      modifies boids[i], set t | t in boids[i].traces
      ensures States(boids) == before[i := next]
      ensures Valid()
    {
      assert forall k, m :: 0 <= k < m < |boids| ==> boids[k] != boids[m];
      var boid := boids[i];
      boid.flockVelocity := c.flock;
      boid.alignVelocity := c.align;
      boid.avoidVelocity := c.avoid;
      boid.predatorVelocity := c.predator;
      boid.Step(dt, params, view, ops);
      StatesAfterTurn(boids, i, before, next);
    }

    /** The four contributions of `boid`, the boid at index `i`, in the order the simulator
        computes them. */
    method ComputeContributions(boid: Boid, ghost i: nat, ghost states: seq<BoidState>, mouse: Vec2, params: Parameters, ops: VectorOps) returns (c: Contributions)
      requires Population() && i < |boids| && boids[i] == boid && states == States(boids)
      ensures c == ContributionsOf(states, i, mouse, params, ops)
    {
      var flock := Flock(boid, i, states, FlockPower, params, ops);
      var align := Align(boid, i, states, AlignDistance, AlignPower, ops);
      var avoid := Avoid(boid, i, states, AvoidPower, params, ops);
      var predator := Predator(mouse, boid.State(), PredatorDistance, PredatorPower, ops);
      c := Contributions(flock, align, avoid, predator);
    }

    /** Cohesion for `boid`, the boid at index `i`, summed over the flock in list order. */
    method Flock(boid: Boid, ghost i: nat, ghost states: seq<BoidState>, power: real, params: Parameters, ops: VectorOps) returns (v: Vec2)
      requires Population() && i < |boids| && boids[i] == boid && states == States(boids)
      ensures v == FlockOf(states, i, power, params, ops)
    {
      var meanPosition := boid.position;
      var j := 0;
      while j < |boids|
        invariant 0 <= j <= |boids|
        invariant meanPosition == Accumulate(states, i, Cohesion(params.flockDistance), ops.length, j, boid.position)
      {
        var other := boids[j];
        if other != boid {
          var difference := other.position.Minus(boid.position);
          if ops.length(difference) < params.flockDistance {
            meanPosition := meanPosition.Plus(other.position);
          }
        }
        j := j + 1;
      }
      meanPosition := meanPosition.DividedBy((|boids| - 1) as real);
      v := meanPosition.Minus(boid.position).Times(power);
    }

    /** Separation for `boid`, the boid at index `i`. */
    method Avoid(boid: Boid, ghost i: nat, ghost states: seq<BoidState>, power: real, params: Parameters, ops: VectorOps) returns (v: Vec2)
      requires Population() && i < |boids| && boids[i] == boid && states == States(boids)
      ensures v == AvoidOf(states, i, power, params, ops)
    {
      var closenessSum := Zero;
      var j := 0;
      while j < |boids|
        invariant 0 <= j <= |boids|
        invariant closenessSum == Accumulate(states, i, Separation(params.avoidDistance), ops.length, j, Zero)
      {
        var other := boids[j];
        if other != boid {
          var difference := other.position.Minus(boid.position);
          if ops.length(difference) < params.avoidDistance {
            var closeness := params.avoidDistance - ops.length(difference);
            closenessSum := closenessSum.Plus(difference.Negated().Times(closeness));
          }
        }
        j := j + 1;
      }
      v := closenessSum.Times(power);
    }

    /** Alignment for `boid`, the boid at index `i`. */
    method Align(boid: Boid, ghost i: nat, ghost states: seq<BoidState>, distance: real, power: real, ops: VectorOps) returns (v: Vec2)
      requires Population() && i < |boids| && boids[i] == boid && states == States(boids)
      ensures v == AlignOf(states, i, distance, power, ops)
    {
      var meanVelocity := boid.velocity;
      var j := 0;
      while j < |boids|
        invariant 0 <= j <= |boids|
        invariant meanVelocity == Accumulate(states, i, Alignment(distance), ops.length, j, boid.velocity)
      {
        var other := boids[j];
        if other != boid {
          var difference := other.position.Minus(boid.position);
          if ops.length(difference) < distance {
            meanVelocity := meanVelocity.Plus(other.velocity);
          }
        }
        j := j + 1;
      }
      meanVelocity := meanVelocity.DividedBy((|boids| - 1) as real);
      v := meanVelocity.Minus(boid.velocity).Times(power);
    }
  }

  /** The states of a flock depend on nothing but its boids' fields. */
  twostate lemma StatesUnchanged(bs: seq<Boid>)
    requires unchanged(set b | b in bs)
    ensures States(bs) == old(States(bs))
  {
    assert forall k :: 0 <= k < |bs| ==> States(bs)[k] == old(States(bs))[k];
  }

  /** After boid `i` alone has changed, the flock's states are the earlier ones with entry
      `i` replaced. */
  lemma StatesAfterTurn(bs: seq<Boid>, i: nat, before: seq<BoidState>, s: BoidState)
    requires i < |bs| && |before| == |bs|
    requires forall k :: 0 <= k < |bs| && k != i ==> bs[k].State() == before[k]
    requires bs[i].State() == s
    ensures States(bs) == before[i := s]
  {
    assert forall k :: 0 <= k < |bs| ==> States(bs)[k] == before[i := s][k];
  }
}
