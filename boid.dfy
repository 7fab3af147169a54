/** A single boid and the fading traces it leaves behind. Vector length and normalisation are
    floating-point square-root maths; they enter the model as given functions. */
module BoidAgent {
  import opened Vectors

  /** Length and normalisation of a vector, as the vector library computes them. */
  datatype VectorOps = VectorOps(length: Vec2 -> real, normalize: Vec2 -> Vec2)

  /** The four simulation parameters, as read from the settings inputs. */
  datatype Parameters = Parameters(maxSpeed: real, minSpeed: real, flockDistance: real, avoidDistance: real)

  /** The visible part of the layer: its top-left corner and its size. */
  datatype View = View(origin: Vec2, size: Vec2)

  const TimeToDisappear: real := 10.0
  const TimeBetweenTraces: real := 0.2
  /** How close to an edge of the view a boid gets nudged back. */
  const WallMargin: real := 20.0

  // ---------------------------------------------------------------- traces

  datatype TraceState = TraceState(fade: real, expired: bool)

  /** A new trace is fully visible and not expired. */
  const FreshTrace := TraceState(1.0, false)

  /** One tick of a trace: the fade drops by dt/10, and once it is at or below zero it is
      pinned at exactly zero and the trace expires. */
  function TraceStep(s: TraceState, dt: real): (t: TraceState)
    ensures t.fade >= 0.0
    ensures s.expired ==> t.expired
    ensures t.expired <==> s.expired || s.fade - dt / TimeToDisappear <= 0.0
    ensures !t.expired ==> t.fade == s.fade - dt / TimeToDisappear
    ensures t.expired && !s.expired ==> t.fade == 0.0
  {
    var f := s.fade - dt / TimeToDisappear;
    if f <= 0.0 then TraceState(0.0, true) else TraceState(f, s.expired)
  }

  /** A trace ticked once for each frame duration in `dts`. */
  function TraceRun(s: TraceState, dts: seq<real>): TraceState
    decreases |dts|
  {
    if dts == [] then s else TraceRun(TraceStep(s, dts[0]), dts[1..])
  }

  /** The total time of a sequence of frames. */
  function Elapsed(dts: seq<real>): real
  {
    if dts == [] then 0.0 else dts[0] + Elapsed(dts[1..])
  }

  predicate AllNonNegative(dts: seq<real>)
  {
    forall i :: 0 <= i < |dts| ==> dts[i] >= 0.0
  }

  lemma {:induction false} ElapsedNonNegative(dts: seq<real>)
    requires AllNonNegative(dts)
    ensures Elapsed(dts) >= 0.0
  {
    if dts != [] {
      ElapsedNonNegative(dts[1..]);
    }
  }

  /** A trace fades linearly: after frames lasting T seconds in total its fade is
      max(0, f - T/10), and it has expired exactly when f - T/10 <= 0. */
  lemma {:induction false} TraceFadesLinearly(s: TraceState, dts: seq<real>)
    requires s.fade >= 0.0 && (s.expired <==> s.fade == 0.0)
    requires AllNonNegative(dts)
    decreases |dts|
    ensures var f := s.fade - Elapsed(dts) / TimeToDisappear;
            TraceRun(s, dts) == if f <= 0.0 then TraceState(0.0, true) else TraceState(f, false)
  {
    if dts != [] {
      var t := TraceStep(s, dts[0]);
      assert AllNonNegative(dts[1..]) by {
        forall i | 0 <= i < |dts[1..]| ensures dts[1..][i] >= 0.0 {
          assert dts[1..][i] == dts[i + 1];
        }
      }
      ElapsedNonNegative(dts[1..]);
      TraceFadesLinearly(t, dts[1..]);
    }
  }

  /** A fresh trace expires once ten seconds have passed, and not before. */
  lemma FreshTraceLastsTenSeconds(dts: seq<real>)
    requires AllNonNegative(dts)
    ensures TraceRun(FreshTrace, dts).expired <==> Elapsed(dts) >= TimeToDisappear
  {
    TraceFadesLinearly(FreshTrace, dts);
  }

  /** A line segment a boid leaves behind, fading away over ten seconds. */
  class Trace {
    const pointA: Vec2
    const pointB: Vec2
    var fade: real
    var expired: bool

    function State(): TraceState
      reads this
    {
      TraceState(fade, expired)
    }

    constructor (a: Vec2, b: Vec2)
      ensures pointA == a && pointB == b
      ensures State() == FreshTrace
    {
      pointA := a;
      pointB := b;
      fade := 1.0;
      expired := false;
    }

    method FrameTick(dt: real)
      modifies this`fade, this`expired
      ensures State() == TraceStep(old(State()), dt)
    {
      fade := fade - dt / TimeToDisappear;
      if fade <= 0.0 {
        fade := 0.0;
        expired := true;
      }
    }
  }

  /** The traces of `ts` that have not expired, in their order (`RemoveAll(t => t.Expired)`). */
  function Live(ts: seq<Trace>): (r: seq<Trace>)
    reads set t | t in ts
    ensures forall i :: 0 <= i < |r| ==> r[i] in ts && !r[i].expired
    ensures |r| <= |ts|
  {
    if ts == [] then []
    else
      var last := ts[|ts| - 1];
      Live(ts[..|ts| - 1]) + if last.expired then [] else [last]
  }

  /** Removal keeps every trace that has not expired: none is lost but the expired ones. */
  lemma {:induction false} LiveKeepsUnexpired(ts: seq<Trace>)
    ensures forall i :: 0 <= i < |ts| && !ts[i].expired ==> ts[i] in Live(ts)
  {
    if ts != [] {
      var init := ts[..|ts| - 1];
      LiveKeepsUnexpired(init);
      forall i | 0 <= i < |ts| && !ts[i].expired
        ensures ts[i] in Live(ts)
      {
        if i < |ts| - 1 {
          assert ts[i] == init[i];
        }
      }
    }
  }

  predicate Distinct(ts: seq<Trace>)
  {
    forall i, j :: 0 <= i < j < |ts| ==> ts[i] != ts[j]
  }

  lemma {:induction false} LiveKeepsDistinct(ts: seq<Trace>)
    requires Distinct(ts)
    ensures Distinct(Live(ts))
  {
    if ts != [] {
      var init := ts[..|ts| - 1];
      LiveKeepsDistinct(init);
      assert ts[|ts| - 1] !in init;
    }
  }

  /** Which traces are live depends on nothing but the traces themselves. */
  twostate lemma LiveUnchanged(ts: seq<Trace>)
    requires unchanged(set t | t in ts)
    ensures Live(ts) == old(Live(ts))
  {
    if ts != [] {
      LiveUnchanged(ts[..|ts| - 1]);
    }
  }

  lemma LiveOfAppended(ts: seq<Trace>, t: Trace)
    requires !t.expired
    ensures Live(ts + [t]) == Live(ts) + [t]
  {
    assert (ts + [t])[..|ts|] == ts;
  }

  // ---------------------------------------------------------------- steering

  /** The four velocity contributions the simulator hands a boid each frame. */
  datatype Contributions = Contributions(flock: Vec2, align: Vec2, avoid: Vec2, predator: Vec2)
  {
    function Total(): Vec2 {
      flock.Plus(align).Plus(avoid).Plus(predator)
    }
  }

  const NoContributions := Contributions(Zero, Zero, Zero, Zero)

  /** One component of the wall nudge: the far edge is checked first, the near edge only
      when the far one does not apply. */
  function NudgeAxis(p: real, v: real, origin: real, size: real): real
  {
    if p >= origin + size - WallMargin then v - 1.0
    else if p <= origin + WallMargin then v + 1.0
    else v
  }

  /** A component moves by exactly -1, 0 or +1: down exactly when the position is at or past
      the far margin, up exactly when it is short of that and at or before the near margin. */
  lemma NudgeAxisIsUnitStep(p: real, v: real, origin: real, size: real)
    ensures var r := NudgeAxis(p, v, origin, size);
            (r == v - 1.0 || r == v || r == v + 1.0) &&
            (r == v - 1.0 <==> p >= origin + size - WallMargin) &&
            (r == v + 1.0 <==> p < origin + size - WallMargin && p <= origin + WallMargin) &&
            (r == v <==> origin + WallMargin < p < origin + size - WallMargin)
  {
  }

  /** The velocity after the nudge away from the walls of the view. */
  function WallNudge(position: Vec2, v: Vec2, view: View): Vec2
  {
    Vec2(NudgeAxis(position.x, v.x, view.origin.x, view.size.x),
         NudgeAxis(position.y, v.y, view.origin.y, view.size.y))
  }

  /** Each velocity component changes by -1, 0 or +1, away from the wall the boid is near;
      where both margins apply (a view narrower than 40) the far wall wins. */
  lemma WallNudgeIsUnitStep(position: Vec2, v: Vec2, view: View)
    ensures var r := WallNudge(position, v, view);
            (r.x == v.x - 1.0 || r.x == v.x || r.x == v.x + 1.0) &&
            (r.y == v.y - 1.0 || r.y == v.y || r.y == v.y + 1.0) &&
            (r.x < v.x <==> position.x >= view.origin.x + view.size.x - WallMargin) &&
            (r.x > v.x <==> position.x < view.origin.x + view.size.x - WallMargin && position.x <= view.origin.x + WallMargin) &&
            (r.y < v.y <==> position.y >= view.origin.y + view.size.y - WallMargin) &&
            (r.y > v.y <==> position.y < view.origin.y + view.size.y - WallMargin && position.y <= view.origin.y + WallMargin)
  {
    NudgeAxisIsUnitStep(position.x, v.x, view.origin.x, view.size.x);
    NudgeAxisIsUnitStep(position.y, v.y, view.origin.y, view.size.y);
  }

  /** The speed clamp. */
  function Clamp(v: Vec2, params: Parameters, ops: VectorOps): Vec2
  {
    var speed := ops.length(v);
    if speed > params.maxSpeed then ops.normalize(v).Times(params.maxSpeed)
    else if speed < params.minSpeed then ops.normalize(v).Times(params.minSpeed)
    else v
  }

  /** The clamp rescales a velocity only when its length is above the maximum or below the
      minimum, and the maximum is checked first. */
  lemma ClampOnlyOutsideRange(v: Vec2, params: Parameters, ops: VectorOps)
    ensures var r := Clamp(v, params, ops);
            (r != v ==> ops.length(v) > params.maxSpeed || ops.length(v) < params.minSpeed) &&
            (ops.length(v) > params.maxSpeed ==> r == ops.normalize(v).Times(params.maxSpeed)) &&
            (ops.length(v) <= params.maxSpeed && ops.length(v) < params.minSpeed ==>
               r == ops.normalize(v).Times(params.minSpeed))
  {
  }

  /** The velocity a boid ends a frame with. */
  function Steer(position: Vec2, velocity: Vec2, c: Contributions, view: View, params: Parameters, ops: VectorOps): Vec2
  {
    Clamp(WallNudge(position, velocity.Plus(c.Total()), view), params, ops)
  }

  /** A boid's steering state after a frame: it keeps the contributions it received, steers,
      and then advances by its new velocity times dt. */
  function Move(me: BoidState, dt: real, view: View, params: Parameters, ops: VectorOps): BoidState
  {
    var v := Steer(me.position, me.velocity, me.contributions, view, params, ops);
    BoidState(me.position.Plus(v.Times(dt)), v, me.contributions)
  }

  /** Whether a frame of length `dt` emits a trace, given the trace timer before it. */
  predicate EmitsTrace(timer: real, dt: real)
  {
    timer + dt >= TimeBetweenTraces
  }

  /** Emission cadence: the timer never ends a frame at or above 0.2 when it started below,
      and a frame no longer than 0.2 emits at most one trace and keeps the timer non-negative. */
  lemma TraceTimerStaysInRange(timer: real, dt: real)
    requires 0.0 <= timer < TimeBetweenTraces && 0.0 <= dt <= TimeBetweenTraces
    ensures var next := if EmitsTrace(timer, dt) then timer + dt - TimeBetweenTraces else timer + dt;
            0.0 <= next < TimeBetweenTraces
  {
  }

  /** The part of a boid the steering rules read and a frame writes. */
  datatype BoidState = BoidState(position: Vec2, velocity: Vec2, contributions: Contributions)

  class Boid {
    var position: Vec2
    var velocity: Vec2
    var flockVelocity: Vec2
    var alignVelocity: Vec2
    var avoidVelocity: Vec2
    var predatorVelocity: Vec2
    var lastTrace: Vec2
    var traces: seq<Trace>
    var traceTimer: real

    predicate Valid()
      reads this
    {
      Distinct(traces)
    }

    function Received(): Contributions
      reads this
    {
      Contributions(flockVelocity, alignVelocity, avoidVelocity, predatorVelocity)
    }

    function State(): BoidState
      reads this
    {
      BoidState(position, velocity, Received())
    }

    /** A boid starts at the origin with the given velocity, no contributions and no traces. */
    constructor (v: Vec2)
      ensures Valid()
      ensures State() == BoidState(Zero, v, NoContributions)
      ensures lastTrace == Zero && traces == [] && traceTimer == 0.0
    {
      position := Zero;
      velocity := v;
      flockVelocity, alignVelocity, avoidVelocity, predatorVelocity := Zero, Zero, Zero, Zero;
      lastTrace := Zero;
      traces := [];
      traceTimer := 0.0;
    }

    /** One frame: the velocity takes the contributions, the wall nudge and the speed clamp;
        the position advances by velocity times dt; a trace is emitted when the timer
        reaches 0.2; the traces expired before the frame are dropped and the rest ticked. */
    method FrameTick(dt: real, params: Parameters, view: View, ops: VectorOps)
      requires Valid()
      modifies this`velocity, this`position, this`traceTimer, this`lastTrace, this`traces
      modifies set t | t in traces
      ensures Valid()
      ensures velocity == Steer(old(position), old(velocity), old(Received()), view, params, ops)
      ensures position == old(position).Plus(velocity.Times(dt))
      ensures EmitsTrace(old(traceTimer), dt) ==>
                traceTimer == old(traceTimer) + dt - TimeBetweenTraces && lastTrace == position
      ensures !EmitsTrace(old(traceTimer), dt) ==>
                traceTimer == old(traceTimer) + dt && lastTrace == old(lastTrace)
      ensures var live := old(Live(traces));
              |traces| == |live| + (if EmitsTrace(old(traceTimer), dt) then 1 else 0) &&
              traces[..|live|] == live &&
              forall i :: 0 <= i < |live| ==> traces[i].State() == TraceStep(old(live[i].State()), dt)
      ensures EmitsTrace(old(traceTimer), dt) ==>
                var t := traces[|traces| - 1];
                fresh(t) && t.pointA == position && t.pointB == old(lastTrace) &&
                t.State() == TraceStep(FreshTrace, dt)
    {
      Advance(dt, params, view, ops);
      UpdateTraces(dt);
    }

    /** The movement half of a frame: the velocity takes the contributions, the wall nudge
        and the speed clamp, and the position advances by velocity times dt. */
    method Advance(dt: real, params: Parameters, view: View, ops: VectorOps)
      modifies this`velocity, this`position
      ensures velocity == Steer(old(position), old(velocity), old(Received()), view, params, ops)
      ensures position == old(position).Plus(velocity.Times(dt))
    {
      velocity := velocity.Plus(Received().Total());
      AvoidWalls(view);
      ClampSpeed(params, ops);
      position := position.Plus(velocity.Times(dt));
    }

    /** A frame as the flock sees it: the new steering state of the boid, with its traces
        kept valid. */
    method Step(dt: real, params: Parameters, view: View, ops: VectorOps)
      requires Valid()
      modifies this`velocity, this`position, this`traceTimer, this`lastTrace, this`traces
      modifies set t | t in traces
      ensures Valid()
      ensures State() == Move(old(State()), dt, view, params, ops)
    {
      FrameTick(dt, params, view, ops);
    }

    /** The trace half of a frame: emission, removal of the expired traces, and the tick of
        the remaining ones. */
    method UpdateTraces(dt: real)
      requires Valid()
      modifies this`traceTimer, this`lastTrace, this`traces
      modifies set t | t in traces
      ensures Valid()
      ensures EmitsTrace(old(traceTimer), dt) ==>
                traceTimer == old(traceTimer) + dt - TimeBetweenTraces && lastTrace == position
      ensures !EmitsTrace(old(traceTimer), dt) ==>
                traceTimer == old(traceTimer) + dt && lastTrace == old(lastTrace)
      ensures var live := old(Live(traces));
              |traces| == |live| + (if EmitsTrace(old(traceTimer), dt) then 1 else 0) &&
              traces[..|live|] == live &&
              forall i :: 0 <= i < |live| ==> traces[i].State() == TraceStep(old(live[i].State()), dt)
      ensures EmitsTrace(old(traceTimer), dt) ==>
                var t := traces[|traces| - 1];
                fresh(t) && t.pointA == position && t.pointB == old(lastTrace) &&
                t.State() == TraceStep(FreshTrace, dt)
    {
      EmitTrace(dt);
      PruneAndTick(dt);
    }

    /** Drops the expired traces and ticks the remaining ones. */
    method PruneAndTick(dt: real)
      requires Valid()
      modifies this`traces, set t | t in traces
      ensures Valid()
      ensures traces == old(Live(traces))
      ensures var live := old(Live(traces));
              forall i :: 0 <= i < |live| ==> live[i].State() == TraceStep(old(live[i].State()), dt)
    {
      RemoveExpiredTraces();
      TickTraces(dt);
    }

    /** Advances the trace timer and, when it reaches 0.2, appends a trace from the current
        position back to the last trace point, which then moves to the current position. */
    method EmitTrace(dt: real)
      requires Valid()
      modifies this`traceTimer, this`lastTrace, this`traces
      ensures Valid()
      ensures EmitsTrace(old(traceTimer), dt) ==>
                traceTimer == old(traceTimer) + dt - TimeBetweenTraces && lastTrace == position &&
                |traces| == |old(traces)| + 1 && traces[..|old(traces)|] == old(traces) &&
                var t := traces[|traces| - 1];
                fresh(t) && t.pointA == position && t.pointB == old(lastTrace) && t.State() == FreshTrace
      ensures !EmitsTrace(old(traceTimer), dt) ==>
                traceTimer == old(traceTimer) + dt && lastTrace == old(lastTrace) && traces == old(traces)
      ensures Live(traces) == old(Live(traces)) + if EmitsTrace(old(traceTimer), dt) then [traces[|traces| - 1]] else []
    {
      traceTimer := traceTimer + dt;
      if traceTimer >= TimeBetweenTraces {
        traceTimer := traceTimer - TimeBetweenTraces;
        var t := new Trace(position, lastTrace);
        LiveUnchanged(traces);
        LiveOfAppended(traces, t);
        traces := traces + [t];
        lastTrace := position;
      }
    }

    /** Drops the expired traces, keeping the order of the others. */
    method RemoveExpiredTraces()
      requires Valid()
      modifies this`traces
      ensures Valid()
      ensures traces == old(Live(traces))
    {
      LiveKeepsDistinct(traces);
      traces := Live(traces);
    }

    /** Nudges the velocity away from the walls of the view; the position is untouched. */
    method AvoidWalls(view: View)
      modifies this`velocity
      ensures velocity == WallNudge(position, old(velocity), view)
    {
      var v := velocity;
      if position.x >= view.origin.x + view.size.x - WallMargin {
        v := v.(x := v.x - 1.0);
      } else if position.x <= view.origin.x + WallMargin {
        v := v.(x := v.x + 1.0);
      }
      if position.y >= view.origin.y + view.size.y - WallMargin {
        v := v.(y := v.y - 1.0);
      } else if position.y <= view.origin.y + WallMargin {
        v := v.(y := v.y + 1.0);
      }
      velocity := v;
    }

    method ClampSpeed(params: Parameters, ops: VectorOps)
      modifies this`velocity
      ensures velocity == Clamp(old(velocity), params, ops)
    {
      var speed := ops.length(velocity);
      if speed > params.maxSpeed {
        velocity := ops.normalize(velocity).Times(params.maxSpeed);
      } else if speed < params.minSpeed {
        velocity := ops.normalize(velocity).Times(params.minSpeed);
      }
    }

    /** Ticks every trace once, in order. */
    method TickTraces(dt: real)
      requires Valid()
      modifies set t | t in traces
      ensures forall i :: 0 <= i < |traces| ==> traces[i].State() == TraceStep(old(traces[i].State()), dt)
    {
      assert forall k, m :: 0 <= k < m < |traces| ==> traces[k] != traces[m];
      var i := 0;
      while i < |traces|
        invariant 0 <= i <= |traces|
        invariant forall k :: 0 <= k < i ==> traces[k].State() == TraceStep(old(traces[k].State()), dt)
        invariant forall k :: i <= k < |traces| ==> traces[k].State() == old(traces[k].State())
      {
        traces[i].FrameTick(dt);
        i := i + 1;
      }
    }
  }
}
