/** A run in which gyroscope readings come too late: the rotation attached to a keyframe is not that
    over all the readings, and consecutive ones do not compose. */
module GyroLateReadings {
  import opened Basics
  import opened Motion
  import opened GyroIntegration
  import opened MapperTypes
  import opened MapperSpec
  import opened SolveAtomicity
  import opened GyroAttachment

  // ----- Runs with nothing pending -----

  /** What the run below needs to know of a state and its history: nothing pending, nothing forgotten,
      the sensor where the vehicle is. */
  ghost predicate Quiet<G(!new)>(cfg: Config<G>, s: State<G>, stamps: seq<int>, h: TurnHistory<G>) {
    && !s.finalized && s.pendingGnss == [] && s.images.pending == []
    && |s.kfs| == |stamps| && (forall i :: 0 <= i < |stamps| ==> s.kfs[i].stamp == stamps[i])
    && s.gyro.samples == h.hist && s.gyro.sensorPose == cfg.m.one && (s.gyro.sensor == "" || s.gyro.sensor == "imu")
  }

  const NO_BIAS := GyroBias(Vec(0.0, 0.0, 0.0), 0.0, true)

  lemma QuietInsert<G(!new)>(cfg: Config<G>, s: State<G>, t: int, src: G, stamps: seq<int>, h: TurnHistory<G>)
    requires Quiet(cfg, s, stamps, h) && (stamps == [] || stamps[|stamps| - 1] < t)
    ensures
      var ev := KeyframeEvent(Request(t, "odom", src, 0), NO_BIAS);
      var g := TurnStep(cfg, s, h, Input(ev));
      && Quiet(cfg, Step(cfg, s, ev), stamps + [t], g)
      && g == h.(turns := h.turns + [Turn(|h.hist|, cfg.m.one, NO_BIAS, h.hist, stamps != [])])
  {
    var req := Request(t, "odom", src, 0);
    InsertNothingPending(cfg, s, req, NO_BIAS);
    var s1 := Logged(cfg, s, KeyframeEntry(req, NO_BIAS));
    AppendedLast(cfg, s1, req, NO_BIAS);
    AppendedPending(cfg, s1, req, NO_BIAS);
    NewKeyframeTurn(cfg, s1, req, NO_BIAS);
    hide NewKeyframe, Appended, Insert;
  }

  function RateEvent<G(!new)>(cfg: Config<G>, t: int, w: Vec): Event<G> {
    ObservationEvent(ImuObs(t, "imu", cfg.m.one, Some(w), None))
  }

  lemma QuietReading<G(!new)>(cfg: Config<G>, s: State<G>, t: int, w: Vec, stamps: seq<int>, h: TurnHistory<G>)
    requires Quiet(cfg, s, stamps, h) && cfg.useGyro && cfg.gyroLabel("imu")
    requires h.hist == [] || (h.hist[|h.hist| - 1].stamp < t && t - h.hist[0].stamp <= GYRO_KEEP)
    ensures
      var ev := RateEvent(cfg, t, w);
      var g := TurnStep(cfg, s, h, Input(ev));
      Quiet(cfg, Step(cfg, s, ev), stamps, g) && g == h.(hist := h.hist + [GyroSample(t, w)])
  {
    var more := h.hist + [GyroSample(t, w)];
    assert DropOldRates(more, t, GYRO_KEEP) == more;
  }

  /** A state after `ops`. */
  ghost predicate QuietAfter<G(!new)>(
    cfg: Config<G>, opt: GraphInput<G> -> GraphResult<G>, ops: seq<Op<G>>, stamps: seq<int>, h: TurnHistory<G>)
  {
    Quiet(cfg, StateAfter(cfg, opt, ops), stamps, h) && TurnsOf(cfg, opt, ops) == h
  }

  lemma TurnsOfAdd<G(!new)>(cfg: Config<G>, opt: GraphInput<G> -> GraphResult<G>, ops: seq<Op<G>>, op: Op<G>)
    ensures TurnsOf(cfg, opt, ops + [op]) == TurnStep(cfg, StateAfter(cfg, opt, ops), TurnsOf(cfg, opt, ops), op)
  {
    hide TurnStep, StateAfter;
    assert (ops + [op])[..|ops|] == ops;
  }

  lemma KeyframeNext<G(!new)>(
    cfg: Config<G>, opt: GraphInput<G> -> GraphResult<G>, ops: seq<Op<G>>, stamps: seq<int>, h: TurnHistory<G>, t: int)
    returns (more: seq<Op<G>>)
    requires QuietAfter(cfg, opt, ops, stamps, h) && (stamps == [] || stamps[|stamps| - 1] < t)
    ensures QuietAfter(cfg, opt, more, stamps + [t],
                       h.(turns := h.turns + [Turn(|h.hist|, cfg.m.one, NO_BIAS, h.hist, stamps != [])]))
  {
    hide Quiet, TurnStep, Step, StateAfter, TurnsOf;
    var ev := KeyframeEvent(Request(t, "odom", cfg.m.one, 0), NO_BIAS);
    QuietInsert(cfg, StateAfter(cfg, opt, ops), t, cfg.m.one, stamps, h);
    StateAfterAdd(cfg, opt, ops, ev);
    TurnsOfAdd(cfg, opt, ops, Input(ev));
    more := ops + [Input(ev)];
  }

  lemma ReadingNext<G(!new)>(
    cfg: Config<G>, opt: GraphInput<G> -> GraphResult<G>, ops: seq<Op<G>>, stamps: seq<int>, h: TurnHistory<G>,
        t: int, w: Vec)
    returns (more: seq<Op<G>>)
    requires QuietAfter(cfg, opt, ops, stamps, h) && cfg.useGyro && cfg.gyroLabel("imu")
    requires h.hist == [] || (h.hist[|h.hist| - 1].stamp < t && t - h.hist[0].stamp <= GYRO_KEEP)
    ensures QuietAfter(cfg, opt, more, stamps, h.(hist := h.hist + [GyroSample(t, w)]))
  {
    hide Quiet, TurnStep, Step, StateAfter, TurnsOf, RateEvent;
    QuietReading(cfg, StateAfter(cfg, opt, ops), t, w, stamps, h);
    StateAfterAdd(cfg, opt, ops, RateEvent(cfg, t, w));
    TurnsOfAdd(cfg, opt, ops, Input(RateEvent(cfg, t, w)));
    more := ops + [Input(RateEvent(cfg, t, w))];
  }

  const STILL := Vec(0.0, 0.0, 0.0)
  const SPIN := Vec(0.0, 0.0, 1.0)

  function EarlyReadings(): seq<GyroSample> {
    [GyroSample(1, STILL)]
  }

  function AllReadings(): seq<GyroSample> {
    [GyroSample(1, STILL), GyroSample(3, SPIN), GyroSample(4, STILL)]
  }

  function TheTurns<G(!new)>(cfg: Config<G>): seq<Turn<G>> {
    [Turn(0, cfg.m.one, NO_BIAS, [], false),
     Turn(1, cfg.m.one, NO_BIAS, EarlyReadings(), true),
     Turn(3, cfg.m.one, NO_BIAS, AllReadings(), true)]
  }

  /** A keyframe at 3 after a reading at 1, which is taken to hold until 3; then a reading of another
      rate at 3, one more at 4, and a keyframe there. */
  lemma TheRun<G(!new)>(cfg: Config<G>, opt: GraphInput<G> -> GraphResult<G>) returns (ops: seq<Op<G>>)
    requires cfg.useGyro && cfg.gyroLabel("imu")
    ensures QuietAfter(cfg, opt, ops, [0, 3, 4], TurnHistory(AllReadings(), TheTurns(cfg)))
  {
    hide QuietAfter;
    var turns := TheTurns(cfg);
    var early, two := EarlyReadings(), [GyroSample(1, STILL), GyroSample(3, SPIN)];
    StartsQuiet(cfg, opt);
    ops := KeyframeNext(cfg, opt, [], [], TurnHistory([], []), 0);
    assert [] + [0] == [0] && [] + [turns[0]] == turns[..1];
    ops := ReadingNext(cfg, opt, ops, [0], TurnHistory([], turns[..1]), 1, STILL);
    assert [] + [GyroSample(1, STILL)] == early;
    ops := KeyframeNext(cfg, opt, ops, [0], TurnHistory(early, turns[..1]), 3);
    assert [0] + [3] == [0, 3] && turns[..1] + [turns[1]] == turns[..2];
    ops := ReadingNext(cfg, opt, ops, [0, 3], TurnHistory(early, turns[..2]), 3, SPIN);
    assert early + [GyroSample(3, SPIN)] == two;
    ops := ReadingNext(cfg, opt, ops, [0, 3], TurnHistory(two, turns[..2]), 4, STILL);
    assert two + [GyroSample(4, STILL)] == AllReadings();
    ops := KeyframeNext(cfg, opt, ops, [0, 3], TurnHistory(AllReadings(), turns[..2]), 4);
    assert [0, 3] + [4] == [0, 3, 4] && turns[..2] + [turns[2]] == turns;
  }

  /** The rotations attached to the second and third keyframes do not compose to the rotation over all
      the readings: no reading had passed the second one when it was inserted. */
  ghost predicate Missed(cfg: Config<Grid>, s: State<Grid>, h: TurnHistory<Grid>) {
    && |s.kfs| == |h.turns| == 3 && s.kfs[1].gyro.Some? && s.kfs[2].gyro.Some?
    && s.kfs[0].stamp == 0 && s.kfs[1].stamp == 3 && s.kfs[2].stamp == 4
    && h.hist == AllReadings() && h.turns == TheTurns(cfg)
    && !WasPassed(s, h, 1) && WasPassed(s, h, 2)
    && cfg.m.mul(s.kfs[1].gyro.value.rotation, s.kfs[2].gyro.value.rotation) == Quarters(0)
    && Rotation(cfg.m, h.hist, 0, 4, STILL) == Quarters(2)
  }

  lemma LateReadingsAreMissed(
    cfg: Config<Grid>, opt: GraphInput<Grid> -> GraphResult<Grid>) returns (ops: seq<Op<Grid>>)
    requires cfg.m == GridMotions() && cfg.useGyro && cfg.gyroLabel("imu") && 4 <= cfg.gyroMaxGap
    ensures Missed(cfg, StateAfter(cfg, opt, ops), TurnsOf(cfg, opt, ops))
  {
    hide TurnsOf, StateAfter, QuietAfter, Missed, TurnsAgree;
    ops := TheRun(cfg, opt);
    GyroFollowsHistory(cfg, opt, ops);
    QuietMeans(cfg, opt, ops, [0, 3, 4], TurnHistory(AllReadings(), TheTurns(cfg)));
    RotationsOfTheRun(cfg, StateAfter(cfg, opt, ops));
  }

  lemma RotationsOfTheRun(cfg: Config<Grid>, s: State<Grid>)
    requires cfg.m == GridMotions() && cfg.useGyro && 4 <= cfg.gyroMaxGap
    requires TurnsAgree(cfg, s, TurnHistory(AllReadings(), TheTurns(cfg)))
    requires |s.kfs| == 3 && s.kfs[0].stamp == 0 && s.kfs[1].stamp == 3 && s.kfs[2].stamp == 4
    ensures Missed(cfg, s, TurnHistory(AllReadings(), TheTurns(cfg)))
  {
    hide Integral, Rotation, RotationOver, TurnsAgree, GridMotions, Quarters, IsGroup;
    var h := TurnHistory(AllReadings(), TheTurns(cfg));
    assert !WasPassed(s, h, 1) && WasPassed(s, h, 2);
    TurnsMean(cfg, s);
    EarlyRotation(cfg.gyroMaxGap);
    StillAttached(cfg, EarlyReadings(), 0, 3);
    LateRotations(cfg.gyroMaxGap);
    StillAttached(cfg, AllReadings(), 3, 4);
    assert s.kfs[1].gyro.Some? && s.kfs[2].gyro.Some?;
    assert s.kfs[1].gyro.value.rotation == Quarters(0) && s.kfs[2].gyro.value.rotation == Quarters(0);
    TwiceStill();
  }

  lemma TwiceStill()
    ensures GridMotions().mul(Quarters(0), Quarters(0)) == Quarters(0)
  {
    One();
    GridGroup();
    hide IsGroup, GridMotions, Quarters;
    StillAgain(GridMotions(), GridMotions().one);
  }

  lemma One()
    ensures GridMotions().one == Quarters(0)
  {
  }

  lemma TurnsMean<G(!new)>(cfg: Config<G>, s: State<G>)
    requires TurnsAgree(cfg, s, TurnHistory(AllReadings(), TheTurns(cfg)))
    requires |s.kfs| == 3 && s.kfs[0].stamp == 0 && s.kfs[1].stamp == 3 && s.kfs[2].stamp == 4
    ensures s.kfs[1].gyro == RotationOver(cfg, EarlyReadings(), cfg.m.one, 0, 3, NO_BIAS)
    ensures s.kfs[2].gyro == RotationOver(cfg, AllReadings(), cfg.m.one, 3, 4, NO_BIAS)
  {
    hide RotationOver, Strict, Buffered;
    var turns := TheTurns(cfg);
    assert TurnOk(cfg, s.kfs, 1, turns[1], AllReadings()) && TurnOk(cfg, s.kfs, 2, turns[2], AllReadings());
    assert AllReadings()[..1] == EarlyReadings() && AllReadings()[..3] == AllReadings();
  }

  lemma StartsQuiet<G(!new)>(cfg: Config<G>, opt: GraphInput<G> -> GraphResult<G>)
    ensures QuietAfter(cfg, opt, [], [], TurnHistory([], []))
  {
  }

  lemma QuietMeans<G(!new)>(
    cfg: Config<G>, opt: GraphInput<G> -> GraphResult<G>, ops: seq<Op<G>>, stamps: seq<int>, h: TurnHistory<G>)
    requires QuietAfter(cfg, opt, ops, stamps, h)
    ensures TurnsOf(cfg, opt, ops) == h
    ensures
      var s := StateAfter(cfg, opt, ops);
      |s.kfs| == |stamps| && forall i :: 0 <= i < |stamps| ==> s.kfs[i].stamp == stamps[i]
  {
  }

  // ----- Its rotations -----

  lemma EarlyCovered(maxGap: int)
    requires 4 <= maxGap
    ensures Covered(EarlyReadings(), 0, 3, maxGap)
  {
    assert EarlyReadings()[0].stamp == 1;
  }

  lemma LateCovered(maxGap: int)
    requires 4 <= maxGap
    ensures Covered(AllReadings(), 3, 4, maxGap)
  {
    var s := AllReadings();
    assert s[2].stamp == 4 && s[0].stamp == 1;
  }

  lemma EarlyRates()
    ensures var s := EarlyReadings(); RateAt(s, 1, STILL) == RateAt(s, 2, STILL) == RateAt(s, 3, STILL) == STILL
  {
  }

  lemma LateRates()
    ensures
      var s := AllReadings();
      && RateAt(s, 1, STILL) == STILL && RateAt(s, 2, STILL) == SPIN && RateAt(s, 3, STILL) == SPIN
        && RateAt(s, 4, STILL) == STILL
  {
  }

  /** `q` quarter turns. */
  function Quarters(q: Quarter): Grid {
    Grid(0, 0, q)
  }

  lemma GridOperations(a: Grid, b: Grid, w: Vec)
    ensures
      var m := GridMotions();
      && m.one == Quarters(0) && m.mul(a, b) == GridMul(a, b) && m.inv(a) == GridInv(a)
      && m.exp(w, 1) == GridExp(w, 1) && m.rot(a) == Quarters(a.turn)
  {
  }

  lemma QuartersAdd(q: Quarter, r: Quarter)
    ensures GridMul(Quarters(q), Quarters(r)) == Quarters((q + r) % 4)
  {
    hide TurnX, TurnY;
    TurnOf0(q);
  }

  lemma Turning()
    ensures GridExp(STILL, 1) == Quarters(0) && GridExp(SPIN, 1) == Quarters(1)
  {
    assert STILL.z.Floor == 0 && SPIN.z.Floor == 1;
  }

  lemma RotationTick(s: seq<GyroSample>, t0: int, t: int)
    requires s != [] && t0 < t
    ensures
      var m := GridMotions();
      Rotation(m, s, t0, t, STILL) == m.mul(Rotation(m, s, t0, t - 1, STILL), m.exp(RateAt(s, t, STILL), 1))
  {
    hide GridMotions, RateAt;
  }

  lemma ExpStill()
    ensures GridMotions().exp(STILL, 1) == GridMotions().one
  {
    assert STILL.z.Floor == 0;
  }

  lemma RightNeutral<G(!new)>(m: Motions<G>, p: G)
    requires IsGroup(m)
    ensures m.mul(p, m.one) == p
  {
    assert Neutral(m, p);
  }

  /** One more tick without turning. */
  lemma TickStill(s: seq<GyroSample>, t0: int, t: int, p: Grid)
    requires s != [] && t0 < t && Rotation(GridMotions(), s, t0, t - 1, STILL) == p
    requires RateAt(s, t, STILL) == STILL
    ensures Rotation(GridMotions(), s, t0, t, STILL) == p
  {
    ExpStill();
    GridGroup();
    hide GridMotions, RateAt, Rotation, IsGroup;
    RotationTick(s, t0, t);
    RightNeutral(GridMotions(), p);
  }

  /** One more tick, turning. */
  lemma TickSpin(s: seq<GyroSample>, t0: int, t: int, p: Grid)
    requires s != [] && t0 < t && Rotation(GridMotions(), s, t0, t - 1, STILL) == p && p.x == p.y == 0
    requires RateAt(s, t, STILL) == SPIN
    ensures Rotation(GridMotions(), s, t0, t, STILL) == Quarters((p.turn + 1) % 4)
  {
    hide GridMotions, RateAt, GridMul, GridExp, Rotation;
    RotationTick(s, t0, t);
    GridOperations(p, GridExp(SPIN, 1), SPIN);
    Turning();
    QuartersAdd(p.turn, 1);
  }

  lemma NoTick(s: seq<GyroSample>, t: int)
    requires s != []
    ensures Rotation(GridMotions(), s, t, t, STILL) == Quarters(0)
  {
  }

  lemma EarlyRotation(maxGap: int)
    requires 4 <= maxGap
    ensures
      var g := Integral(GridMotions(), EarlyReadings(), 0, 3, STILL, maxGap);
      g.Some? && g.value.R == Quarters(0)
  {
    hide Covered, Rotation, RateAt;
    var s := EarlyReadings();
    EarlyCovered(maxGap);
    EarlyRates();
    NoTick(s, 0);
    TickStill(s, 0, 1, Quarters(0));
    TickStill(s, 0, 2, Quarters(0));
    TickStill(s, 0, 3, Quarters(0));
  }

  lemma LateRotations(maxGap: int)
    requires 4 <= maxGap
    ensures
      var s := AllReadings();
      var g := Integral(GridMotions(), s, 3, 4, STILL, maxGap);
      g.Some? && g.value.R == Quarters(0) && Rotation(GridMotions(), s, 0, 4, STILL) == Quarters(2)
  {
    hide Covered, Rotation, RateAt;
    var s := AllReadings();
    LateCovered(maxGap);
    LateRates();
    NoTick(s, 3);
    TickStill(s, 3, 4, Quarters(0));
    NoTick(s, 0);
    TickStill(s, 0, 1, Quarters(0));
    TickSpin(s, 0, 2, Quarters(0));
    TickSpin(s, 0, 3, Quarters(1));
    TickStill(s, 0, 4, Quarters(2));
  }

  lemma StillAgain<G(!new)>(m: Motions<G>, v: G)
    requires IsGroup(m)
    ensures Conjugate(m, v, m.one) == m.one && m.mul(m.one, m.one) == m.one
  {
    assert Neutral(m, v) && Neutral(m, m.one) && Inverses(m, v);
  }

  /** The rotation attached at an integral that does not turn. */
  lemma StillAttached(cfg: Config<Grid>, s: seq<GyroSample>, t0: int, t1: int)
    requires cfg.m == GridMotions() && cfg.useGyro
    requires
      var g := Integral(cfg.m, s, t0, t1, STILL, cfg.gyroMaxGap);
      g.Some? && g.value.R == Quarters(0)
    ensures
      var r := RotationOver(cfg, s, cfg.m.one, t0, t1, NO_BIAS);
      r.Some? && r.value.rotation == Quarters(0)
  {
    hide Integral, GridMotions, Conjugate, Quarters, IsGroup;
    assert NO_BIAS.bias == STILL;
    var g := Integral(cfg.m, s, t0, t1, STILL, cfg.gyroMaxGap);
    var r := RotationOver(cfg, s, cfg.m.one, t0, t1, NO_BIAS);
    assert r.Some?;
    assert r.value.rotation == Conjugate(cfg.m, cfg.m.rot(cfg.m.one), g.value.R);
    One();
    GridGroup();
    StillAgain(cfg.m, cfg.m.rot(cfg.m.one));
  }
}
