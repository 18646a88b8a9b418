/** A run in which a keyframe misses an accelerometer reading of its window: the second one of
    exactly its time. */
module GravityTwin {
  import opened Basics
  import opened Motion
  import opened MapperTypes
  import opened MapperSpec
  import opened SolveAtomicity
  import opened GnssAttachment
  import opened GravityAttachment

  function AccelerationEvent<G(!new)>(cfg: Config<G>, a: Acceleration): Event<G> {
    ObservationEvent(ImuObs(a.stamp, "imu", cfg.m.one, None, Some(a.acc)))
  }

  function KeyframeAt<G(!new)>(cfg: Config<G>, t: int): Event<G> {
    KeyframeEvent(Request(t, "odom", cfg.m.one, 0), GyroBias(Vec(0.0, 0.0, 0.0), 0.0, true))
  }

  /** A reading, a keyframe of the same time, and a second reading of that time. */
  function TwinRun<G(!new)>(cfg: Config<G>, a: Acceleration, b: Acceleration): seq<Op<G>> {
    [] + [Input(AccelerationEvent(cfg, a))] + [Input(KeyframeAt(cfg, a.stamp))] + [Input(AccelerationEvent(cfg, b))]
  }

  /** Readings `samples` of time `t`, and at most a keyframe of that time, which does not wait. */
  ghost predicate AtTime<G(!new)>(cfg: Config<G>, s: State<G>, t: int, samples: seq<Acceleration>) {
    && !s.finalized && s.pendingGnss == [] && s.images.pending == []
    && s.imu.samples == samples && s.imu.pending == [] && s.imu.sensorPose == cfg.m.one
    && (s.imu.sensor == if samples == [] then "" else "imu")
    && (forall i :: 0 <= i < |samples| ==> samples[i].stamp == t)
  }

  lemma HearTwin<G(!new)>(cfg: Config<G>, s: State<G>, h: History<G>, a: Acceleration)
    requires cfg.useImu && cfg.imuLabel("imu") && 0 <= cfg.gravityWindow && AtTime(cfg, s, a.stamp, h.hist)
    requires |h.fates| == |s.kfs| && forall k :: 0 <= k < |h.fates| ==> !h.fates[k].Waiting?
    ensures
      var t := Step(cfg, s, AccelerationEvent(cfg, a));
      && AtTime(cfg, t, a.stamp, h.hist + [a]) && t.kfs == s.kfs
      && HistoryStep(cfg, s, h, Input(AccelerationEvent(cfg, a))) == h.(hist := h.hist + [a])
  {
    var more := h.hist + [a];
    assert more[0].stamp == a.stamp;
    assert DropOldAccelerations(more, a.stamp, cfg.gravityWindow + GRAVITY_KEEP) == more;
    assert FatesAfter(h.fates, s.kfs, a, |h.hist| + 1, "imu", cfg.m.one) == h.fates;
  }

  lemma InsertTwin<G(!new)>(cfg: Config<G>, s: State<G>, h: History<G>, a: Acceleration)
    requires cfg.useImu && AtTime(cfg, s, a.stamp, [a]) && s.kfs == [] && h == History([a], [])
    ensures
      var t := Step(cfg, s, KeyframeAt(cfg, a.stamp));
      && AtTime(cfg, t, a.stamp, [a]) && |t.kfs| == 1 && t.kfs[0].stamp == a.stamp
      && HistoryStep(cfg, s, h, Input(KeyframeAt(cfg, a.stamp)))
        == History([a], [Settled(1, "imu", cfg.m.one, false, true)])
  {
    var req, bias := KeyframeAt(cfg, a.stamp).req, KeyframeAt(cfg, a.stamp).bias;
    InsertNothingPending(cfg, s, req, bias);
    var s1 := Logged(cfg, s, KeyframeEntry(req, bias));
    AppendedLast(cfg, s1, req, bias);
    NewKeyframeGnss(cfg, s1, req, bias);
    hide Insert, NewKeyframe, EnoughGravity;
    assert !ImuBehind(cfg, s1.imu, req.stamp);
    assert [] + [Settled(1, "imu", cfg.m.one, false, true)] == [Settled(1, "imu", cfg.m.one, false, true)];
  }

  lemma HistoryOfAdd<G(!new)>(cfg: Config<G>, opt: GraphInput<G> -> GraphResult<G>, ops: seq<Op<G>>, op: Op<G>)
    ensures HistoryOf(cfg, opt, ops + [op]) == HistoryStep(cfg, StateAfter(cfg, opt, ops), HistoryOf(cfg, opt, ops), op)
  {
    hide HistoryStep, StateAfter;
    assert (ops + [op])[..|ops|] == ops;
  }

  /** The state and history of the run. */
  lemma AfterTwinRun<G(!new)>(cfg: Config<G>, opt: GraphInput<G> -> GraphResult<G>, a: Acceleration, b: Acceleration)
    requires cfg.useImu && cfg.imuLabel("imu") && 0 <= cfg.gravityWindow && a.stamp == b.stamp
    ensures
      var s, h := StateAfter(cfg, opt, TwinRun(cfg, a, b)), HistoryOf(cfg, opt, TwinRun(cfg, a, b));
      && |s.kfs| == 1 && s.kfs[0].stamp == a.stamp && s.imu.pending == []
      && h == History([a, b], [Settled(1, "imu", cfg.m.one, false, true)])
  {
    var x, k, y := AccelerationEvent(cfg, a), KeyframeAt(cfg, a.stamp), AccelerationEvent(cfg, b);
    var one, two := [] + [Input(x)], [] + [Input(x)] + [Input(k)];
    assert StateAfter(cfg, opt, []) == InitialState(cfg.m) && HistoryOf(cfg, opt, []) == History([], []);
    hide StateAfter, HistoryOf, HistoryStep, Step, AccelerationEvent, KeyframeAt;
    StateAfterAdd(cfg, opt, [], x);
    HistoryOfAdd(cfg, opt, [], Input(x));
    HearTwin(cfg, InitialState(cfg.m), History([], []), a);
    assert [] + [a] == [a];
    StateAfterAdd(cfg, opt, one, k);
    HistoryOfAdd(cfg, opt, one, Input(k));
    InsertTwin(cfg, StateAfter(cfg, opt, one), History([a], []), a);
    StateAfterAdd(cfg, opt, two, y);
    HistoryOfAdd(cfg, opt, two, Input(y));
    HearTwin(cfg, StateAfter(cfg, opt, two), HistoryOf(cfg, opt, two), b);
    assert [a] + [b] == [a, b];
  }

  /** The keyframe is settled with one reading in its average, and two were received in its window. */
  lemma TwinIsMissed<G(!new)>(cfg: Config<G>, opt: GraphInput<G> -> GraphResult<G>, a: Acceleration, b: Acceleration)
    requires cfg.useImu && cfg.imuLabel("imu") && 0 <= cfg.gravityWindow && cfg.gravityMinSamples <= 1
    requires a.stamp == b.stamp
    ensures
      var s, h := StateAfter(cfg, opt, TwinRun(cfg, a, b)), HistoryOf(cfg, opt, TwinRun(cfg, a, b));
      && |s.kfs| == |h.fates| == 1 && h.fates[0].Settled? && s.imu.pending == []
      && Timely(h.hist) && TallyOf(h.hist, s.kfs[0].stamp, cfg.gravityWindow).n == 2
      && OnlyGravity(s.kfs[0].aux) == [GravityAux(Gravity("imu", cfg.m.one, a.stamp,
        Tally(AddVec(Vec(0.0, 0.0, 0.0), a.acc), 1)))]
  {
    var ops := TwinRun(cfg, a, b);
    AfterTwinRun(cfg, opt, a, b);
    var s, h := StateAfter(cfg, opt, ops), HistoryOf(cfg, opt, ops);
    hide StateAfter, HistoryOf, TwinRun, Agrees, OnlyGravity;
    assert Timely(h.hist);
    GravityFollowsHistory(cfg, opt, ops);
    GravityOfKeyframe(cfg, s, h, 0);
    assert [a, b][..1] == [a] && [a][..0] == [];
    assert TallyOf([a], a.stamp, cfg.gravityWindow) == Tally(AddVec(Vec(0.0, 0.0, 0.0), a.acc), 1);
  }
}
