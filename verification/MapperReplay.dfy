/** The replay of a recorded input through a mapper. It runs the scans and solves itself, on a
    schedule that follows the stamps of the keyframes. */
module MapperReplay {
  import opened Basics
  import opened Motion
  import opened MapperTypes
  import opened MapperSpec
  import opened SolveAtomicity
  import opened GnssAttachment
  import opened LoopScans
  import opened EndOfRun
  import opened Replay
  import opened MapperObject

  datatype ReplayStats = ReplayStats(observations: nat, keyframes: nat, checks: nat, solves: nat, duration: int)

  function StampOf<G>(o: Observation<G>): int {
    match o
    case GnssObs(r, _, _) => r.stamp
    case ImuObs(t, _, _, _, _) => t
    case ImageObs(p) => p.stamp
    case OtherObs(t) => t
  }

  function StampOfEntry<G>(e: LogEntry<G>): int {
    match e
    case ObservationEntry(o) => StampOf(o)
    case KeyframeEntry(req, _) => req.stamp
  }

  /** The time of the first keyframe, refused or not. */
  function FirstKeyframe<G>(log: seq<LogEntry<G>>): Option<int> {
    if log == [] then None
    else
      var n := |log| - 1;
      var first := FirstKeyframe(log[..n]);
      if first.None? && log[n].KeyframeEntry? then Some(log[n].req.stamp) else first
  }

  /** How much data time the schedule spans. */
  function DurationOf<G>(log: seq<LogEntry<G>>): int {
    var first := FirstKeyframe(log);
    if log == [] || first.None? then 0 else StampOfEntry(log[|log| - 1]) - first.value
  }

  function ObservationsIn<G>(log: seq<LogEntry<G>>): nat {
    if log == [] then 0
    else ObservationsIn(log[..|log| - 1]) + if log[|log| - 1].ObservationEntry? then 1 else 0
  }

  /** A mapper state that only differs in poses, loops and images from a plain replay. */
  ghost predicate Tracks<G(!new)>(cfg: Config<G>, s: State<G>, log: seq<LogEntry<G>>, rs: seq<Reading>) {
    Agree(s, ReplayAll(cfg, log)) && GnssInvariant(cfg, s, rs)
  }

  lemma InsertTracks<G(!new)>(
    cfg: Config<G>, s: State<G>, log: seq<LogEntry<G>>, rs: seq<Reading>, req: Request<G>, bias: GyroBias)
    requires !cfg.recording && Tracks(cfg, s, log, rs)
    ensures
      var t := Insert(cfg, s, req, bias);
      && Tracks(cfg, t, log + [KeyframeEntry(req, bias)], rs)
      && |t.kfs| == |s.kfs| + if Accepts(s, req) then 1 else 0
  {
    hide Agree, GnssInvariant, Insert, ReplayAll;
    var qs := ReplayInvariant(cfg, log);
    assert Replaying(cfg) == cfg;
    InsertAgrees(cfg, s, ReplayAll(cfg, log), req, bias, rs, qs);
    InsertKeepsGnss(cfg, s, req, bias, rs);
    ReplayAdd(cfg, log, KeyframeEntry(req, bias));
    if Accepts(s, req) {
      var _ := InsertedKeyframe(cfg, s, req, bias);
    } else {
      RefusedSame(cfg, s, req, bias);
    }
  }

  lemma RefusedSame<G(!new)>(cfg: Config<G>, s: State<G>, req: Request<G>, bias: GyroBias)
    requires !Accepts(s, req)
    ensures Insert(cfg, s, req, bias).kfs == s.kfs
  {
  }

  lemma ObserveTracks<G(!new)>(cfg: Config<G>, s: State<G>, log: seq<LogEntry<G>>, rs: seq<Reading>, o: Observation<G>)
    requires !cfg.recording && Tracks(cfg, s, log, rs)
    ensures
      var t := Observe(cfg, s, o);
      Tracks(cfg, t, log + [ObservationEntry(o)], rs + ReadingOf(cfg, o)) && |t.kfs| == |s.kfs|
  {
    hide Agree, GnssInvariant, Observe, ReplayAll;
    var qs := ReplayInvariant(cfg, log);
    assert Replaying(cfg) == cfg;
    ObserveAgrees(cfg, s, ReplayAll(cfg, log), o, rs, qs);
    ObserveKeepsGnss(cfg, s, o, rs);
    ReplayAdd(cfg, log, ObservationEntry(o));
    ObserveOver(cfg, s, o, Poses(s.kfs), s.geo);
  }

  lemma SolveTracks<G(!new)>(
    cfg: Config<G>, par: ScanParams, tell: Tell, opt: GraphInput<G> -> GraphResult<G>,
    y: Told<G>, log: seq<LogEntry<G>>, rs: seq<Reading>)
    requires y.x.c.flight.None? && IsOptimizer(opt) && Tracks(cfg, y.x.c.s, log, rs)
    ensures
      var t := SolveNow(cfg, par, tell, opt, y).x.c.s;
      Tracks(cfg, t, log, rs) && |t.kfs| == |y.x.c.s.kfs|
  {
    hide Agree, GnssInvariant, SolveNow, Commit, Snapshot, ReplayAll;
    var s := y.x.c.s;
    SolveNowIs(cfg, par, tell, opt, y);
    var r := opt(Snapshot(s));
    CommitAgrees(cfg.m, s, r);
    AgreeTransitive(Commit(cfg.m, s, r), s, ReplayAll(cfg, log));
    CommitKeepsGnss(cfg, s, r, rs);
    CommitHeld(cfg.m, s, r);
  }

  lemma ScanTracks<G(!new)>(
    cfg: Config<G>, par: ScanParams, tell: Tell, opt: GraphInput<G> -> GraphResult<G>,
    detect: (seq<Keyframe<G>>, Query) -> seq<Edge<G>>, y: Told<G>, force: bool, log: seq<LogEntry<G>>, rs: seq<Reading>)
    requires y.x.scan.None? && Tracks(cfg, y.x.c.s, log, rs)
    ensures
      var t := ScanNow(cfg, par, tell, opt, detect, y, force).x.c.s;
      Tracks(cfg, t, log, rs) && |t.kfs| == |y.x.c.s.kfs|
  {
    hide Agree, GnssInvariant, ScanNow, BeginScan, MergeAll, ReplayAll;
    var s := y.x.c.s;
    ScanNowIs(cfg, par, tell, opt, detect, y, force);
    var (_, q) := BeginScan(par, s, y.x.k, force);
    if q.Some? {
      var edges := detect(s.kfs, q.value);
      MergeAgrees(cfg, s, edges);
      AgreeTransitive(Merge(cfg, s, edges), s, ReplayAll(cfg, log));
      MergeKeepsGnss(cfg, s, edges, rs);
    }
  }

  /** The time before the `i`-th. */
  function Previous(times: seq<int>, start: int, i: nat): int
    requires i <= |times|
  {
    if i == 0 then start else times[i - 1]
  }

  /** Data times at least a period apart. */
  ghost predicate Spaced(times: seq<int>, start: int, period: int) {
    forall i :: 0 <= i < |times| ==> times[i] - Previous(times, start, i) >= period
  }

  lemma SpacedMore(times: seq<int>, start: int, period: int, t: int)
    requires Spaced(times, start, period) && t - Previous(times, start, |times|) >= period
    ensures Spaced(times + [t], start, period)
  {
    var all := times + [t];
    forall i | 0 <= i < |all| ensures all[i] - Previous(all, start, i) >= period {
      assert Previous(all, start, i) == Previous(times, start, i);
      if i < |times| {
        assert times[i] - Previous(times, start, i) >= period;
      }
    }
  }

  /** When the last solve and scan ran, in data time. */
  datatype Clock = Clock(lastSolve: int, lastScan: int)

  datatype Periods = Periods(loopClosures: bool, scan: int, solve: int)

  function ScanPeriod(p: Periods): int {
    Max(SECOND / 10, p.scan)
  }

  /** The scans and solves so far, and the clock, agree. */
  ghost predicate OnTime(clock: Clock, first: int, p: Periods, scanTimes: seq<int>, solveTimes: seq<int>) {
    && Spaced(scanTimes, first, ScanPeriod(p)) && Spaced(solveTimes, first, p.solve)
    && clock.lastScan == Previous(scanTimes, first, |scanTimes|)
    && clock.lastSolve == Previous(solveTimes, first, |solveTimes|)
  }

  method FeedKeyframe<G(!new,==)>(
    mapper: Mapper<G>, req: Request<G>, bias: GyroBias, ghost log: seq<LogEntry<G>>, ghost rs: seq<Reading>)
    returns (id: Option<nat>)
    requires mapper.Valid() && !mapper.cfg.recording && Tracks(mapper.cfg, mapper.St(), log, rs)
    modifies mapper
    ensures mapper.Valid() && Tracks(mapper.cfg, mapper.St(), log + [KeyframeEntry(req, bias)], rs)
    ensures |mapper.keyframes| == |old(mapper.keyframes)| + if id.Some? then 1 else 0
  {
    hide Insert, Tracks, Increasing, GyroIntegration.Ordered;
    InsertTracks(mapper.cfg, mapper.St(), log, rs, req, bias);
    id := mapper.InsertKeyframe(req, bias);
  }

  method FeedObservation<G(!new,==)>(
    mapper: Mapper<G>, o: Observation<G>, ghost log: seq<LogEntry<G>>, ghost rs: seq<Reading>)
    returns (ghost qs: seq<Reading>)
    requires mapper.Valid() && !mapper.cfg.recording && Tracks(mapper.cfg, mapper.St(), log, rs)
    modifies mapper
    ensures mapper.Valid() && Tracks(mapper.cfg, mapper.St(), log + [ObservationEntry(o)], qs)
    ensures |mapper.keyframes| == |old(mapper.keyframes)|
  {
    hide Observe, Tracks, Increasing, GyroIntegration.Ordered;
    ObserveTracks(mapper.cfg, mapper.St(), log, rs, o);
    qs := rs + ReadingOf(mapper.cfg, o);
    mapper.OnNewObservation(o);
  }

  method Scan<G(!new,==)>(
    mapper: Mapper<G>, detect: (seq<Keyframe<G>>, Query) -> seq<Edge<G>>, ghost opt: GraphInput<G> -> GraphResult<G>,
    ghost log: seq<LogEntry<G>>, ghost rs: seq<Reading>)
    requires mapper.Valid() && Tracks(mapper.cfg, mapper.St(), log, rs)
    modifies mapper
    ensures mapper.Valid() && Tracks(mapper.cfg, mapper.St(), log, rs)
    ensures |mapper.keyframes| == |old(mapper.keyframes)|
  {
    hide ScanNow, Tracks, Increasing, GyroIntegration.Ordered;
    ScanTracks(mapper.cfg, mapper.par, mapper.tell, opt, detect, mapper.Whole(), false, log, rs);
    var _ := mapper.RunLoopClosureScan(false, detect, opt);
  }

  method Solve<G(!new,==)>(
    mapper: Mapper<G>, opt: GraphInput<G> -> GraphResult<G>, ghost log: seq<LogEntry<G>>, ghost rs: seq<Reading>)
    requires mapper.Valid() && IsOptimizer(opt) && Tracks(mapper.cfg, mapper.St(), log, rs)
    modifies mapper
    ensures mapper.Valid() && Tracks(mapper.cfg, mapper.St(), log, rs)
    ensures |mapper.keyframes| == |old(mapper.keyframes)|
  {
    hide SolveNow, Tracks, Increasing, GyroIntegration.Ordered, IsOptimizer;
    ghost var y := mapper.Whole();
    SolveTracks(mapper.cfg, mapper.par, mapper.tell, opt, y, log, rs);
    mapper.SolveGlobalGraph(opt);
    assert mapper.St() == mapper.Whole().x.c.s;
  }

  /** After a keyframe: a scan and then a solve, each if its period is over. */
  method RunDue<G(!new,==)>(
    mapper: Mapper<G>, now: int, clock: Clock, p: Periods,
    detect: (seq<Keyframe<G>>, Query) -> seq<Edge<G>>, opt: GraphInput<G> -> GraphResult<G>,
    ghost log: seq<LogEntry<G>>, ghost rs: seq<Reading>, ghost first: int, ghost scanned: seq<int>,
        ghost solved: seq<int>)
    returns (next: Clock, scan: bool, solve: bool)
    requires mapper.Valid() && IsOptimizer(opt) && Tracks(mapper.cfg, mapper.St(), log, rs)
    requires OnTime(clock, first, p, scanned, solved)
    modifies mapper
    ensures mapper.Valid() && Tracks(mapper.cfg, mapper.St(), log, rs)
    ensures |mapper.keyframes| == |old(mapper.keyframes)|
    ensures OnTime(next, first, p, if scan then scanned + [now] else scanned, if solve then solved + [now] else solved)
    ensures scan <==> p.loopClosures && now - clock.lastScan >= ScanPeriod(p)
    ensures solve <==> now - clock.lastSolve >= p.solve
  {
    hide Tracks, IsOptimizer, Mapper.St, Mapper.Valid, Spaced;
    next := clock;
    scan := p.loopClosures && now - clock.lastScan >= ScanPeriod(p);
    solve := now - clock.lastSolve >= p.solve;
    if scan {
      SpacedMore(scanned, first, ScanPeriod(p), now);
      next := next.(lastScan := now);
      Scan(mapper, detect, opt, log, rs);
    }
    if solve {
      SpacedMore(solved, first, p.solve, now);
      next := next.(lastSolve := now);
      Solve(mapper, opt, log, rs);
    }
  }

  /** None if the mapper runs threads of its own, or records its input. Otherwise its keyframes,
      pending queues and buffers in the end are those that the log determines, whatever the
      schedule. The schedule begins with the first keyframe of the log, and keeps scans and
      solves at least their period apart. */
  method ReplayMapperInput<G(!new,==)>(
    mapper: Mapper<G>, threads: bool, log: seq<LogEntry<G>>, p: Periods,
    detect: (seq<Keyframe<G>>, Query) -> seq<Edge<G>>, opt: GraphInput<G> -> GraphResult<G>)
    returns (stats: Option<ReplayStats>, ghost scanned: seq<int>, ghost solved: seq<int>)
    requires mapper.Valid() && mapper.St() == InitialState(mapper.cfg.m) && IsOptimizer(opt)
    modifies mapper
    ensures stats.None? <==> threads || mapper.cfg.recording
    ensures stats.None? ==> mapper.Whole() == old(mapper.Whole())
    ensures stats.Some? ==>
      && Agree(mapper.St(), ReplayAll(mapper.cfg, log))
      && stats.value.keyframes == |mapper.keyframes|
      && stats.value.observations == ObservationsIn(log)
      && stats.value.duration == DurationOf(log)
      && stats.value.checks == |scanned| && stats.value.solves == |solved|
      && OnSchedule(log, p, scanned, solved)
  {
    scanned, solved := [], [];
    if threads || mapper.cfg.recording {
      stats := None;
      return;
    }
    StartTracks(mapper.cfg);
    assert mapper.keyframes == mapper.St().kfs;
    hide Tracks, ReplayAll, IsOptimizer, Agree, Mapper.Valid, OnSchedule, DurationOf;
    var out;
    out, scanned, solved := FeedAll(mapper, log, p, detect, opt);
    stats := Some(out);
  }

  ghost predicate OnSchedule<G>(log: seq<LogEntry<G>>, p: Periods, scanned: seq<int>, solved: seq<int>) {
    var first := FirstKeyframe(log);
    if first.None? then scanned == [] && solved == []
    else Spaced(scanned, first.value, ScanPeriod(p)) && Spaced(solved, first.value, p.solve)
  }

  method FeedAll<G(!new,==)>(
    mapper: Mapper<G>, log: seq<LogEntry<G>>, p: Periods,
    detect: (seq<Keyframe<G>>, Query) -> seq<Edge<G>>, opt: GraphInput<G> -> GraphResult<G>)
    returns (out: ReplayStats, ghost scanned: seq<int>, ghost solved: seq<int>)
    requires mapper.Valid() && mapper.keyframes == [] && !mapper.cfg.recording && IsOptimizer(opt)
    requires Tracks(mapper.cfg, mapper.St(), [], [])
    modifies mapper
    ensures Agree(mapper.St(), ReplayAll(mapper.cfg, log))
    ensures out.keyframes == |mapper.keyframes| && out.observations == ObservationsIn(log)
    ensures out.checks == |scanned| && out.solves == |solved| && out.duration == DurationOf(log)
    ensures OnSchedule(log, p, scanned, solved)
  {
    hide Tracks, ReplayAll, IsOptimizer, Agree, Mapper.St, Mapper.Valid, OnTime;
    out := ReplayStats(0, 0, 0, 0, 0);
    var first: Option<int>, now := None, 0;
    var clock := Clock(0, 0);
    scanned, solved := [], [];
    ghost var rs: seq<Reading> := [];
    assert log[..0] == [];
    for i := 0 to |log|
      invariant mapper.Valid() && Tracks(mapper.cfg, mapper.St(), log[..i], rs)
      invariant out.keyframes == |mapper.keyframes| && out.observations == ObservationsIn(log[..i])
      invariant out.checks == |scanned| && out.solves == |solved| && out.duration == 0
      invariant first == FirstKeyframe(log[..i]) && (i > 0 ==> now == StampOfEntry(log[i - 1]))
      invariant if first.None? then scanned == [] && solved == [] else OnTime(clock, first.value, p, scanned, solved)
    {
      assert log[..i + 1] == log[..i] + [log[i]];
      match log[i]
      case ObservationEntry(o) =>
        now := StampOf(o);
        rs := FeedObservation(mapper, o, log[..i], rs);
        out := out.(observations := out.observations + 1);
      case KeyframeEntry(req, bias) =>
        now := req.stamp;
        var id := FeedKeyframe(mapper, req, bias, log[..i], rs);
        if id.Some? {
          out := out.(keyframes := out.keyframes + 1);
        }
        if first == None {
          first, clock := Some(now), Clock(now, now);
          StartOnTime(now, p);
        }
        var scan, solve;
        clock, scan, solve := RunDue(mapper, now, clock, p, detect, opt, log[..i + 1], rs, first.value, scanned,
            solved);
        if scan {
          scanned, out := scanned + [now], out.(checks := out.checks + 1);
        }
        if solve {
          solved, out := solved + [now], out.(solves := out.solves + 1);
        }
    }
    assert log[..|log|] == log;
    TracksAgrees(mapper.cfg, mapper.St(), log, rs);
    if first.Some? {
      OnTimeSpaced(clock, first.value, p, scanned, solved);
      out := out.(duration := now - first.value);
    }
    NoEntries(log);
  }

  lemma NoEntries<G>(log: seq<LogEntry<G>>)
    ensures FirstKeyframe(log).Some? ==> log != []
  {
  }

  lemma StartTracks<G(!new)>(cfg: Config<G>)
    ensures Tracks(cfg, InitialState(cfg.m), [], [])
  {
  }

  lemma TracksAgrees<G(!new)>(cfg: Config<G>, s: State<G>, log: seq<LogEntry<G>>, rs: seq<Reading>)
    requires Tracks(cfg, s, log, rs)
    ensures Agree(s, ReplayAll(cfg, log))
  {
  }

  lemma StartOnTime(now: int, p: Periods)
    ensures OnTime(Clock(now, now), now, p, [], [])
  {
  }

  lemma OnTimeSpaced(clock: Clock, first: int, p: Periods, scanTimes: seq<int>, solveTimes: seq<int>)
    requires OnTime(clock, first, p, scanTimes, solveTimes)
    ensures Spaced(scanTimes, first, ScanPeriod(p)) && Spaced(solveTimes, first, p.solve)
  {
  }
}
