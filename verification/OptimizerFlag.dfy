/** Which steps of the mapper set the flag of the optimizer: every one that changes what a solve
    would work on. So between them and the exchange of the optimizer nothing is forgotten. */
module OptimizerFlag {
  import opened Basics
  import opened Motion
  import opened MapperTypes
  import opened MapperSpec
  import opened SolveAtomicity
  import opened GnssAttachment
  import opened LoopSet

  /** `seen` is the last snapshot of a solve. `exchanged`: the optimizer took the flag, and its solve
      has not made its snapshot yet. */
  datatype Flagged<G> = Flagged(c: Concurrent<G>, seen: Option<GraphInput<G>>, exchanged: bool)

  /** Solves begin on behalf of the optimizer (`mine`) or of a caller. */
  datatype FlagOp<G> = Change(ev: Event<G>) | Exchange | BeginSolve(mine: bool) | EndSolve

  ghost function DoFlag<G(!new)>(
    cfg: Config<G>, opt: GraphInput<G> -> GraphResult<G>, x: Flagged<G>, op: FlagOp<G>): Flagged<G>
  {
    match op
    case Change(ev) => x.(c := Do(cfg, opt, x.c, Input(ev)))
    case Exchange =>
      if x.exchanged || !x.c.s.newData then x
      else x.(c := x.c.(s := x.c.s.(newData := false)), exchanged := true)
    case BeginSolve(mine) =>
      if (mine && !x.exchanged) || x.c.flight.Some? then x
      else
        var y := x.(exchanged := x.exchanged && !mine);
        if x.c.s.kfs == [] then y
        else y.(c := Do(cfg, opt, x.c, SolveBegins), seen := Some(Snapshot(x.c.s)))
    case EndSolve => x.(c := Do(cfg, opt, x.c, SolveEnds))
  }

  ghost function DoAllFlags<G(!new)>(
    cfg: Config<G>, opt: GraphInput<G> -> GraphResult<G>, ops: seq<FlagOp<G>>): Flagged<G>
  {
    if ops == [] then Flagged(Concurrent(InitialState(cfg.m), None, 0), None, false)
    else DoFlag(cfg, opt, DoAllFlags(cfg, opt, ops[..|ops| - 1]), ops[|ops| - 1])
  }

  /** Every keyframe, every loop and every attached GNSS reading is in the snapshot. */
  ghost predicate Known<G>(seen: Option<GraphInput<G>>, s: State<G>) {
    if seen.None? then s.kfs == [] && s.loops.edges == []
    else
      var g := seen.value;
      && |g.kfs| == |s.kfs| && g.loops == s.loops.edges
      && forall i :: 0 <= i < |s.kfs| && GNSS in s.kfs[i].nearest ==> s.kfs[i].nearest[GNSS].obs in g.kfs[i].aux
  }

  // ----- One step of the mapper -----

  lemma SameKnown<G>(seen: Option<GraphInput<G>>, s: State<G>, t: State<G>)
    requires Known(seen, s) && SameGnss(t.kfs, s.kfs) && t.loops.edges == s.loops.edges
    ensures Known(seen, t)
  {
  }

  lemma SameGnssSame<G>(a: seq<Keyframe<G>>, b: seq<Keyframe<G>>)
    requires a == b
    ensures SameGnss(a, b)
  {
  }

  /** What a step must do: raise the flag, or leave what is known alone, flag included. */
  ghost predicate Flags<G>(s: State<G>, t: State<G>) {
    t.newData || (!s.newData && SameGnss(t.kfs, s.kfs) && t.loops.edges == s.loops.edges)
  }

  lemma InsertFlags<G(!new)>(cfg: Config<G>, s: State<G>, req: Request<G>, bias: GyroBias)
    ensures Flags(s, Insert(cfg, s, req, bias))
  {
    hide RetryGnss, RetryImages, Appended;
  }

  lemma AddGnssFlags<G(!new)>(cfg: Config<G>, s: State<G>, r: Reading)
    ensures Flags(s, AddGnss(cfg, s, r))
  {
    hide Choose, Attached;
  }

  lemma AddImageFlags<G(!new)>(cfg: Config<G>, s: State<G>, p: Picture)
    requires AllWellSlotted(s.kfs)
    ensures Flags(s, AddImage(cfg, s, p))
  {
    hide AllWellSlotted, AttachAllImages, FinishEach, DropOldImages;
    var x := ImagePart(s.kfs, s.images.(pending := s.images.pending + [p]));
    RetryImagesKeepsGnss(cfg.imageMaxOffset, x);
    var y := RetryImagePart(cfg.imageMaxOffset, x);
    FinishKeepsGnss(cfg.imageDir, y.(im := y.im.(unwritten := [])), y.im.unwritten, Some((p.sensor, p.stamp)));
    SameGnssTransitive(AddImage(cfg, s, p).kfs, y.kfs, s.kfs);
  }

  lemma AddImuFlags<G(!new)>(cfg: Config<G>, s: State<G>, o: Observation<G>)
    requires AllWellSlotted(s.kfs) && o.ImuObs?
    ensures Flags(s, AddImu(cfg, s, o))
  {
    hide AllWellSlotted, ResolveGravity, AddGyroSample;
    SameGnssSame(s.kfs, s.kfs);
    if UsesGravity(cfg, o) {
      var imu := if s.imu.sensor == "" then s.imu.(sensor := o.sensor) else s.imu;
      var imu1 := imu.(samples := imu.samples + [Acceleration(o.stamp, o.acc.value)], sensorPose := o.sensorPose);
      ResolveKeepsGnss(RuleOf(cfg), ImuPart(s.kfs, imu1), o.stamp);
    }
    hide SameGnss;
  }

  lemma LoggedFlags<G(!new)>(cfg: Config<G>, s: State<G>, e: LogEntry<G>, t: State<G>)
    requires Flags(Logged(cfg, s, e), t)
    ensures Flags(s, t)
  {
    hide SameGnss;
  }

  lemma ObservationLeavesLoops<G(!new)>(cfg: Config<G>, s: State<G>, o: Observation<G>)
    requires AllWellSlotted(s.kfs)
    ensures Flags(s, Observe(cfg, s, o))
  {
    hide AllWellSlotted, AddGnss, AddImage, AddImu, Flags;
    var e := ObservationEntry(o);
    LoggedKfs(cfg, s, e);
    if s.finalized {
      FlagsSelf(s);
    } else if UsesImage(cfg, o) {
      AddImageFlags(cfg, s, o.picture);
    } else if UsesGnss(cfg, o) {
      AddGnssFlags(cfg, Logged(cfg, s, e), o.reading);
      LoggedFlags(cfg, s, e, Observe(cfg, s, o));
    } else if UsesGyro(cfg, o) || UsesGravity(cfg, o) {
      AddImuFlags(cfg, Logged(cfg, s, e), o);
      LoggedFlags(cfg, s, e, Observe(cfg, s, o));
    } else {
      FlagsSelf(s);
    }
  }

  lemma FlagsSelf<G>(s: State<G>)
    ensures Flags(s, s)
  {
  }

  lemma LoggedKfs<G(!new)>(cfg: Config<G>, s: State<G>, e: LogEntry<G>)
    ensures Logged(cfg, s, e).kfs == s.kfs
  {
  }

  lemma MergeFlags<G(!new)>(cfg: Config<G>, s: State<G>, edges: seq<Edge<G>>)
    ensures Flags(s, Merge(cfg, s, edges))
  {
    hide MergeAll;
    MergeAppends(cfg, s.kfs, s.loops, edges);
    SameGnssSame(s.kfs, s.kfs);
    hide SameGnss;
  }

  /** Every step that adds a keyframe or a loop, or attaches a GNSS reading, raises the flag. */
  lemma StepFlags<G(!new)>(cfg: Config<G>, s: State<G>, ev: Event<G>)
    requires AllWellSlotted(s.kfs)
    ensures Flags(s, Step(cfg, s, ev))
  {
    hide Flags, Insert, Observe, Merge, AllWellSlotted;
    match ev
    case KeyframeEvent(req, bias) => InsertFlags(cfg, s, req, bias);
    case ObservationEvent(o) => ObservationLeavesLoops(cfg, s, o);
    case LoopsEvent(edges) => MergeFlags(cfg, s, edges);
  }

  // ----- Whole runs -----

  ghost predicate Attachable<G(!new)>(cfg: Config<G>, s: State<G>) {
    exists rs :: GnssInvariant(cfg, s, rs)
  }

  ghost predicate FlagInvariant<G(!new)>(cfg: Config<G>, x: Flagged<G>) {
    && Attachable(cfg, x.c.s) && NothingYet(x.c.s)
    && (Known(x.seen, x.c.s) || x.c.s.newData || x.exchanged)
    && (x.c.s.kfs == [] ==> x.seen.None?)
  }

  lemma SnapshotKnows<G(!new)>(cfg: Config<G>, s: State<G>)
    requires AllWellSlotted(s.kfs)
    ensures Known(Some(Snapshot(s)), s)
  {
    forall i | 0 <= i < |s.kfs| && GNSS in s.kfs[i].nearest
      ensures s.kfs[i].nearest[GNSS].obs in NotPicture(s.kfs[i].aux) {
      var kf := s.kfs[i];
      var o := kf.nearest[GNSS].obs;
      assert WellSlotted(kf);
      assert [o][0] == o;
      OnlyGnssIn(kf.aux, o);
    }
  }

  lemma {:induction false} OnlyGnssIn<G>(aux: seq<Aux<G>>, o: Aux<G>)
    requires o in OnlyGnss(aux)
    ensures o in NotPicture(aux)
  {
    if o in OnlyGnss(aux[..|aux| - 1]) {
      OnlyGnssIn(aux[..|aux| - 1], o);
    }
  }

  lemma {:induction false} NoKeyframesNoLoops<G(!new)>(cfg: Config<G>, x: Loops<G>, es: seq<Edge<G>>)
    ensures MergeAll(cfg, [], x, es) == x
    decreases |es|
  {
    if es != [] {
      hide RejectedByOdometry;
      NoKeyframesNoLoops(cfg, x, es[..|es| - 1]);
    }
  }

  /** Without keyframes there are no loops. */
  ghost predicate NothingYet<G>(s: State<G>) {
    s.kfs == [] ==> s.loops.edges == []
  }

  lemma StepNothingYet<G(!new)>(cfg: Config<G>, s: State<G>, ev: Event<G>)
    requires NothingYet(s)
    ensures NothingYet(Step(cfg, s, ev))
  {
    hide Insert, Observe, MergeAll;
    StepKeepsOrigin(cfg, s, ev);
    if s.kfs == [] && ev.LoopsEvent? {
      NoKeyframesNoLoops(cfg, s.loops, ev.edges);
    }
  }

  lemma AttachableWellSlotted<G(!new)>(cfg: Config<G>, s: State<G>)
    requires Attachable(cfg, s)
    ensures AllWellSlotted(s.kfs)
  {
    var rs :| GnssInvariant(cfg, s, rs);
    OfflineWellSlotted(s.kfs, SetOf(rs), cfg.gnssMaxOffset);
  }

  lemma StepAttachable<G(!new)>(cfg: Config<G>, s: State<G>, ev: Event<G>)
    requires Attachable(cfg, s)
    ensures Attachable(cfg, Step(cfg, s, ev))
  {
    hide GnssInvariant, Insert, Observe, Merge;
    var rs :| GnssInvariant(cfg, s, rs);
    match ev
    case KeyframeEvent(req, bias) => InsertKeepsGnss(cfg, s, req, bias, rs);
    case ObservationEvent(o) => ObserveKeepsGnss(cfg, s, o, rs);
    case LoopsEvent(edges) => MergeKeepsGnss(cfg, s, edges, rs);
  }

  lemma SameAttachable<G(!new)>(cfg: Config<G>, s: State<G>, flag: bool)
    requires Attachable(cfg, s)
    ensures Attachable(cfg, s.(newData := flag))
  {
    hide Offline;
    var rs :| GnssInvariant(cfg, s, rs);
    assert GnssInvariant(cfg, s.(newData := flag), rs);
  }

  lemma ChangeKeepsFlag<G(!new)>(cfg: Config<G>, opt: GraphInput<G> -> GraphResult<G>, x: Flagged<G>, ev: Event<G>)
    requires FlagInvariant(cfg, x)
    ensures FlagInvariant(cfg, DoFlag(cfg, opt, x, Change(ev)))
  {
    hide Attachable, NothingYet, Step, Known, SameGnss, AllWellSlotted;
    var s, t := x.c.s, Step(cfg, x.c.s, ev);
    AttachableWellSlotted(cfg, s);
    StepAttachable(cfg, s, ev);
    StepNothingYet(cfg, s, ev);
    StepFlags(cfg, s, ev);
    StepGrows(cfg, s, ev);
    if Known(x.seen, s) && !t.newData {
      SameKnown(x.seen, s, t);
    }
  }

  lemma CommitSameGnss<G(!new)>(m: Motions<G>, s: State<G>, r: GraphResult<G>)
    ensures var t := Commit(m, s, r); SameGnss(t.kfs, s.kfs) && t.loops == s.loops && t.newData == s.newData
  {
    hide CommittedPoses;
  }

  lemma EndKeepsFlag<G(!new)>(cfg: Config<G>, opt: GraphInput<G> -> GraphResult<G>, x: Flagged<G>)
    requires FlagInvariant(cfg, x)
    ensures FlagInvariant(cfg, DoFlag(cfg, opt, x, EndSolve))
  {
    if x.c.flight.Some? {
      var s, r := x.c.s, x.c.flight.value;
      var rs :| GnssInvariant(cfg, s, rs);
      CommitKeepsGnss(cfg, s, r, rs);
      hide GnssInvariant, Commit;
      CommitSameGnss(cfg.m, s, r);
      if Known(x.seen, s) {
        SameKnown(x.seen, s, Commit(cfg.m, s, r));
      }
      hide Known;
    }
  }

  lemma BeginKeepsFlag<G(!new)>(cfg: Config<G>, opt: GraphInput<G> -> GraphResult<G>, x: Flagged<G>, mine: bool)
    requires FlagInvariant(cfg, x)
    ensures FlagInvariant(cfg, DoFlag(cfg, opt, x, BeginSolve(mine)))
  {
    hide Attachable, Snapshot, AllWellSlotted;
    var s := x.c.s;
    AttachableWellSlotted(cfg, s);
    SnapshotKnows(cfg, s);
  }

  lemma ExchangeKeepsFlag<G(!new)>(cfg: Config<G>, opt: GraphInput<G> -> GraphResult<G>, x: Flagged<G>)
    requires FlagInvariant(cfg, x)
    ensures FlagInvariant(cfg, DoFlag(cfg, opt, x, Exchange))
  {
    hide Attachable, Known;
    SameAttachable(cfg, x.c.s, false);
  }

  /** In every reachable state: if some keyframe, loop or attached GNSS reading is not in the last
      snapshot, the flag is set, or the optimizer is between its exchange and its snapshot. */
  lemma {:induction false} FlagCoversChanges<G(!new)>(
    cfg: Config<G>, opt: GraphInput<G> -> GraphResult<G>, ops: seq<FlagOp<G>>)
    ensures
      var x := DoAllFlags(cfg, opt, ops);
      !Known(x.seen, x.c.s) ==> x.c.s.newData || x.exchanged
    ensures FlagInvariant(cfg, DoAllFlags(cfg, opt, ops))
  {
    if ops == [] {
      assert GnssInvariant(cfg, InitialState(cfg.m), []);
    } else {
      hide Attachable, NothingYet, Known, DoFlag;
      FlagCoversChanges(cfg, opt, ops[..|ops| - 1]);
      var x := DoAllFlags(cfg, opt, ops[..|ops| - 1]);
      match ops[|ops| - 1]
      case Change(ev) => ChangeKeepsFlag(cfg, opt, x, ev);
      case Exchange => ExchangeKeepsFlag(cfg, opt, x);
      case BeginSolve(mine) => BeginKeepsFlag(cfg, opt, x, mine);
      case EndSolve => EndKeepsFlag(cfg, opt, x);
    }
  }
}
