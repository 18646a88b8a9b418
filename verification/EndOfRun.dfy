/** What solves tell the front ends over a whole run, and the end of the run: passes of loop
    closure until nothing is new, then the outputs. */
module EndOfRun {
  import opened Basics
  import opened Motion
  import opened MapperTypes
  import opened MapperSpec
  import opened SolveAtomicity
  import opened LoopSet
  import opened LoopScans
  import opened GnssAttachment
  import opened ImageWriteOut
  import opened Replay
  import GravityAttachment

  // ----- Announcements -----

  datatype Tell = Tell(feedback: bool, corrections: bool)

  /** `corrected`: the loops announced so far; `announced` and `fed` list the corrections and the
      stamps fed back. */
  datatype Announced = Announced(corrected: nat, announced: seq<nat>, lastFed: Option<int>, fed: seq<int>)

  /** `last` is the snapshot of the solve that runs or ran last. */
  datatype Told<G> = Told(x: Scanning<G>, last: Option<GraphInput<G>>, a: Announced)

  /** After a commit: the newest keyframe of the snapshot is fed back once, and new loops are
      announced. */
  function Announce(tell: Tell, a: Announced, newest: int, loops: nat): Announced {
    var b := if tell.feedback && (a.lastFed.None? || a.lastFed.value < newest)
             then a.(lastFed := Some(newest), fed := a.fed + [newest]) else a;
    if tell.corrections && loops > b.corrected
    then b.(corrected := loops, announced := b.announced + [loops - b.corrected]) else b
  }

  /** The same with another mapper state. */
  function WithState<G>(y: Told<G>, s: State<G>): Told<G> {
    y.(x := y.x.(c := y.x.c.(s := s)))
  }

  ghost function DoTold<G(!new)>(
    cfg: Config<G>, par: ScanParams, tell: Tell, opt: GraphInput<G> -> GraphResult<G>,
    y: Told<G>, op: ScanOp<G>): Told<G>
  {
    var c := y.x.c;
    var y1 := y.(x := DoScan(cfg, par, opt, y.x, op));
    if op == Other(SolveBegins) && c.flight.None? && c.s.kfs != [] then y1.(last := Some(Snapshot(c.s)))
    else if op == Other(SolveEnds) && c.flight.Some? && y.last.Some? then
      var n := |y.last.value.kfs|;
      if 0 < n <= |c.s.kfs| then y1.(a := Announce(tell, y.a, c.s.kfs[n - 1].stamp, |y.last.value.loops|)) else y1
    else y1
  }

  ghost function DoAllTold<G(!new)>(
    cfg: Config<G>, par: ScanParams, tell: Tell, opt: GraphInput<G> -> GraphResult<G>,
    y: Told<G>, ops: seq<ScanOp<G>>): Told<G>
    decreases |ops|
  {
    if ops == [] then y
    else
      var n := |ops| - 1;
      DoTold(cfg, par, tell, opt, DoAllTold(cfg, par, tell, opt, y, ops[..n]), ops[n])
  }

  function NothingTold<G(!new)>(m: Motions<G>): Told<G> {
    Told(Scanning(Concurrent(InitialState(m), None, 0), Counters(0, 0, 0, 0), None, []), None,
        Announced(0, [], None, []))
  }

  function Sum(v: seq<nat>): nat {
    if v == [] then 0 else Sum(v[..|v| - 1]) + v[|v| - 1]
  }

  lemma SumAdd(v: seq<nat>, n: nat)
    ensures Sum(v + [n]) == Sum(v) + n
  {
    assert (v + [n])[..|v|] == v;
  }

  ghost predicate StrictlyIncreasing(v: seq<int>) {
    forall i, j :: 0 <= i < j < |v| ==> v[i] < v[j]
  }

  /** The corrections add up, and no stamp is fed back twice or late. */
  ghost predicate Exact(a: Announced) {
    && Sum(a.announced) == a.corrected
    && (forall i :: 0 <= i < |a.announced| ==> a.announced[i] > 0)
    && StrictlyIncreasing(a.fed)
    && (a.fed == [] <==> a.lastFed.None?)
    && (a.fed != [] ==> a.lastFed == Some(a.fed[|a.fed| - 1]))
  }

  /** The loops of the last solve that ended are announced. */
  ghost predicate UpToLast<G>(tell: Tell, y: Told<G>) {
    var s, flight := y.x.c.s, y.x.c.flight;
    && (flight.Some? ==> y.last.Some?)
    && (y.last.None? ==> y.a.corrected == 0)
    && (y.last.Some? ==>
          && 1 <= |y.last.value.kfs| <= |s.kfs|
          && y.last.value.loops <= s.loops.edges
          && (flight.Some? ==> |flight.value.poses| == |y.last.value.kfs|)
          && y.a.corrected <= |y.last.value.loops|
          && (tell.corrections && flight.None? ==> y.a.corrected == |y.last.value.loops|))
  }

  ghost predicate TellInvariant<G>(tell: Tell, y: Told<G>) {
    Exact(y.a) && UpToLast(tell, y)
  }

  lemma FedStaysExact(fed: seq<int>, newest: int)
    requires StrictlyIncreasing(fed) && (fed != [] ==> fed[|fed| - 1] < newest)
    ensures StrictlyIncreasing(fed + [newest])
  {
  }

  lemma AnnounceKeeps(tell: Tell, a: Announced, newest: int, loops: nat)
    requires Exact(a) && a.corrected <= loops
    ensures Exact(Announce(tell, a, newest, loops))
    ensures Announce(tell, a, newest, loops).corrected == if tell.corrections then loops else a.corrected
  {
    hide StrictlyIncreasing, Sum;
    if a.lastFed.None? || a.lastFed.value < newest {
      FedStaysExact(a.fed, newest);
    }
    if loops > a.corrected {
      SumAdd(a.announced, loops - a.corrected);
    }
  }

  /** Keyframes and loops are only ever added. */
  lemma DoAppends<G(!new)>(cfg: Config<G>, opt: GraphInput<G> -> GraphResult<G>, c: Concurrent<G>, op: Op<G>)
    ensures |c.s.kfs| <= |Do(cfg, opt, c, op).s.kfs| && c.s.loops.edges <= Do(cfg, opt, c, op).s.loops.edges
    ensures !op.SolveBegins? && !op.SolveEnds? ==> Do(cfg, opt, c, op).flight == c.flight
  {
    DoGrows(cfg, opt, c, op);
    hide Insert, Observe, MergeAll, CommittedPoses, Snapshot;
    if op.Input? && op.ev.LoopsEvent? {
      MergeAppends(cfg, c.s.kfs, c.s.loops, op.ev.edges);
    }
  }

  lemma SolveBeginsTells<G(!new)>(
    cfg: Config<G>, par: ScanParams, tell: Tell, opt: GraphInput<G> -> GraphResult<G>, y: Told<G>)
    requires TellInvariant(tell, y) && IsOptimizer(opt)
    ensures TellInvariant(tell, DoTold(cfg, par, tell, opt, y, Other(SolveBegins)))
  {
    hide Exact;
    SnapshotSize(y.x.c.s);
  }

  lemma SolveEndsTells<G(!new)>(
    cfg: Config<G>, par: ScanParams, tell: Tell, opt: GraphInput<G> -> GraphResult<G>, y: Told<G>)
    requires TellInvariant(tell, y)
    ensures TellInvariant(tell, DoTold(cfg, par, tell, opt, y, Other(SolveEnds)))
  {
    hide Exact, Announce, Commit;
    DoAppends(cfg, opt, y.x.c, SolveEnds);
    if y.x.c.flight.Some? {
      AnnounceKeeps(tell, y.a, y.x.c.s.kfs[|y.last.value.kfs| - 1].stamp, |y.last.value.loops|);
    }
  }

  lemma OtherTells<G(!new)>(
    cfg: Config<G>, par: ScanParams, tell: Tell, opt: GraphInput<G> -> GraphResult<G>, y: Told<G>, op: ScanOp<G>)
    requires TellInvariant(tell, y) && op != Other(SolveBegins) && op != Other(SolveEnds)
    ensures TellInvariant(tell, DoTold(cfg, par, tell, opt, y, op))
  {
    hide Exact, Do, BeginScan;
    match op
    case Other(o) => DoAppends(cfg, opt, y.x.c, o);
    case ScanReturns(edges) => DoAppends(cfg, opt, y.x.c, Input(LoopsEvent(edges)));
    case _ =>
  }

  lemma OpTells<G(!new)>(
    cfg: Config<G>, par: ScanParams, tell: Tell, opt: GraphInput<G> -> GraphResult<G>, y: Told<G>, op: ScanOp<G>)
    requires TellInvariant(tell, y) && IsOptimizer(opt)
    ensures TellInvariant(tell, DoTold(cfg, par, tell, opt, y, op))
  {
    hide TellInvariant, DoTold, IsOptimizer;
    if op == Other(SolveBegins) {
      SolveBeginsTells(cfg, par, tell, opt, y);
    } else if op == Other(SolveEnds) {
      SolveEndsTells(cfg, par, tell, opt, y);
    } else {
      OtherTells(cfg, par, tell, opt, y, op);
    }
  }

  /** Over every run, concurrent solves and scans included. */
  lemma {:induction false} AnnouncementsAreExact<G(!new)>(
    cfg: Config<G>, par: ScanParams, tell: Tell, opt: GraphInput<G> -> GraphResult<G>, ops: seq<ScanOp<G>>)
    requires IsOptimizer(opt)
    ensures TellInvariant(tell, DoAllTold(cfg, par, tell, opt, NothingTold(cfg.m), ops))
  {
    if ops != [] {
      hide TellInvariant, DoTold;
      var n := |ops| - 1;
      AnnouncementsAreExact(cfg, par, tell, opt, ops[..n]);
      var y := DoAllTold(cfg, par, tell, opt, NothingTold(cfg.m), ops[..n]);
      OpTells(cfg, par, tell, opt, y, ops[n]);
    }
  }

  // ----- The end -----

  /** One solve, with no one else around. */
  ghost function SolveNow<G(!new)>(
    cfg: Config<G>, par: ScanParams, tell: Tell, opt: GraphInput<G> -> GraphResult<G>, y: Told<G>): Told<G>
  {
    DoTold(cfg, par, tell, opt, DoTold(cfg, par, tell, opt, y, Other(SolveBegins)), Other(SolveEnds))
  }

  /** One scan; `detect` gives what the detector reports, sorted. */
  ghost function ScanNow<G(!new)>(
    cfg: Config<G>, par: ScanParams, tell: Tell, opt: GraphInput<G> -> GraphResult<G>,
    detect: (seq<Keyframe<G>>, Query) -> seq<Edge<G>>, y: Told<G>, force: bool): Told<G>
  {
    var y1 := DoTold(cfg, par, tell, opt, y, ScanBegins(force));
    if y1.x.scan.None? then y1
    else DoTold(cfg, par, tell, opt, y1, ScanReturns(detect(y1.x.c.s.kfs, y1.x.scan.value)))
  }

  /** What a scan alone does. */
  lemma ScanNowIs<G(!new)>(
    cfg: Config<G>, par: ScanParams, tell: Tell, opt: GraphInput<G> -> GraphResult<G>,
    detect: (seq<Keyframe<G>>, Query) -> seq<Edge<G>>, y: Told<G>, force: bool)
    requires y.x.scan.None?
    ensures
      var (k, q) := BeginScan(par, y.x.c.s, y.x.k, force);
      ScanNow(cfg, par, tell, opt, detect, y, force) ==
        if q.None? then y.(x := y.x.(k := k))
        else y.(x := Scanning(y.x.c.(s := Merge(cfg, y.x.c.s, detect(y.x.c.s.kfs, q.value))),
                              EndScan(k, q.value), None, y.x.done + [q.value]))
  {
    hide BeginScan, Merge;
  }

  /** The final passes: a full scan, and a solve if it found loops, at most `rounds` times. */
  ghost function FinalPasses<G(!new)>(
    cfg: Config<G>, par: ScanParams, tell: Tell, opt: GraphInput<G> -> GraphResult<G>,
    detect: (seq<Keyframe<G>>, Query) -> seq<Edge<G>>, y: Told<G>, rounds: nat): Told<G>
    decreases rounds
  {
    if rounds == 0 then y
    else
      var z := ScanNow(cfg, par, tell, opt, detect, y, true);
      if |z.x.c.s.loops.edges| == |y.x.c.s.loops.edges| then z
      else FinalPasses(cfg, par, tell, opt, detect, SolveNow(cfg, par, tell, opt, z), rounds - 1)
  }

  /** Without an engine there are no passes (`rounds` is 0). */
  ghost function Finish<G(!new)>(
    cfg: Config<G>, par: ScanParams, tell: Tell, opt: GraphInput<G> -> GraphResult<G>,
    detect: (seq<Keyframe<G>>, Query) -> seq<Edge<G>>, y: Told<G>, rounds: nat): Told<G>
  {
    FinalPasses(cfg, par, tell, opt, detect, SolveNow(cfg, par, tell, opt, y), rounds)
  }

  /** Keyframe `g` of a snapshot is `kf` but for its pose and images. */
  ghost predicate HoldsKeyframe<G>(g: GraphKeyframe<G>, kf: Keyframe<G>) {
    && g.stamp == kf.stamp && g.frame == kf.frame && g.src == kf.src && g.gyro == kf.gyro
    && g.aux == NotPicture(kf.aux)
  }

  /** The snapshot holds every keyframe and every loop of the state, but for the poses solved. */
  ghost predicate HoldsAll<G>(g: GraphInput<G>, s: State<G>) {
    && g.loops == s.loops.edges && |g.kfs| == |s.kfs|
    && forall i :: 0 <= i < |g.kfs| ==> HoldsKeyframe(g.kfs[i], s.kfs[i])
  }

  /** Keyframe `g` of a snapshot has the time, source and gyroscope rotation of `kf`, its GNSS reading and
      its gravity, once each, and no image. */
  ghost predicate KnowsKeyframe<G>(g: GraphKeyframe<G>, kf: Keyframe<G>) {
    && g.stamp == kf.stamp && g.frame == kf.frame && g.src == kf.src && g.gyro == kf.gyro
    && OnlyGnss(g.aux) == (if GNSS in kf.nearest then [kf.nearest[GNSS].obs] else [])
    && GravityAttachment.OnlyGravity(g.aux) == GravityAttachment.OnlyGravity(kf.aux)
    && forall o :: o in g.aux ==> o.GnssAux? || o.GravityAux?
  }

  /** The snapshot knows all there is to know about the state. */
  ghost predicate KnowsAll<G>(g: GraphInput<G>, s: State<G>) {
    && g.loops == s.loops.edges && |g.kfs| == |s.kfs|
    && forall i :: 0 <= i < |g.kfs| ==> KnowsKeyframe(g.kfs[i], s.kfs[i])
  }

  lemma {:induction false} NotPictureKeepsOthers<G>(aux: seq<Aux<G>>)
    ensures OnlyGnss(NotPicture(aux)) == OnlyGnss(aux)
    ensures GravityAttachment.OnlyGravity(NotPicture(aux)) == GravityAttachment.OnlyGravity(aux)
    ensures forall o :: o in NotPicture(aux) ==> o.GnssAux? || o.GravityAux?
  {
    if aux != [] {
      var n := |aux| - 1;
      var p := NotPicture(aux[..n]);
      NotPictureKeepsOthers(aux[..n]);
      OnlyGnssAdd(p, aux[n]);
      GravityAttachment.OnlyGravityAdd(p, aux[n]);
      assert p + [] == p && OnlyGnss(aux[..n]) + [] == OnlyGnss(aux[..n]);
      assert GravityAttachment.OnlyGravity(aux[..n]) + [] == GravityAttachment.OnlyGravity(aux[..n]);
    }
  }

  lemma HoldsKnows<G>(g: GraphInput<G>, s: State<G>)
    requires HoldsAll(g, s) && AllWellSlotted(s.kfs)
    ensures KnowsAll(g, s)
  {
    hide NotPicture, OnlyGnss, GravityAttachment.OnlyGravity;
    forall i | 0 <= i < |g.kfs| ensures KnowsKeyframe(g.kfs[i], s.kfs[i]) {
      assert HoldsKeyframe(g.kfs[i], s.kfs[i]) && WellSlotted(s.kfs[i]);
      NotPictureKeepsOthers(s.kfs[i].aux);
    }
  }

  /** Nobody else is working, and the last solve knew everything. */
  ghost predicate UpToDate<G>(y: Told<G>) {
    var s := y.x.c.s;
    && y.x.c.flight.None? && y.x.scan.None?
    && (s.kfs != [] ==> y.last.Some? && HoldsAll(y.last.value, s))
  }

  lemma CommitHeld<G(!new)>(m: Motions<G>, s: State<G>, r: GraphResult<G>)
    ensures var t := Commit(m, s, r); t.loops == s.loops && |t.kfs| == |s.kfs| && HoldsAll(Snapshot(s), t)
  {
    hide CommittedPoses, NotPicture;
  }

  /** What a solve alone does. */
  lemma SolveNowIs<G(!new)>(
    cfg: Config<G>, par: ScanParams, tell: Tell, opt: GraphInput<G> -> GraphResult<G>, y: Told<G>)
    requires y.x.c.flight.None? && IsOptimizer(opt)
    ensures
      var s := y.x.c.s;
      var g := Snapshot(s);
      SolveNow(cfg, par, tell, opt, y) ==
        if s.kfs == [] then y
        else Told(y.x.(c := Concurrent(Commit(cfg.m, s, opt(g)), None, |s.kfs|)), Some(g),
                  Announce(tell, y.a, s.kfs[|s.kfs| - 1].stamp, |s.loops.edges|))
  {
    hide Commit, Announce, GraphKeyframeOf;
    SnapshotSize(y.x.c.s);
  }

  lemma SolveNowUpToDate<G(!new)>(
    cfg: Config<G>, par: ScanParams, tell: Tell, opt: GraphInput<G> -> GraphResult<G>, y: Told<G>)
    requires TellInvariant(tell, y) && IsOptimizer(opt) && y.x.c.flight.None? && y.x.scan.None?
    ensures TellInvariant(tell, SolveNow(cfg, par, tell, opt, y)) && UpToDate(SolveNow(cfg, par, tell, opt, y))
  {
    hide TellInvariant, DoTold, Commit, Snapshot, HoldsAll;
    SolveBeginsTells(cfg, par, tell, opt, y);
    SolveEndsTells(cfg, par, tell, opt, DoTold(cfg, par, tell, opt, y, Other(SolveBegins)));
    SolveNowIs(cfg, par, tell, opt, y);
    CommitHeld(cfg.m, y.x.c.s, opt(Snapshot(y.x.c.s)));
  }

  /** A scan alone only adds loops. */
  ghost predicate OnlyAddsLoops<G>(y: Told<G>, z: Told<G>) {
    && z.x.c.flight == y.x.c.flight && z.x.scan.None? && z.last == y.last
    && z.x.c.s == y.x.c.s.(loops := z.x.c.s.loops, newData := z.x.c.s.newData)
      && y.x.c.s.loops.edges <= z.x.c.s.loops.edges
  }

  lemma ScanReturnsTells<G(!new)>(
    cfg: Config<G>, par: ScanParams, tell: Tell, opt: GraphInput<G> -> GraphResult<G>, y: Told<G>, edges: seq<Edge<G>>)
    requires TellInvariant(tell, y) && y.x.scan.Some?
    ensures
      var z := DoTold(cfg, par, tell, opt, y, ScanReturns(edges));
      TellInvariant(tell, z) && OnlyAddsLoops(y, z)
  {
    OtherTells(cfg, par, tell, opt, y, ScanReturns(edges));
    DoAppends(cfg, opt, y.x.c, Input(LoopsEvent(edges)));
    hide TellInvariant, MergeAll;
  }

  lemma ScanBeginsTells<G(!new)>(
    cfg: Config<G>, par: ScanParams, tell: Tell, opt: GraphInput<G> -> GraphResult<G>, y: Told<G>, force: bool)
    requires TellInvariant(tell, y)
    ensures
      var z := DoTold(cfg, par, tell, opt, y, ScanBegins(force));
      TellInvariant(tell, z) && z.x.c == y.x.c && z.last == y.last
  {
    OtherTells(cfg, par, tell, opt, y, ScanBegins(force));
    hide TellInvariant, BeginScan;
  }

  lemma ScanNowTells<G(!new)>(
    cfg: Config<G>, par: ScanParams, tell: Tell, opt: GraphInput<G> -> GraphResult<G>,
    detect: (seq<Keyframe<G>>, Query) -> seq<Edge<G>>, y: Told<G>, force: bool)
    requires TellInvariant(tell, y) && y.x.scan.None?
    ensures
      var z := ScanNow(cfg, par, tell, opt, detect, y, force);
      TellInvariant(tell, z) && OnlyAddsLoops(y, z)
  {
    hide TellInvariant, DoTold;
    ScanBeginsTells(cfg, par, tell, opt, y, force);
    var y1 := DoTold(cfg, par, tell, opt, y, ScanBegins(force));
    if y1.x.scan.Some? {
      ScanReturnsTells(cfg, par, tell, opt, y1, detect(y1.x.c.s.kfs, y1.x.scan.value));
    }
  }

  /** A scan that finds nothing leaves the last solve up to date. */
  lemma NothingAdded<G>(y: Told<G>, z: Told<G>)
    requires UpToDate(y) && OnlyAddsLoops(y, z) && |z.x.c.s.loops.edges| == |y.x.c.s.loops.edges|
    ensures UpToDate(z)
  {
    hide HoldsKeyframe;
    assert z.x.c.s.loops.edges == y.x.c.s.loops.edges;
  }

  /** One pass keeps, or makes, the last solve up to date. */
  lemma PassUpToDate<G(!new)>(
    cfg: Config<G>, par: ScanParams, tell: Tell, opt: GraphInput<G> -> GraphResult<G>,
    detect: (seq<Keyframe<G>>, Query) -> seq<Edge<G>>, y: Told<G>)
    requires TellInvariant(tell, y) && IsOptimizer(opt) && UpToDate(y)
    ensures
      var z := ScanNow(cfg, par, tell, opt, detect, y, true);
      var w := if |z.x.c.s.loops.edges| == |y.x.c.s.loops.edges| then z else SolveNow(cfg, par, tell, opt, z);
      TellInvariant(tell, w) && UpToDate(w)
  {
    hide TellInvariant, ScanNow, SolveNow, HoldsAll;
    ScanNowTells(cfg, par, tell, opt, detect, y, true);
    var z := ScanNow(cfg, par, tell, opt, detect, y, true);
    if |z.x.c.s.loops.edges| == |y.x.c.s.loops.edges| {
      NothingAdded(y, z);
    } else {
      SolveNowUpToDate(cfg, par, tell, opt, z);
    }
  }

  lemma {:induction false} PassesUpToDate<G(!new)>(
    cfg: Config<G>, par: ScanParams, tell: Tell, opt: GraphInput<G> -> GraphResult<G>,
    detect: (seq<Keyframe<G>>, Query) -> seq<Edge<G>>, y: Told<G>, rounds: nat)
    requires TellInvariant(tell, y) && IsOptimizer(opt) && UpToDate(y)
    ensures
      var z := FinalPasses(cfg, par, tell, opt, detect, y, rounds);
      TellInvariant(tell, z) && UpToDate(z)
    decreases rounds
  {
    hide TellInvariant, ScanNow, SolveNow, UpToDate;
    if rounds > 0 {
      PassUpToDate(cfg, par, tell, opt, detect, y);
      var z := ScanNow(cfg, par, tell, opt, detect, y, true);
      if |z.x.c.s.loops.edges| != |y.x.c.s.loops.edges| {
        PassesUpToDate(cfg, par, tell, opt, detect, SolveNow(cfg, par, tell, opt, z), rounds - 1);
      }
    }
  }

  /** Only poses differ. */
  ghost predicate SameButPoses<G>(a: seq<Keyframe<G>>, b: seq<Keyframe<G>>) {
    |a| == |b| && forall i :: 0 <= i < |a| ==> a[i] == b[i].(pose := a[i].pose)
  }

  /** What the passes leave alone. */
  ghost predicate Undisturbing<G>(y: Told<G>, z: Told<G>) {
    SameButPoses(y.x.c.s.kfs, z.x.c.s.kfs) && z.x.c.s.images == y.x.c.s.images
  }

  lemma UndisturbingTransitive<G>(x: Told<G>, y: Told<G>, z: Told<G>)
    requires Undisturbing(x, y) && Undisturbing(y, z)
    ensures Undisturbing(x, z)
  {
  }

  lemma CommitUndisturbing<G(!new)>(m: Motions<G>, s: State<G>, r: GraphResult<G>)
    ensures var t := Commit(m, s, r); SameButPoses(s.kfs, t.kfs) && t.images == s.images
  {
    hide CommittedPoses;
  }

  lemma SolveNowUndisturbing<G(!new)>(
    cfg: Config<G>, par: ScanParams, tell: Tell, opt: GraphInput<G> -> GraphResult<G>, y: Told<G>)
    requires y.x.c.flight.None? && IsOptimizer(opt)
    ensures Undisturbing(y, SolveNow(cfg, par, tell, opt, y))
  {
    hide SolveNow, Commit, Snapshot, Announce;
    SolveNowIs(cfg, par, tell, opt, y);
    CommitUndisturbing(cfg.m, y.x.c.s, opt(Snapshot(y.x.c.s)));
  }

  lemma ScanNowUndisturbing<G(!new)>(
    cfg: Config<G>, par: ScanParams, tell: Tell, opt: GraphInput<G> -> GraphResult<G>,
    detect: (seq<Keyframe<G>>, Query) -> seq<Edge<G>>, y: Told<G>, force: bool)
    requires y.x.scan.None?
    ensures
      var z := ScanNow(cfg, par, tell, opt, detect, y, force);
      Undisturbing(y, z) && z.x.c.flight == y.x.c.flight && z.x.scan.None?
  {
    hide ScanNow, BeginScan, MergeAll;
    ScanNowIs(cfg, par, tell, opt, detect, y, force);
  }

  lemma {:induction false} PassesUndisturbing<G(!new)>(
    cfg: Config<G>, par: ScanParams, tell: Tell, opt: GraphInput<G> -> GraphResult<G>,
    detect: (seq<Keyframe<G>>, Query) -> seq<Edge<G>>, y: Told<G>, rounds: nat)
    requires IsOptimizer(opt) && y.x.c.flight.None? && y.x.scan.None?
    ensures Undisturbing(y, FinalPasses(cfg, par, tell, opt, detect, y, rounds))
    decreases rounds
  {
    hide SolveNow, ScanNow, Undisturbing, IsOptimizer;
    if rounds > 0 {
      ScanNowUndisturbing(cfg, par, tell, opt, detect, y, true);
      var z := ScanNow(cfg, par, tell, opt, detect, y, true);
      if |z.x.c.s.loops.edges| != |y.x.c.s.loops.edges| {
        SolveNowUndisturbing(cfg, par, tell, opt, z);
        SolveNowIdle(cfg, par, tell, opt, z);
        var w := SolveNow(cfg, par, tell, opt, z);
        PassesUndisturbing(cfg, par, tell, opt, detect, w, rounds - 1);
        UndisturbingTransitive(y, z, w);
        UndisturbingTransitive(y, w, FinalPasses(cfg, par, tell, opt, detect, w, rounds - 1));
      }
    } else {
      assert Undisturbing(y, y) by { UndisturbingSelf(y); }
    }
  }

  /** Query `q` asks for every pair of the keyframes that is neither closed nor rejected. */
  ghost predicate AsksForAll<G>(q: Query, s: State<G>) {
    forall i: nat, j: nat ::
      Offers(q, (i, j)) <==> i < j < |s.kfs| && (i, j) !in s.loops.pairs && (i, j) !in s.loops.rejected
  }

  lemma PassAsksForAll<G(!new)>(
    cfg: Config<G>, par: ScanParams, tell: Tell, opt: GraphInput<G> -> GraphResult<G>,
    detect: (seq<Keyframe<G>>, Query) -> seq<Edge<G>>, y: Told<G>) returns (q: Query)
    requires y.x.scan.None? && 2 <= |y.x.c.s.kfs|
    ensures AsksForAll(q, y.x.c.s)
    ensures
      var z := ScanNow(cfg, par, tell, opt, detect, y, true);
      z.x.done == y.x.done + [q] && z.x.c.s == Merge(cfg, y.x.c.s, detect(y.x.c.s.kfs, q))
  {
    ForcedScanRuns(par, y.x.c.s, y.x.k, true);
    hide ScanNow, BeginScan, Merge, Offers;
    ScanNowIs(cfg, par, tell, opt, detect, y, true);
    q := BeginScan(par, y.x.c.s, y.x.k, true).1.value;
  }

  /** The passes went from `y` to `z`, the last of them from `w`. */
  ghost predicate PassesFrom<G>(y: Told<G>, z: Told<G>, w: Told<G>, q: Query, rounds: nat) {
    var n := |z.x.done| - |y.x.done|;
    && 1 <= n <= rounds && y.x.done <= z.x.done && z.x.done[|z.x.done| - 1] == q
    && |w.x.c.s.kfs| == |y.x.c.s.kfs| && AsksForAll(q, w.x.c.s)
    && (n < rounds ==> z.x.c.s.loops.edges == w.x.c.s.loops.edges)
  }

  /** The passes stop before their bound only because the detector, asked for every pair neither closed
      nor rejected, found no loop. */
  lemma {:induction false} PassesStop<G(!new)>(
    cfg: Config<G>, par: ScanParams, tell: Tell, opt: GraphInput<G> -> GraphResult<G>,
    detect: (seq<Keyframe<G>>, Query) -> seq<Edge<G>>, y: Told<G>, rounds: nat) returns (w: Told<G>, q: Query)
    requires IsOptimizer(opt) && y.x.c.flight.None? && y.x.scan.None? && 2 <= |y.x.c.s.kfs| && 0 < rounds
    ensures PassesFrom(y, FinalPasses(cfg, par, tell, opt, detect, y, rounds), w, q, rounds)
    decreases rounds
  {
    hide SolveNow, ScanNow, IsOptimizer, AsksForAll, MergeAll;
    w := y;
    q := PassAsksForAll(cfg, par, tell, opt, detect, y);
    var z := ScanNow(cfg, par, tell, opt, detect, y, true);
    ScanNowUndisturbing(cfg, par, tell, opt, detect, y, true);
    MergeAppends(cfg, y.x.c.s.kfs, y.x.c.s.loops, detect(y.x.c.s.kfs, q));
    if |z.x.c.s.loops.edges| != |y.x.c.s.loops.edges| {
      SolveNowUndisturbing(cfg, par, tell, opt, z);
      SolveNowIdle(cfg, par, tell, opt, z);
      var u := SolveNow(cfg, par, tell, opt, z);
      if rounds > 1 {
        w, q := PassesStop(cfg, par, tell, opt, detect, u, rounds - 1);
      }
    }
  }

  lemma UndisturbingSelf<G>(y: Told<G>)
    ensures Undisturbing(y, y)
  {
  }

  lemma SolveNowIdle<G(!new)>(
    cfg: Config<G>, par: ScanParams, tell: Tell, opt: GraphInput<G> -> GraphResult<G>, y: Told<G>)
    requires IsOptimizer(opt) && y.x.c.flight.None?
    ensures
      var z := SolveNow(cfg, par, tell, opt, y);
      z.x.c.flight.None? && z.x.scan == y.x.scan && z.x.done == y.x.done
  {
    hide SolveNow, Commit, Snapshot, Announce;
    SolveNowIs(cfg, par, tell, opt, y);
  }

  lemma {:induction false} ToldIsScans<G(!new)>(
    cfg: Config<G>, par: ScanParams, tell: Tell, opt: GraphInput<G> -> GraphResult<G>, ops: seq<ScanOp<G>>)
    ensures DoAllTold(cfg, par, tell, opt, NothingTold(cfg.m), ops).x == DoScans(cfg, par, opt, ops)
  {
    if ops != [] {
      hide DoScan, Announce;
      ToldIsScans(cfg, par, tell, opt, ops[..|ops| - 1]);
    }
  }

  /** The state whose outputs are saved, after a run and its end. */
  ghost function Saved<G(!new)>(
    cfg: Config<G>, par: ScanParams, tell: Tell, opt: GraphInput<G> -> GraphResult<G>,
    detect: (seq<Keyframe<G>>, Query) -> seq<Edge<G>>, y: Told<G>, rounds: nat): Told<G>
  {
    var z := Finish(cfg, par, tell, opt, detect, WithState(y, y.x.c.s.(finalized := true)), rounds);
    WithState(z, FinishImages(cfg, z.x.c.s, None))
  }

  lemma CloseKeepsInvariant<G>(tell: Tell, y: Told<G>)
    requires TellInvariant(tell, y)
    ensures TellInvariant(tell, WithState(y, y.x.c.s.(finalized := true)))
  {
    hide Exact;
  }

  lemma FinishIsUpToDate<G(!new)>(
    cfg: Config<G>, par: ScanParams, tell: Tell, opt: GraphInput<G> -> GraphResult<G>,
    detect: (seq<Keyframe<G>>, Query) -> seq<Edge<G>>, y: Told<G>, rounds: nat)
    requires TellInvariant(tell, y) && IsOptimizer(opt) && y.x.c.flight.None? && y.x.scan.None?
    ensures
      var z := Finish(cfg, par, tell, opt, detect, y, rounds);
      TellInvariant(tell, z) && UpToDate(z) && Undisturbing(y, z)
  {
    hide TellInvariant, SolveNow, FinalPasses, HoldsAll, Undisturbing, IsOptimizer;
    var w := SolveNow(cfg, par, tell, opt, y);
    SolveNowUpToDate(cfg, par, tell, opt, y);
    SolveNowUndisturbing(cfg, par, tell, opt, y);
    PassesUpToDate(cfg, par, tell, opt, detect, w, rounds);
    PassesUndisturbing(cfg, par, tell, opt, detect, w, rounds);
    UndisturbingTransitive(y, w, FinalPasses(cfg, par, tell, opt, detect, w, rounds));
  }

  /** Writing the last images changes nothing the graph sees. */
  lemma ImagesKeepHeld<G(!new)>(cfg: Config<G>, g: GraphInput<G>, s: State<G>)
    requires HoldsAll(g, s) && AllWellSlotted(s.kfs)
    ensures HoldsAll(g, FinishImages(cfg, s, None)) && FinishImages(cfg, s, None).loops == s.loops
  {
    hide FinishEach, NotPicture, WellSlotted;
    FinishAlike(cfg.imageDir, ImagePart(s.kfs, s.images.(unwritten := [])), s.images.unwritten, None);
  }

  lemma SlotsOfSame<G>(a: seq<Keyframe<G>>, b: seq<Keyframe<G>>)
    requires AllWellSlotted(a) && SameButPoses(a, b)
    ensures AllWellSlotted(b)
  {
    forall i | 0 <= i < |b| ensures WellSlotted(b[i]) {
      assert WellSlotted(a[i]);
    }
  }

  lemma SlotsOfRun<G(!new)>(cfg: Config<G>, par: ScanParams, opt: GraphInput<G> -> GraphResult<G>, ops: seq<ScanOp<G>>)
    ensures AllWellSlotted(DoScans(cfg, par, opt, ops).c.s.kfs)
  {
    hide Offline, DoAll, DoScans, RunOf, Received;
    var run := RunOf(cfg, par, opt, ops);
    ScansAreRuns(cfg, par, opt, ops);
    OnlineRefinesOffline(cfg, opt, run);
    OfflineWellSlotted(DoScans(cfg, par, opt, ops).c.s.kfs, SetOf(Received(cfg, run)), cfg.gnssMaxOffset);
  }

  // ----- From closing the input until the threads have stopped -----

  function Closed<G>(y: Told<G>): Told<G> {
    WithState(y, y.x.c.s.(finalized := true))
  }

  /** A run `ops`, then the input is closed, then `last`: solves and scans of the threads that are
      still running, and input that is refused. */
  ghost function Stopped<G(!new)>(
    cfg: Config<G>, par: ScanParams, tell: Tell, opt: GraphInput<G> -> GraphResult<G>,
    ops: seq<ScanOp<G>>, last: seq<ScanOp<G>>): Told<G>
  {
    DoAllTold(cfg, par, tell, opt, Closed(DoAllTold(cfg, par, tell, opt, NothingTold(cfg.m), ops)), last)
  }

  lemma ClosedOp<G(!new)>(
    cfg: Config<G>, par: ScanParams, tell: Tell, opt: GraphInput<G> -> GraphResult<G>, y: Told<G>, op: ScanOp<G>)
    requires y.x.c.s.finalized
    ensures var z := DoTold(cfg, par, tell, opt, y, op); z.x.c.s.finalized && Undisturbing(y, z)
  {
    hide SameButPoses, Announce, BeginScan, MergeAll, Commit, Snapshot;
    SameButPosesSelf(y.x.c.s.kfs);
    if op == Other(SolveEnds) && y.x.c.flight.Some? {
      CommitUndisturbing(cfg.m, y.x.c.s, y.x.c.flight.value);
      CommitFinalized(cfg.m, y.x.c.s, y.x.c.flight.value);
    }
  }

  lemma SameButPosesSelf<G>(a: seq<Keyframe<G>>)
    ensures SameButPoses(a, a)
  {
  }

  lemma CommitFinalized<G(!new)>(m: Motions<G>, s: State<G>, r: GraphResult<G>)
    ensures Commit(m, s, r).finalized == s.finalized
  {
  }

  lemma {:induction false} ClosedOps<G(!new)>(
    cfg: Config<G>, par: ScanParams, tell: Tell, opt: GraphInput<G> -> GraphResult<G>, y: Told<G>, last: seq<ScanOp<G>>)
    requires y.x.c.s.finalized && TellInvariant(tell, y) && IsOptimizer(opt)
    ensures
      var z := DoAllTold(cfg, par, tell, opt, y, last);
      z.x.c.s.finalized && Undisturbing(y, z) && TellInvariant(tell, z)
    decreases |last|
  {
    hide TellInvariant, DoTold, Undisturbing, IsOptimizer;
    if last == [] {
      UndisturbingSelf(y);
    } else {
      var n := |last| - 1;
      ClosedOps(cfg, par, tell, opt, y, last[..n]);
      var z := DoAllTold(cfg, par, tell, opt, y, last[..n]);
      ClosedOp(cfg, par, tell, opt, z, last[n]);
      OpTells(cfg, par, tell, opt, z, last[n]);
      UndisturbingTransitive(y, z, DoTold(cfg, par, tell, opt, z, last[n]));
    }
  }

  /** When the threads have stopped, up to the outputs. */
  lemma StoppedMeans<G(!new)>(
    cfg: Config<G>, par: ScanParams, tell: Tell, opt: GraphInput<G> -> GraphResult<G>,
    detect: (seq<Keyframe<G>>, Query) -> seq<Edge<G>>, ops: seq<ScanOp<G>>, last: seq<ScanOp<G>>, rounds: nat)
    requires IsOptimizer(opt)
    requires var y := Stopped(cfg, par, tell, opt, ops, last); y.x.c.flight.None? && y.x.scan.None?
    ensures
      var y := Stopped(cfg, par, tell, opt, ops, last);
      var z := Finish(cfg, par, tell, opt, detect, y, rounds);
      && Closed(y) == y && TellInvariant(tell, z) && UpToDate(z)
      && SameButPoses(DoScans(cfg, par, opt, ops).c.s.kfs, z.x.c.s.kfs)
      && z.x.c.s.images == DoScans(cfg, par, opt, ops).c.s.images
  {
    hide DoAllTold, Finish, TellInvariant, UpToDate, IsOptimizer, SameButPoses;
    var y0 := DoAllTold(cfg, par, tell, opt, NothingTold(cfg.m), ops);
    ToldIsScans(cfg, par, tell, opt, ops);
    AnnouncementsAreExact(cfg, par, tell, opt, ops);
    CloseKeepsInvariant(tell, y0);
    ClosedOps(cfg, par, tell, opt, Closed(y0), last);
    var y := Stopped(cfg, par, tell, opt, ops, last);
    FinishIsUpToDate(cfg, par, tell, opt, detect, y, rounds);
    UndisturbingTransitive(Closed(y0), y, Finish(cfg, par, tell, opt, detect, y, rounds));
  }

  /** Whatever the run before, and whatever solves and scans were still under way when the input was
      closed: when the outputs are saved, the last solve knew every keyframe, with all its readings,
      and every loop; the corrections announced over the whole run add up to the number of loops;
      and the stamps fed back strictly increase. */
  lemma EndIsComplete<G(!new)>(
    cfg: Config<G>, par: ScanParams, tell: Tell, opt: GraphInput<G> -> GraphResult<G>,
    detect: (seq<Keyframe<G>>, Query) -> seq<Edge<G>>, ops: seq<ScanOp<G>>, last: seq<ScanOp<G>>, rounds: nat)
    requires IsOptimizer(opt)
    requires var y := Stopped(cfg, par, tell, opt, ops, last); y.x.c.flight.None? && y.x.scan.None?
    ensures
      var z := Saved(cfg, par, tell, opt, detect, Stopped(cfg, par, tell, opt, ops, last), rounds);
      var s := z.x.c.s;
      && (s.kfs != [] ==> z.last.Some? && KnowsAll(z.last.value, s))
      && (s.kfs != [] && tell.corrections ==> Sum(z.a.announced) == |s.loops.edges|)
      && StrictlyIncreasing(z.a.fed)
  {
    hide Stopped, DoScans, Finish, FinishPart, HoldsAll, KnowsAll, AllWellSlotted, IsOptimizer, Sum, StrictlyIncreasing,
        SameButPoses;
    StoppedMeans(cfg, par, tell, opt, detect, ops, last, rounds);
    SlotsOfRun(cfg, par, opt, ops);
    var z := Finish(cfg, par, tell, opt, detect, Stopped(cfg, par, tell, opt, ops, last), rounds);
    SlotsOfSame(DoScans(cfg, par, opt, ops).c.s.kfs, z.x.c.s.kfs);
    FinishedCount(cfg, z.x.c.s);
    if z.x.c.s.kfs != [] {
      ImagesKeepHeld(cfg, z.last.value, z.x.c.s);
      HeldLoops(z.last.value, z.x.c.s);
      FinishedSlots(cfg, z.x.c.s);
      HoldsKnows(z.last.value, FinishImages(cfg, z.x.c.s, None));
    }
  }

  lemma FinishedSlots<G(!new)>(cfg: Config<G>, s: State<G>)
    requires AllWellSlotted(s.kfs)
    ensures AllWellSlotted(FinishImages(cfg, s, None).kfs)
  {
    hide FinishEach, AllWellSlotted;
    FinishKeepsGnss(cfg.imageDir, ImagePart(s.kfs, s.images.(unwritten := [])), s.images.unwritten, None);
  }

  lemma HeldLoops<G>(g: GraphInput<G>, s: State<G>)
    requires HoldsAll(g, s)
    ensures g.loops == s.loops.edges
  {
  }

  lemma FinishedCount<G(!new)>(cfg: Config<G>, s: State<G>)
    requires AllWellSlotted(s.kfs)
    ensures |FinishImages(cfg, s, None).kfs| == |s.kfs|
  {
    hide FinishEach, NotPicture, WellSlotted;
    FinishAlike(cfg.imageDir, ImagePart(s.kfs, s.images.(unwritten := [])), s.images.unwritten, None);
  }

  lemma SameImagesOf<G>(a: seq<Keyframe<G>>, b: seq<Keyframe<G>>)
    requires SameButPoses(a, b)
    ensures SameImages(b, a)
  {
  }

  /** And every attached image has been finished exactly once, if those of each camera came in order. */
  lemma EndFinishesImages<G(!new)>(
    cfg: Config<G>, par: ScanParams, tell: Tell, opt: GraphInput<G> -> GraphResult<G>,
    detect: (seq<Keyframe<G>>, Query) -> seq<Edge<G>>, ops: seq<ScanOp<G>>, last: seq<ScanOp<G>>, rounds: nat)
    requires IsOptimizer(opt) && InOrder(Seen(cfg, RunOf(cfg, par, opt, ops)))
    requires var y := Stopped(cfg, par, tell, opt, ops, last); y.x.c.flight.None? && y.x.scan.None?
    ensures
      var s := Saved(cfg, par, tell, opt, detect, Stopped(cfg, par, tell, opt, ops, last), rounds).x.c.s;
      && s.images.unwritten == [] && NoDuplicates(s.images.finished)
      && DoScans(cfg, par, opt, ops).c.s.images.finished <= s.images.finished
      && (forall k: nat, slot {:trigger slot in s.kfs[k].nearest} ::
            k < |s.kfs| && slot in s.kfs[k].nearest && slot != GNSS ==> (k, slot) in s.images.finished)
  {
    hide Stopped, DoScans, RunOf, DoAll, Finish, FinishPart, IsOptimizer, TellInvariant, UpToDate;
    hide ImageInvariant, SameButPoses, SameImages, InOrder, Seen;
    var run := RunOf(cfg, par, opt, ops);
    ScansAreRuns(cfg, par, opt, ops);
    ImagesAccounted(cfg, opt, run);
    StoppedMeans(cfg, par, tell, opt, detect, ops, last, rounds);
    var before := DoScans(cfg, par, opt, ops).c.s;
    var s := Finish(cfg, par, tell, opt, detect, Stopped(cfg, par, tell, opt, ops, last), rounds).x.c.s;
    SameImagesOf(before.kfs, s.kfs);
    SameImagesKeep(before, s, Seen(cfg, run));
    FinalizeFinishesAll(cfg, s, Seen(cfg, run));
  }
}
