/** Solves run off the lock: keyframes, observations and loops arrive between the snapshot
    of a solve and its commit. The result is that of a solve that takes no time. */
module SolveAtomicity {
  import opened Basics
  import opened Motion
  import opened MapperTypes
  import opened MapperSpec

  // ----- Attaching readings does not look at poses -----

  /** What the chain of poses depends on. */
  ghost predicate SameChain<G>(a: seq<Keyframe<G>>, b: seq<Keyframe<G>>) {
    |a| == |b| && forall i :: 0 <= i < |a| ==>
      a[i].frame == b[i].frame && a[i].src == b[i].src && a[i].pose == b[i].pose
  }

  lemma {:induction false} CommittedPosesOfChain<G(!new)>(
    m: Motions<G>, a: seq<Keyframe<G>>, b: seq<Keyframe<G>>, solved: seq<G>)
    requires SameChain(a, b)
    ensures CommittedPoses(m, a, solved) == CommittedPoses(m, b, solved)
    decreases |a|
  {
    if a != [] {
      CommittedPosesOfChain(m, a[..|a| - 1], b[..|a| - 1], solved);
    }
  }

  lemma ChooseOver<G>(kfs: seq<Keyframe<G>>, ps: seq<G>, t: int, slot: string, maxOffset: int)
    requires |ps| == |kfs|
    ensures Choose(WithPoses(kfs, ps), t, slot, maxOffset) == Choose(kfs, t, slot, maxOffset)
  {
    var other := WithPoses(kfs, ps);
    if kfs != [] {
      var i, j := NearestIndex(kfs, t), NearestIndex(other, t);
      assert Offset(other[i], t) == Offset(kfs[i], t) && Offset(other[j], t) == Offset(kfs[j], t);
    }
  }

  lemma AttachAtOver<G>(kfs: seq<Keyframe<G>>, ps: seq<G>, c: Choice, slot: string, o: Aux<G>)
    requires |ps| == |kfs| && (c.Attach? ==> c.at < |kfs|)
    ensures AttachAt(WithPoses(kfs, ps), c, slot, o) == WithPoses(AttachAt(kfs, c, slot, o), ps)
    ensures SameChain(AttachAt(kfs, c, slot, o), kfs)
  {
    var a, b := AttachAt(WithPoses(kfs, ps), c, slot, o), WithPoses(AttachAt(kfs, c, slot, o), ps);
    assert forall i :: 0 <= i < |kfs| ==> a[i] == b[i];
  }

  lemma {:induction false} GnssOver<G>(maxOffset: int, x: GnssPart<G>, rs: seq<Reading>, ps: seq<G>)
    requires |ps| == |x.kfs|
    ensures
      var y := AttachAllGnss(maxOffset, x, rs);
      && SameChain(y.kfs, x.kfs)
      && AttachAllGnss(maxOffset, x.(kfs := WithPoses(x.kfs, ps)), rs) == y.(kfs := WithPoses(y.kfs, ps))
    decreases |rs|
  {
    if rs != [] {
      GnssOver(maxOffset, x, rs[..|rs| - 1], ps);
      GnssOneOver(maxOffset, AttachAllGnss(maxOffset, x, rs[..|rs| - 1]), rs[|rs| - 1], ps);
    }
  }

  lemma GnssOneOver<G>(maxOffset: int, x: GnssPart<G>, r: Reading, ps: seq<G>)
    requires |ps| == |x.kfs|
    ensures
      var y := AttachGnss(maxOffset, x, r);
      && SameChain(y.kfs, x.kfs)
      && AttachGnss(maxOffset, x.(kfs := WithPoses(x.kfs, ps)), r) == y.(kfs := WithPoses(y.kfs, ps))
  {
    hide Choose, AttachAt;
    ChooseOver(x.kfs, ps, r.stamp, GNSS, maxOffset);
    AttachAtOver(x.kfs, ps, Choose(x.kfs, r.stamp, GNSS, maxOffset), GNSS, GnssAux(r));
  }

  /** The same pictures over other poses. */
  function Reposed<G>(x: ImagePart<G>, ps: seq<G>): ImagePart<G>
    requires |ps| == |x.kfs|
  {
    x.(kfs := WithPoses(x.kfs, ps))
  }

  lemma ImageOneOver<G>(maxOffset: int, x: ImagePart<G>, p: Picture, ps: seq<G>)
    requires |ps| == |x.kfs|
    ensures
      var y := AttachImage(maxOffset, x, p);
      SameChain(y.kfs, x.kfs) && AttachImage(maxOffset, Reposed(x, ps), p) == Reposed(y, ps)
  {
    hide Choose, AttachAt;
    var slot := ImageSlot(p.sensor);
    ChooseOver(x.kfs, ps, p.stamp, slot, maxOffset);
    AttachAtOver(x.kfs, ps, Choose(x.kfs, p.stamp, slot, maxOffset), slot, PictureAux(p));
  }

  lemma {:induction false} ImagesOver<G>(maxOffset: int, x: ImagePart<G>, pics: seq<Picture>, ps: seq<G>)
    requires |ps| == |x.kfs|
    ensures
      var y := AttachAllImages(maxOffset, x, pics);
      SameChain(y.kfs, x.kfs) && AttachAllImages(maxOffset, Reposed(x, ps), pics) == Reposed(y, ps)
    decreases |pics|
  {
    if pics != [] {
      ImagesOver(maxOffset, x, pics[..|pics| - 1], ps);
      ImageOneOver(maxOffset, AttachAllImages(maxOffset, x, pics[..|pics| - 1]), pics[|pics| - 1], ps);
    }
  }

  lemma RetryPartOver<G>(maxOffset: int, x: ImagePart<G>, ps: seq<G>)
    requires |ps| == |x.kfs|
    ensures
      var y := RetryImagePart(maxOffset, x);
      SameChain(y.kfs, x.kfs) && RetryImagePart(maxOffset, Reposed(x, ps)) == Reposed(y, ps)
  {
    ImagesOver(maxOffset, x.(im := x.im.(pending := [])), x.im.pending, ps);
  }

  lemma FinishOneOver<G>(toFiles: bool, x: ImagePart<G>, e: (nat, string), ps: seq<G>)
    requires |ps| == |x.kfs| && HoldsPicture(x.kfs, e)
    ensures
      var y := FinishOne(toFiles, x, e);
      SameChain(y.kfs, x.kfs) && FinishOne(toFiles, Reposed(x, ps), e) == Reposed(y, ps)
  {
    var a, b := FinishOne(toFiles, Reposed(x, ps), e), Reposed(FinishOne(toFiles, x, e), ps);
    assert forall i :: 0 <= i < |x.kfs| ==> a.kfs[i] == b.kfs[i];
  }

  lemma {:induction false} FinishOver<G>(
    toFiles: bool, x: ImagePart<G>, es: seq<(nat, string)>, newest: Option<(string, int)>, ps: seq<G>)
    requires |ps| == |x.kfs|
    ensures
      var y := FinishEach(toFiles, x, es, newest);
      SameChain(y.kfs, x.kfs) && FinishEach(toFiles, Reposed(x, ps), es, newest) == Reposed(y, ps)
    decreases |es|
  {
    if es != [] {
      hide FinishOne;
      FinishOver(toFiles, x, es[..|es| - 1], newest, ps);
      var y := FinishEach(toFiles, x, es[..|es| - 1], newest);
      var e := es[|es| - 1];
      if HoldsPicture(y.kfs, e) {
        FinishOneOver(toFiles, y, e, ps);
      }
    }
  }

  lemma {:induction false} ResolveOver<G>(rule: GravityRule, x: ImuPart<G>, t: int, ps: seq<G>)
    requires |ps| == |x.kfs|
    ensures
      var y := ResolveGravity(rule, x, t);
      && SameChain(y.kfs, x.kfs)
      && ResolveGravity(rule, x.(kfs := WithPoses(x.kfs, ps)), t) == y.(kfs := WithPoses(y.kfs, ps))
    decreases |x.imu.pending|
  {
    var q := x.imu.pending;
    if q != [] && q[0] < |x.kfs| && x.kfs[q[0]].stamp < t {
      var k := q[0];
      var other := WithPoses(x.kfs, ps);
      var kfs1 := x.kfs[k := WithGravity(rule, x.imu, x.kfs[k])];
      ResolveOver(rule, ImuPart(kfs1, x.imu.(pending := q[1..])), t, ps);
      var other1 := other[k := WithGravity(rule, x.imu, other[k])];
      assert forall i :: 0 <= i < |x.kfs| ==> other1[i] == WithPoses(kfs1, ps)[i];
      assert other1 == WithPoses(kfs1, ps);
    }
  }

  lemma GravityOver<G>(
    rule: GravityRule, x: ImuPart<G>, t: int, sensor: string, pose: G, acc: Vec, ps: seq<G>)
    requires |ps| == |x.kfs|
    ensures
      var y := AddGravitySample(rule, x, t, sensor, pose, acc);
      && SameChain(y.kfs, x.kfs)
      && AddGravitySample(rule, x.(kfs := WithPoses(x.kfs, ps)), t, sensor, pose, acc)
         == y.(kfs := WithPoses(y.kfs, ps))
  {
    var imu := if x.imu.sensor == "" then x.imu.(sensor := sensor) else x.imu;
    var imu1 := imu.(samples := imu.samples + [Acceleration(t, acc)], sensorPose := pose);
    hide ResolveGravity;
    ResolveOver(rule, ImuPart(x.kfs, imu1), t, ps);
  }

  // ----- Neither does any step of the state -----

  /** The same state at other poses and geo-reference. */
  function Over<G>(s: State<G>, ps: seq<G>, geo: Geo): State<G>
    requires |ps| == |s.kfs|
  {
    s.(kfs := WithPoses(s.kfs, ps), geo := geo)
  }

  lemma RetryOver<G(!new)>(cfg: Config<G>, s: State<G>, ps: seq<G>, geo: Geo)
    requires |ps| == |s.kfs|
    ensures
      var t := RetryImages(cfg, RetryGnss(cfg, s));
      && SameChain(t.kfs, s.kfs) && t.geo == s.geo
      && RetryImages(cfg, RetryGnss(cfg, Over(s, ps, geo))) == Over(t, ps, geo)
  {
    hide AttachAllGnss, RetryImagePart;
    GnssOver(cfg.gnssMaxOffset, GnssPart(s.kfs, [], s.newData), s.pendingGnss, ps);
    var s1 := RetryGnss(cfg, s);
    RetryPartOver(cfg.imageMaxOffset, ImagePart(s1.kfs, s1.images), ps);
  }

  lemma AddImageOver<G(!new)>(cfg: Config<G>, s: State<G>, p: Picture, ps: seq<G>, geo: Geo)
    requires |ps| == |s.kfs|
    ensures
      var t := AddImage(cfg, s, p);
      SameChain(t.kfs, s.kfs) && t.geo == s.geo && AddImage(cfg, Over(s, ps, geo), p) == Over(t, ps, geo)
  {
    hide RetryImagePart, FinishEach;
    var x := ImagePart(s.kfs, s.images.(pending := s.images.pending + [p]));
    RetryPartOver(cfg.imageMaxOffset, x, ps);
    var y := RetryImagePart(cfg.imageMaxOffset, x);
    FinishOver(cfg.imageDir, y.(im := y.im.(unwritten := [])), y.im.unwritten, Some((p.sensor, p.stamp)), ps);
  }

  lemma AddImuOver<G(!new)>(cfg: Config<G>, s: State<G>, o: Observation<G>, ps: seq<G>, geo: Geo)
    requires |ps| == |s.kfs| && o.ImuObs?
    ensures
      var t := AddImu(cfg, s, o);
      SameChain(t.kfs, s.kfs) && t.geo == s.geo && AddImu(cfg, Over(s, ps, geo), o) == Over(t, ps, geo)
  {
    hide AddGravitySample;
    if UsesGravity(cfg, o) {
      GravityOver(RuleOf(cfg), ImuPart(s.kfs, s.imu), o.stamp, o.sensor, o.sensorPose, o.acc.value, ps);
    }
  }

  lemma ObserveOver<G(!new)>(cfg: Config<G>, s: State<G>, o: Observation<G>, ps: seq<G>, geo: Geo)
    requires |ps| == |s.kfs|
    ensures
      var t := Observe(cfg, s, o);
      SameChain(t.kfs, s.kfs) && t.geo == s.geo && Observe(cfg, Over(s, ps, geo), o) == Over(t, ps, geo)
  {
    hide AttachGnss, AddImage, AddImu;
    var s1 := Logged(cfg, s, ObservationEntry(o));
    match o
    case GnssObs(r, _, _) =>
      GnssOneOver(cfg.gnssMaxOffset, GnssPart(s.kfs, s.pendingGnss, s.newData), r, ps);
    case ImuObs(_, _, _, _, _) => AddImuOver(cfg, s1, o, ps, geo);
    case ImageObs(p) => AddImageOver(cfg, s, p, ps, geo);
    case OtherObs(_) =>
  }

  lemma MergeOneOver<G(!new)>(cfg: Config<G>, kfs: seq<Keyframe<G>>, x: Loops<G>, e: Edge<G>, ps: seq<G>)
    requires |ps| == |kfs|
    ensures MergeOne(cfg, WithPoses(kfs, ps), x, e) == MergeOne(cfg, kfs, x, e)
  {
    assert Sources(WithPoses(kfs, ps)) == Sources(kfs);
  }

  lemma {:induction false} MergeOver<G(!new)>(
    cfg: Config<G>, kfs: seq<Keyframe<G>>, x: Loops<G>, edges: seq<Edge<G>>, ps: seq<G>)
    requires |ps| == |kfs|
    ensures MergeAll(cfg, WithPoses(kfs, ps), x, edges) == MergeAll(cfg, kfs, x, edges)
    decreases |edges|
  {
    if edges != [] {
      hide MergeOne;
      MergeOver(cfg, kfs, x, edges[..|edges| - 1], ps);
      MergeOneOver(cfg, kfs, MergeAll(cfg, kfs, x, edges[..|edges| - 1]), edges[|edges| - 1], ps);
    }
  }

  // ----- A commit commutes with every input step -----

  /** A new keyframe is chained onto the last pose, whatever it is. */
  lemma AppendedOver<G(!new)>(
    cfg: Config<G>, s: State<G>, req: Request<G>, bias: GyroBias, ps: seq<G>, geo: Geo)
    requires |ps| == |s.kfs| && s.kfs != []
    ensures
      var t := Appended(cfg, s, req, bias);
      var n := |s.kfs|;
      && |t.kfs| == n + 1 && t.kfs[..n] == s.kfs && t.geo == s.geo
      && Appended(cfg, Over(s, ps, geo), req, bias)
         == Over(t, ps + [ChainPose(cfg.m, ps[n - 1], s.kfs[n - 1], t.kfs[n])], geo)
  {
    hide GyroRotationSince, EnoughGravity, Replaced;
    var t := Appended(cfg, s, req, bias);
    var n := |s.kfs|;
    var qs := ps + [ChainPose(cfg.m, ps[n - 1], s.kfs[n - 1], t.kfs[n])];
    var a, b := Appended(cfg, Over(s, ps, geo), req, bias), Over(t, qs, geo);
    assert a.kfs[n] == b.kfs[n];
    assert forall i :: 0 <= i <= n ==> a.kfs[i] == b.kfs[i];
    assert a.kfs == b.kfs;
  }

  function GeoAfter<G>(s: State<G>, r: GraphResult<G>): Geo {
    Geo(if r.geo.datum.Some? then r.geo.datum else s.geo.datum,
        if r.geo.georef.Some? then r.geo.georef else s.geo.georef)
  }

  /** Inserting `added`, with the pending readings tried, at other poses. */
  ghost predicate InsertsOver<G(!new)>(
    cfg: Config<G>, s: State<G>, req: Request<G>, bias: GyroBias, ps: seq<G>, geo: Geo, added: Keyframe<G>)
    requires |ps| == |s.kfs| && s.kfs != []
  {
    var t := Insert(cfg, s, req, bias);
    var n := |s.kfs|;
    && SameChain(t.kfs, s.kfs + [added]) && t.geo == s.geo
    && added.pose == ChainPose(cfg.m, s.kfs[n - 1].pose, s.kfs[n - 1], added)
    && Insert(cfg, Over(s, ps, geo), req, bias)
       == Over(t, ps + [ChainPose(cfg.m, ps[n - 1], s.kfs[n - 1], added)], geo)
  }

  /** All that was pending, tried on `s` at other poses. */
  lemma RetriedOver<G(!new)>(cfg: Config<G>, s: State<G>, ps: seq<G>, geo: Geo)
    requires |ps| == |s.kfs|
    ensures
      var t := RetryImages(cfg, RetryGnss(cfg, s)).(newData := true);
      && SameChain(t.kfs, s.kfs) && t.geo == s.geo
      && RetryImages(cfg, RetryGnss(cfg, Over(s, ps, geo))).(newData := true) == Over(t, ps, geo)
  {
    hide RetryGnss, RetryImages;
    RetryOver(cfg, s, ps, geo);
  }

  lemma InsertOver<G(!new)>(
    cfg: Config<G>, s: State<G>, req: Request<G>, bias: GyroBias, ps: seq<G>, geo: Geo) returns (added: Keyframe<G>)
    requires |ps| == |s.kfs| && s.kfs != [] && Accepts(s, req)
    ensures InsertsOver(cfg, s, req, bias, ps, geo, added)
  {
    var n := |s.kfs|;
    var e := KeyframeEntry(req, bias);
    var s1 := Logged(cfg, s, e);
    LoggedChain(cfg, s, e);
    AcceptsOver(s, req, ps, geo);
    hide Insert, RetryGnss, RetryImages, NewKeyframe, Appended, ChainPose, Over, SameChain, Accepts, Logged;
    AppendedOver(cfg, s1, req, bias, ps, geo);
    AppendedLast(cfg, s1, req, bias);
    added := NewKeyframe(cfg, s1, req, bias);
    AddedPose(cfg, s1, req, bias);
    RetriedOver(cfg, Appended(cfg, s1, req, bias), ps + [ChainPose(cfg.m, ps[n - 1], s.kfs[n - 1], added)], geo);
    LoggedOver(cfg, s, e, ps, geo);
    InsertIs(cfg, s, req, bias);
    InsertIs(cfg, Over(s, ps, geo), req, bias);
  }

  lemma LoggedChain<G(!new)>(cfg: Config<G>, s: State<G>, e: LogEntry<G>)
    ensures Logged(cfg, s, e).kfs == s.kfs && Logged(cfg, s, e).geo == s.geo
  {
  }

  lemma AcceptsOver<G>(s: State<G>, req: Request<G>, ps: seq<G>, geo: Geo)
    requires |ps| == |s.kfs|
    ensures Accepts(Over(s, ps, geo), req) == Accepts(s, req)
  {
  }

  lemma LoggedOver<G(!new)>(cfg: Config<G>, s: State<G>, e: LogEntry<G>, ps: seq<G>, geo: Geo)
    requires |ps| == |s.kfs|
    ensures Logged(cfg, Over(s, ps, geo), e) == Over(Logged(cfg, s, e), ps, geo)
  {
  }

  lemma AppendedLast<G(!new)>(cfg: Config<G>, s: State<G>, req: Request<G>, bias: GyroBias)
    ensures Appended(cfg, s, req, bias).kfs == s.kfs + [NewKeyframe(cfg, s, req, bias)]
  {
    hide NewKeyframe, EnoughGravity;
  }

  lemma InsertIs<G(!new)>(cfg: Config<G>, s: State<G>, req: Request<G>, bias: GyroBias)
    requires Accepts(s, req)
    ensures
      var t := Appended(cfg, Logged(cfg, s, KeyframeEntry(req, bias)), req, bias);
      Insert(cfg, s, req, bias) == RetryImages(cfg, RetryGnss(cfg, t)).(newData := true)
  {
    hide RetryGnss, RetryImages, Appended;
  }

  /** When nothing is pending, an accepted keyframe is only appended. */
  lemma InsertNothingPending<G(!new)>(cfg: Config<G>, s: State<G>, req: Request<G>, bias: GyroBias)
    requires Accepts(s, req) && s.pendingGnss == [] && s.images.pending == []
    ensures Insert(cfg, s, req, bias)
        == Appended(cfg, Logged(cfg, s, KeyframeEntry(req, bias)), req, bias).(newData := true)
  {
    hide Appended;
    InsertIs(cfg, s, req, bias);
    var s2 := Appended(cfg, Logged(cfg, s, KeyframeEntry(req, bias)), req, bias);
    AppendedPending(cfg, Logged(cfg, s, KeyframeEntry(req, bias)), req, bias);
    assert RetryGnss(cfg, s2) == s2;
    assert RetryImages(cfg, s2) == s2;
  }

  lemma AppendedPending<G(!new)>(cfg: Config<G>, s: State<G>, req: Request<G>, bias: GyroBias)
    ensures
      var t := Appended(cfg, s, req, bias);
      && t.pendingGnss == s.pendingGnss && t.images == s.images && t.gyro == s.gyro && t.finalized == s.finalized
      && t.imu.samples == s.imu.samples && t.imu.sensor == s.imu.sensor
  {
  }

  lemma AddedPose<G(!new)>(cfg: Config<G>, s: State<G>, req: Request<G>, bias: GyroBias)
    ensures
      var kf := NewKeyframe(cfg, s, req, bias);
      && kf.frame == req.frame && kf.src == req.src
      && kf.pose == if s.kfs == [] then kf.src
                    else ChainPose(cfg.m, s.kfs[|s.kfs| - 1].pose, s.kfs[|s.kfs| - 1], kf)
  {
    hide GyroRotationSince, EnoughGravity, Replaced;
  }

  lemma CommittedPosesAdd<G(!new)>(m: Motions<G>, kfs: seq<Keyframe<G>>, kf: Keyframe<G>, solved: seq<G>)
    requires 1 <= |solved| <= |kfs|
    ensures
      var ps := CommittedPoses(m, kfs, solved);
      CommittedPoses(m, kfs + [kf], solved) == ps + [ChainPose(m, ps[|kfs| - 1], kfs[|kfs| - 1], kf)]
  {
    assert (kfs + [kf])[..|kfs|] == kfs;
  }

  lemma CommitIsOver<G(!new)>(m: Motions<G>, s: State<G>, r: GraphResult<G>)
    ensures Commit(m, s, r) == Over(s, CommittedPoses(m, s.kfs, r.poses), GeoAfter(s, r))
  {
  }

  lemma InsertCommutes<G(!new)>(cfg: Config<G>, s: State<G>, req: Request<G>, bias: GyroBias, r: GraphResult<G>)
    requires 1 <= |r.poses| <= |s.kfs|
    ensures Commit(cfg.m, Insert(cfg, s, req, bias), r) == Insert(cfg, Commit(cfg.m, s, r), req, bias)
  {
    hide Insert, Commit, CommittedPoses, ChainPose, Accepts, Over, SameChain, GeoAfter;
    if Accepts(s, req) {
      var ps := CommittedPoses(cfg.m, s.kfs, r.poses);
      CommitIsOver(cfg.m, s, r);
      CommitIsOver(cfg.m, Insert(cfg, s, req, bias), r);
      var added := InsertOver(cfg, s, req, bias, ps, GeoAfter(s, r));
      CommittedPosesAdd(cfg.m, s.kfs, added, r.poses);
      CommittedPosesOfChain(cfg.m, Insert(cfg, s, req, bias).kfs, s.kfs + [added], r.poses);
      SameGeo(s, Insert(cfg, s, req, bias), r);
    } else {
      RefusedCommutes(cfg, s, req, bias, r);
    }
  }

  lemma SameGeo<G>(s: State<G>, t: State<G>, r: GraphResult<G>)
    requires s.geo == t.geo
    ensures GeoAfter(s, r) == GeoAfter(t, r)
  {
  }

  lemma RefusedCommutes<G(!new)>(cfg: Config<G>, s: State<G>, req: Request<G>, bias: GyroBias, r: GraphResult<G>)
    requires !Accepts(s, req)
    ensures Commit(cfg.m, Insert(cfg, s, req, bias), r) == Insert(cfg, Commit(cfg.m, s, r), req, bias)
  {
    hide Appended, RetryGnss, RetryImages, CommittedPoses;
  }

  /** For any step between the snapshot and the commit of a solve, committing after it or
      before it leaves the same state; in particular, a keyframe inserted meanwhile gets
      the pose it would have got after the solve. */
  lemma StepCommutes<G(!new)>(cfg: Config<G>, s: State<G>, ev: Event<G>, r: GraphResult<G>)
    requires 1 <= |r.poses| <= |s.kfs|
    ensures Commit(cfg.m, Step(cfg, s, ev), r) == Step(cfg, Commit(cfg.m, s, r), ev)
  {
    hide Insert, Observe, MergeAll;
    var ps, geo := CommittedPoses(cfg.m, s.kfs, r.poses), GeoAfter(s, r);
    match ev
    case KeyframeEvent(req, bias) => InsertCommutes(cfg, s, req, bias, r);
    case ObservationEvent(o) =>
      ObserveOver(cfg, s, o, ps, geo);
      CommittedPosesOfChain(cfg.m, Observe(cfg, s, o).kfs, s.kfs, r.poses);
    case LoopsEvent(edges) => MergeOver(cfg, s.kfs, s.loops, edges, ps);
  }

  /** Keyframes are only ever added. */
  lemma StepGrows<G(!new)>(cfg: Config<G>, s: State<G>, ev: Event<G>)
    ensures |s.kfs| <= |Step(cfg, s, ev).kfs|
  {
    match ev
    case KeyframeEvent(req, bias) =>
      if Accepts(s, req) {
        hide Appended;
        var _ := InsertedKeyframe(cfg, s, req, bias);
      }
    case ObservationEvent(o) =>
      hide Observe;
      ObserveOver(cfg, s, o, Poses(s.kfs), s.geo);
    case LoopsEvent(edges) =>
  }

  /** The keyframes after an accepted insertion. */
  lemma InsertedKeyframe<G(!new)>(cfg: Config<G>, s: State<G>, req: Request<G>, bias: GyroBias)
    returns (added: Keyframe<G>)
    requires Accepts(s, req)
    ensures SameChain(Insert(cfg, s, req, bias).kfs, s.kfs + [added])
    ensures added.pose == if s.kfs == [] then added.src
                          else ChainPose(cfg.m, s.kfs[|s.kfs| - 1].pose, s.kfs[|s.kfs| - 1], added)
  {
    hide RetryGnss, RetryImages, NewKeyframe, ChainPose;
    var s1 := Logged(cfg, s, KeyframeEntry(req, bias));
    var s2 := Appended(cfg, s1, req, bias);
    added := NewKeyframe(cfg, s1, req, bias);
    AddedPose(cfg, s1, req, bias);
    RetryOver(cfg, s2, Poses(s2.kfs), s2.geo);
  }

  function Poses<G>(kfs: seq<Keyframe<G>>): (ps: seq<G>)
    ensures |ps| == |kfs| && forall i :: 0 <= i < |kfs| ==> ps[i] == kfs[i].pose
  {
    seq(|kfs|, i requires 0 <= i < |kfs| => kfs[i].pose)
  }

  lemma {:induction false} RunCommutes<G(!new)>(cfg: Config<G>, s: State<G>, evs: seq<Event<G>>, r: GraphResult<G>)
    requires 1 <= |r.poses| <= |s.kfs|
    ensures |s.kfs| <= |Run(cfg, s, evs).kfs|
    ensures Commit(cfg.m, Run(cfg, s, evs), r) == Run(cfg, Commit(cfg.m, s, r), evs)
    decreases |evs|
  {
    if evs != [] {
      hide Step, Commit;
      RunCommutes(cfg, s, evs[..|evs| - 1], r);
      StepCommutes(cfg, Run(cfg, s, evs[..|evs| - 1]), evs[|evs| - 1], r);
      StepGrows(cfg, Run(cfg, s, evs[..|evs| - 1]), evs[|evs| - 1]);
    }
  }

  // ----- Whole concurrent runs -----

  datatype Op<G> = Input(ev: Event<G>) | SolveBegins | SolveEnds

  /** `flight`: the result a running solve will commit; `covered`: the keyframes of the last
      committed solve. Because of the solve lock, solves do not overlap. */
  datatype Concurrent<G> = Concurrent(s: State<G>, flight: Option<GraphResult<G>>, covered: nat)

  /** The optimizer returns one pose per keyframe of its input. */
  ghost predicate IsOptimizer<G(!new)>(opt: GraphInput<G> -> GraphResult<G>) {
    forall g :: |opt(g).poses| == |g.kfs|
  }

  ghost function Do<G(!new)>(
    cfg: Config<G>, opt: GraphInput<G> -> GraphResult<G>, c: Concurrent<G>, op: Op<G>): Concurrent<G>
  {
    match op
    case Input(ev) => c.(s := Step(cfg, c.s, ev))
    case SolveBegins =>
      if c.flight.Some? || c.s.kfs == [] then c else c.(flight := Some(opt(Snapshot(c.s))))
    case SolveEnds =>
      if c.flight.None? then c
      else Concurrent(Commit(cfg.m, c.s, c.flight.value), None, |c.flight.value.poses|)
  }

  ghost function DoAll<G(!new)>(
    cfg: Config<G>, opt: GraphInput<G> -> GraphResult<G>, c: Concurrent<G>, ops: seq<Op<G>>): Concurrent<G>
    decreases |ops|
  {
    if ops == [] then c else Do(cfg, opt, DoAll(cfg, opt, c, ops[..|ops| - 1]), ops[|ops| - 1])
  }

  ghost function StateAfter<G(!new)>(
    cfg: Config<G>, opt: GraphInput<G> -> GraphResult<G>, ops: seq<Op<G>>): State<G>
  {
    DoAll(cfg, opt, Concurrent(InitialState(cfg.m), None, 0), ops).s
  }

  lemma StateAfterAdd<G(!new)>(
    cfg: Config<G>, opt: GraphInput<G> -> GraphResult<G>, ops: seq<Op<G>>, ev: Event<G>)
    ensures StateAfter(cfg, opt, ops + [Input(ev)]) == Step(cfg, StateAfter(cfg, opt, ops), ev)
  {
    hide Step;
    assert (ops + [Input(ev)])[..|ops|] == ops;
  }

  /** The same run with solves that take no time: each commits where it begins. Whether the
      solve lock is taken is what the run tells. */
  ghost function AtomicAll<G(!new)>(
    cfg: Config<G>, opt: GraphInput<G> -> GraphResult<G>, s: State<G>, ops: seq<Op<G>>): (State<G>, bool)
    decreases |ops|
  {
    if ops == [] then (s, false)
    else
      var (t, busy) := AtomicAll(cfg, opt, s, ops[..|ops| - 1]);
      match ops[|ops| - 1]
      case Input(ev) => (Step(cfg, t, ev), busy)
      case SolveBegins =>
        if busy || t.kfs == [] then (t, busy) else (Commit(cfg.m, t, opt(Snapshot(t))), true)
      case SolveEnds => (t, false)
  }

  /** At every moment, committing the running solve gives the state of the atomic run. */
  lemma {:induction false} SolvesAreAtomic<G(!new)>(
    cfg: Config<G>, opt: GraphInput<G> -> GraphResult<G>, s: State<G>, ops: seq<Op<G>>)
    requires IsOptimizer(opt)
    ensures
      var c := DoAll(cfg, opt, Concurrent(s, None, 0), ops);
      var (t, busy) := AtomicAll(cfg, opt, s, ops);
      && (c.flight.Some? <==> busy)
      && (c.flight.Some? ==> 1 <= |c.flight.value.poses| <= |c.s.kfs|)
      && t == if c.flight.Some? then Commit(cfg.m, c.s, c.flight.value) else c.s
    decreases |ops|
  {
    if ops != [] {
      hide Step, Commit, Snapshot;
      SolvesAreAtomic(cfg, opt, s, ops[..|ops| - 1]);
      var c := DoAll(cfg, opt, Concurrent(s, None, 0), ops[..|ops| - 1]);
      match ops[|ops| - 1]
      case Input(ev) =>
        StepGrows(cfg, c.s, ev);
        if c.flight.Some? {
          StepCommutes(cfg, c.s, ev, c.flight.value);
        }
      case SolveBegins => SnapshotSize(c.s);
      case SolveEnds =>
    }
  }

  lemma SnapshotSize<G>(s: State<G>)
    ensures |Snapshot(s).kfs| == |s.kfs|
  {
  }

  // ----- The chain of poses online -----

  /** From keyframe `n` on, each pose continues the one before it. */
  ghost predicate ChainedFrom<G(!new)>(m: Motions<G>, kfs: seq<Keyframe<G>>, n: nat) {
    && (n == 0 && kfs != [] ==> kfs[0].pose == kfs[0].src)
    && forall i {:trigger kfs[i]} :: 1 <= i < |kfs| && n <= i ==>
      kfs[i].pose == ChainPose(m, kfs[i - 1].pose, kfs[i - 1], kfs[i])
  }

  lemma ChainedLike<G(!new)>(m: Motions<G>, a: seq<Keyframe<G>>, b: seq<Keyframe<G>>, n: nat)
    requires SameChain(a, b) && ChainedFrom(m, b, n)
    ensures ChainedFrom(m, a, n)
  {
    forall i | 1 <= i < |a| && n <= i ensures a[i].pose == ChainPose(m, a[i - 1].pose, a[i - 1], a[i]) {
      assert b[i].pose == ChainPose(m, b[i - 1].pose, b[i - 1], b[i]) && a[i - 1].frame == b[i - 1].frame;
    }
  }

  lemma {:induction false} CommittedPosesChain<G(!new)>(m: Motions<G>, kfs: seq<Keyframe<G>>, solved: seq<G>, i: nat)
    requires i < |kfs|
    ensures
      var ps := CommittedPoses(m, kfs, solved);
      && (i < |solved| ==> ps[i] == solved[i])
      && (|solved| <= i && 0 < i ==> ps[i] == ChainPose(m, ps[i - 1], kfs[i - 1], kfs[i]))
    decreases |kfs|
  {
    if i < |kfs| - 1 {
      CommittedPosesChain(m, kfs[..|kfs| - 1], solved, i);
    }
  }

  lemma ChainedAdd<G(!new)>(m: Motions<G>, kfs: seq<Keyframe<G>>, added: Keyframe<G>, n: nat)
    requires ChainedFrom(m, kfs, n)
    requires added.pose == if kfs == [] then added.src
                           else ChainPose(m, kfs[|kfs| - 1].pose, kfs[|kfs| - 1], added)
    ensures ChainedFrom(m, kfs + [added], n)
  {
    hide ChainPose;
    var all := kfs + [added];
    forall i | 1 <= i < |all| && n <= i ensures all[i].pose == ChainPose(m, all[i - 1].pose, all[i - 1], all[i]) {
      assert all[i - 1] == kfs[i - 1];
      if i < |kfs| {
        assert all[i] == kfs[i];
      }
    }
  }

  lemma StepKeepsChain<G(!new)>(cfg: Config<G>, s: State<G>, ev: Event<G>, n: nat)
    requires ChainedFrom(cfg.m, s.kfs, n)
    ensures ChainedFrom(cfg.m, Step(cfg, s, ev).kfs, n)
  {
    match ev
    case KeyframeEvent(req, bias) =>
      if Accepts(s, req) {
        hide Appended;
        hide Insert, ChainedFrom;
        var added := InsertedKeyframe(cfg, s, req, bias);
        ChainedAdd(cfg.m, s.kfs, added, n);
        ChainedLike(cfg.m, Insert(cfg, s, req, bias).kfs, s.kfs + [added], n);
      }
    case ObservationEvent(o) =>
      hide Observe;
      ObserveOver(cfg, s, o, Poses(s.kfs), s.geo);
      ChainedLike(cfg.m, Observe(cfg, s, o).kfs, s.kfs, n);
    case LoopsEvent(edges) =>
  }

  lemma CommitChains<G(!new)>(m: Motions<G>, s: State<G>, r: GraphResult<G>)
    requires 1 <= |r.poses|
    ensures ChainedFrom(m, Commit(m, s, r).kfs, |r.poses|)
  {
    var ps := CommittedPoses(m, s.kfs, r.poses);
    forall i | 1 <= i < |s.kfs| && |r.poses| <= i
      ensures ps[i] == ChainPose(m, ps[i - 1], s.kfs[i - 1], s.kfs[i]) {
      CommittedPosesChain(m, s.kfs, r.poses, i);
    }
  }

  /** In every concurrent run, every keyframe that the last committed solve did not cover
      continues the keyframe before it with the front end increment. */
  lemma {:induction false} UncoveredKeyframesChained<G(!new)>(
    cfg: Config<G>, opt: GraphInput<G> -> GraphResult<G>, ops: seq<Op<G>>)
    requires IsOptimizer(opt)
    ensures
      var c := DoAll(cfg, opt, Concurrent(InitialState(cfg.m), None, 0), ops);
      ChainedFrom(cfg.m, c.s.kfs, c.covered)
    decreases |ops|
  {
    if ops != [] {
      hide Step, Snapshot, Commit;
      UncoveredKeyframesChained(cfg, opt, ops[..|ops| - 1]);
      SolvesAreAtomic(cfg, opt, InitialState(cfg.m), ops[..|ops| - 1]);
      var c := DoAll(cfg, opt, Concurrent(InitialState(cfg.m), None, 0), ops[..|ops| - 1]);
      match ops[|ops| - 1]
      case Input(ev) => StepKeepsChain(cfg, c.s, ev, c.covered);
      case SolveBegins =>
      case SolveEnds =>
        if c.flight.Some? {
          CommitChains(cfg.m, c.s, c.flight.value);
        }
    }
  }

  /** What the chain means in terms of relative poses. */
  lemma ChainKeepsIncrement<G(!new)>(m: Motions<G>, prev: Keyframe<G>, cur: Keyframe<G>)
    requires IsGroup(m) && cur.pose == ChainPose(m, prev.pose, prev, cur)
    ensures prev.frame == cur.frame ==> Minus(m, cur.pose, prev.pose) == Minus(m, cur.src, prev.src)
    ensures prev.frame != cur.frame ==> cur.pose == prev.pose
  {
    MinusPlus(m, prev.pose, Minus(m, cur.src, prev.src));
  }

  lemma {:induction false} ChainTelescopes<G(!new)>(m: Motions<G>, kfs: seq<Keyframe<G>>, n: nat, i: nat, j: nat)
    requires IsGroup(m) && ChainedFrom(m, kfs, n) && n <= i + 1 && i <= j < |kfs| && OneChain(kfs, i, j)
    ensures Minus(m, kfs[j].pose, kfs[i].pose) == Minus(m, kfs[j].src, kfs[i].src)
    decreases j
  {
    if i == j {
      MinusSelf(m, kfs[j].pose);
      MinusSelf(m, kfs[j].src);
    } else {
      ChainTelescopes(m, kfs, n, i, j - 1);
      assert kfs[j].pose == ChainPose(m, kfs[j - 1].pose, kfs[j - 1], kfs[j]);
      ChainKeepsIncrement(m, kfs[j - 1], kfs[j]);
      MinusTelescopes(m, kfs[i].pose, kfs[j - 1].pose, kfs[j].pose);
      MinusTelescopes(m, kfs[i].src, kfs[j - 1].src, kfs[j].src);
    }
  }

  /** In every concurrent run: from the last keyframe covered by the last committed solve on, any
      two keyframes of one front end chain are as far apart in the map as the front end says. */
  lemma UncoveredKeepIncrements<G(!new)>(
    cfg: Config<G>, opt: GraphInput<G> -> GraphResult<G>, ops: seq<Op<G>>, i: nat, j: nat)
    requires IsGroup(cfg.m) && IsOptimizer(opt)
    requires
      var c := DoAll(cfg, opt, Concurrent(InitialState(cfg.m), None, 0), ops);
      c.covered <= i + 1 && i <= j < |c.s.kfs| && OneChain(c.s.kfs, i, j)
    ensures
      var kfs := StateAfter(cfg, opt, ops).kfs;
      Minus(cfg.m, kfs[j].pose, kfs[i].pose) == Minus(cfg.m, kfs[j].src, kfs[i].src)
  {
    UncoveredKeyframesChained(cfg, opt, ops);
    var c := DoAll(cfg, opt, Concurrent(InitialState(cfg.m), None, 0), ops);
    ChainTelescopes(cfg.m, c.s.kfs, c.covered, i, j);
  }

  // ----- A solve starts from the poses of the map -----

  /** An optimizer that finds nothing to improve: it returns the guesses it was given. */
  ghost predicate IsEcho<G(!new)>(opt: GraphInput<G> -> GraphResult<G>) {
    forall g: GraphInput<G> {:trigger opt(g)} ::
      && |opt(g).poses| == |g.kfs| && (forall i :: 0 <= i < |g.kfs| ==> opt(g).poses[i] == g.kfs[i].guess)
      && opt(g).geo == Geo(None, None)
  }

  /** Then what is committed at once changes nothing. */
  lemma EchoCommitsNothing<G(!new)>(m: Motions<G>, opt: GraphInput<G> -> GraphResult<G>, s: State<G>)
    requires IsEcho(opt)
    ensures Commit(m, s, opt(Snapshot(s))) == s
  {
    var r := opt(Snapshot(s));
    SnapshotSize(s);
    var ps := CommittedPoses(m, s.kfs, r.poses);
    forall i | 0 <= i < |s.kfs| ensures ps[i] == s.kfs[i].pose {
      CommittedPosesChain(m, s.kfs, r.poses, i);
    }
    hide CommittedPoses;
    assert WithPoses(s.kfs, ps) == s.kfs;
  }

  /** The events of a run, in order. */
  function EventsOf<G>(ops: seq<Op<G>>): seq<Event<G>> {
    if ops == [] then []
    else
      var op := ops[|ops| - 1];
      EventsOf(ops[..|ops| - 1]) + if op.Input? then [op.ev] else []
  }

  /** And in every concurrent run, all its solves leave every pose as if there had been none: whenever
      they begin and end, and whatever is inserted in between. */
  lemma {:induction false} EchoSolvesChangeNothing<G(!new)>(
    cfg: Config<G>, opt: GraphInput<G> -> GraphResult<G>, ops: seq<Op<G>>)
    requires IsEcho(opt)
    ensures
      var c := DoAll(cfg, opt, Concurrent(InitialState(cfg.m), None, 0), ops);
      && c.s == Run(cfg, InitialState(cfg.m), EventsOf(ops))
      && (c.flight.Some? ==> 1 <= |c.flight.value.poses| <= |c.s.kfs| && Commit(cfg.m, c.s, c.flight.value) == c.s)
    decreases |ops|
  {
    if ops != [] {
      hide Step, Commit, Snapshot, IsEcho;
      EchoSolvesChangeNothing(cfg, opt, ops[..|ops| - 1]);
      var c := DoAll(cfg, opt, Concurrent(InitialState(cfg.m), None, 0), ops[..|ops| - 1]);
      var evs := EventsOf(ops[..|ops| - 1]);
      match ops[|ops| - 1]
      case Input(ev) =>
        assert (evs + [ev])[..|evs|] == evs;
        StepGrows(cfg, c.s, ev);
        if c.flight.Some? {
          StepCommutes(cfg, c.s, ev, c.flight.value);
        }
      case SolveBegins =>
        assert evs + [] == evs;
        EchoSize(opt, c.s);
        EchoCommitsNothing(cfg.m, opt, c.s);
      case SolveEnds =>
        assert evs + [] == evs;
    }
  }

  lemma EchoSize<G(!new)>(opt: GraphInput<G> -> GraphResult<G>, s: State<G>)
    requires IsEcho(opt)
    ensures |opt(Snapshot(s)).poses| == |s.kfs|
  {
    SnapshotSize(s);
  }
}
