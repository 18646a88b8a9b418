/** The recorded log alone determines what was ingested: everything but poses, loops and images
    is the same in a replay, whatever solves, scans and images came in between. */
module Replay {
  import opened Basics
  import opened Motion
  import opened GyroIntegration
  import opened MapperTypes
  import opened MapperSpec
  import opened SolveAtomicity
  import opened GnssAttachment

  // ----- What is compared -----

  /** Two keyframes that only differ in pose and images. */
  ghost predicate Alike<G>(a: Keyframe<G>, b: Keyframe<G>) {
    && a.stamp == b.stamp && a.frame == b.frame && a.src == b.src && a.scan == b.scan && a.gyro == b.gyro
    && NotPicture(a.aux) == NotPicture(b.aux)
    && (GNSS in a.nearest <==> GNSS in b.nearest)
    && (GNSS in a.nearest ==> a.nearest[GNSS] == b.nearest[GNSS])
  }

  ghost predicate AllAlike<G>(a: seq<Keyframe<G>>, b: seq<Keyframe<G>>) {
    |a| == |b| && forall i :: 0 <= i < |a| ==> Alike(a[i], b[i])
  }

  /** Two states that only differ in poses, geo-reference, loops, images and log. */
  ghost predicate Agree<G>(s: State<G>, t: State<G>) {
    && AllAlike(s.kfs, t.kfs)
    && s.pendingGnss == t.pendingGnss && s.imu == t.imu && s.gyro == t.gyro && s.finalized == t.finalized
  }

  /** The entries of a log, applied one by one. */
  ghost function ReplayAll<G(!new)>(cfg: Config<G>, log: seq<LogEntry<G>>): State<G> {
    if log == [] then InitialState(cfg.m) else Step(cfg, ReplayAll(cfg, log[..|log| - 1]), EventOf(log[|log| - 1]))
  }

  function EventOf<G>(e: LogEntry<G>): Event<G> {
    match e
    case ObservationEntry(o) => ObservationEvent(o)
    case KeyframeEntry(req, bias) => KeyframeEvent(req, bias)
  }

  /** A replay has the parameters of the run, but does not record. */
  function Replaying<G(!new)>(cfg: Config<G>): Config<G> {
    cfg.(recording := false)
  }

  // ----- The image-free observations -----

  lemma NotPictureAdd<G>(aux: seq<Aux<G>>, o: Aux<G>)
    ensures NotPicture(aux + [o]) == NotPicture(aux) + if o.PictureAux? || o.FileAux? then [] else [o]
  {
    assert (aux + [o])[..|aux|] == aux;
  }

  lemma {:induction false} NotPictureWithout<G>(aux: seq<Aux<G>>, remove: Option<Aux<G>>)
    ensures NotPicture(Without(aux, remove)) == Without(NotPicture(aux), remove)
  {
    if aux != [] {
      var n := |aux| - 1;
      var w, g := Without(aux[..n], remove), NotPicture(aux[..n]);
      NotPictureWithout(aux[..n], remove);
      NotPictureAdd(w, aux[n]);
      WithoutAdd(g, aux[n], remove);
      assert w + [] == w && g + [] == g;
    }
  }

  lemma {:induction false} WithoutPicture<G>(aux: seq<Aux<G>>, remove: Option<Aux<G>>)
    requires remove.Some? ==> remove.value.PictureAux? || remove.value.FileAux?
    ensures Without(NotPicture(aux), remove) == NotPicture(aux)
  {
    if aux != [] {
      var g := NotPicture(aux[..|aux| - 1]);
      WithoutPicture(aux[..|aux| - 1], remove);
      WithoutAdd(g, aux[|aux| - 1], remove);
      assert g + [] == g;
    }
  }

  lemma NotPictureReplaced<G>(aux: seq<Aux<G>>, remove: Option<Aux<G>>, add: Aux<G>)
    ensures NotPicture(Replaced(aux, remove, add)) ==
            Without(NotPicture(aux), remove) + if add.PictureAux? || add.FileAux? then [] else [add]
    ensures
      var pictures := (remove.Some? ==> remove.value.PictureAux? || remove.value.FileAux?) &&
                      (add.PictureAux? || add.FileAux?);
      pictures ==> NotPicture(Replaced(aux, remove, add)) == NotPicture(aux)
  {
    NotPictureAdd(Without(aux, remove), add);
    NotPictureWithout(aux, remove);
    if remove.Some? ==> remove.value.PictureAux? || remove.value.FileAux? {
      WithoutPicture(aux, remove);
      assert NotPicture(aux) + [] == NotPicture(aux);
    }
  }

  // ----- Images change nothing of it -----

  lemma AllAlikeSelf<G>(a: seq<Keyframe<G>>)
    ensures AllAlike(a, a)
  {
  }

  lemma AllAlikeTransitive<G>(a: seq<Keyframe<G>>, b: seq<Keyframe<G>>, c: seq<Keyframe<G>>)
    requires AllAlike(a, b) && AllAlike(b, c)
    ensures AllAlike(a, c)
  {
    hide NotPicture;
  }

  lemma PictureAlike<G>(kf: Keyframe<G>, slot: string, o: Aux<G>, dt: nat)
    requires WellSlotted(kf) && slot != GNSS && (o.PictureAux? || o.FileAux?)
    ensures Alike(Attached(kf, slot, o, dt), kf)
  {
    hide Replaced, NotPicture, OnlyGnss;
    NotPictureReplaced(kf.aux, if slot in kf.nearest then Some(kf.nearest[slot].obs) else None, o);
  }

  lemma ImageOneAlike<G>(maxOffset: int, x: ImagePart<G>, p: Picture)
    requires AllWellSlotted(x.kfs)
    ensures AllAlike(AttachImage(maxOffset, x, p).kfs, x.kfs)
  {
    hide Choose, WellSlotted, Alike;
    var slot := ImageSlot(p.sensor);
    var c := Choose(x.kfs, p.stamp, slot, maxOffset);
    ImageSlotIsNotGnss(p.sensor);
    forall i | 0 <= i < |x.kfs| ensures Alike(x.kfs[i], x.kfs[i]) {
      AlikeSelf(x.kfs[i]);
    }
    if c.Attach? {
      PictureAlike(x.kfs[c.at], slot, PictureAux(p), c.dt);
    }
  }

  lemma AlikeSelf<G>(kf: Keyframe<G>)
    ensures Alike(kf, kf)
  {
  }

  lemma {:induction false} ImagesAlike<G>(maxOffset: int, x: ImagePart<G>, ps: seq<Picture>)
    requires AllWellSlotted(x.kfs)
    ensures AllAlike(AttachAllImages(maxOffset, x, ps).kfs, x.kfs)
    decreases |ps|
  {
    hide AllAlike, AllWellSlotted, AttachImage;
    if ps == [] {
      AllAlikeSelf(x.kfs);
    } else {
      var n := |ps| - 1;
      var y := AttachAllImages(maxOffset, x, ps[..n]);
      ImagesAlike(maxOffset, x, ps[..n]);
      ImagesKeepGnss(maxOffset, x, ps[..n]);
      ImageOneAlike(maxOffset, y, ps[n]);
      AllAlikeTransitive(AttachImage(maxOffset, y, ps[n]).kfs, y.kfs, x.kfs);
    }
  }

  lemma FinishOneAlike<G>(toFiles: bool, x: ImagePart<G>, e: (nat, string))
    requires AllWellSlotted(x.kfs) && HoldsPicture(x.kfs, e)
    ensures AllAlike(FinishOne(toFiles, x, e).kfs, x.kfs)
  {
    var kf := x.kfs[e.0];
    assert e.1 != GNSS && WellSlotted(kf);
    hide WellSlotted, Alike;
    forall i | 0 <= i < |x.kfs| ensures Alike(x.kfs[i], x.kfs[i]) {
      AlikeSelf(x.kfs[i]);
    }
    PictureAlike(kf, e.1, FileAux(kf.nearest[e.1].obs.picture), kf.nearest[e.1].dt);
  }

  lemma {:induction false} FinishAlike<G>(
    toFiles: bool, x: ImagePart<G>, es: seq<(nat, string)>, newest: Option<(string, int)>)
    requires AllWellSlotted(x.kfs)
    ensures AllAlike(FinishEach(toFiles, x, es, newest).kfs, x.kfs)
    decreases |es|
  {
    hide AllAlike, AllWellSlotted, FinishOne;
    if es == [] {
      AllAlikeSelf(x.kfs);
    } else {
      var n := |es| - 1;
      var y := FinishEach(toFiles, x, es[..n], newest);
      FinishAlike(toFiles, x, es[..n], newest);
      FinishKeepsGnss(toFiles, x, es[..n], newest);
      if HoldsPicture(y.kfs, es[n]) {
        FinishOneAlike(toFiles, y, es[n]);
        AllAlikeTransitive(FinishOne(toFiles, y, es[n]).kfs, y.kfs, x.kfs);
      }
    }
  }

  lemma RetryImagesAgree<G(!new)>(cfg: Config<G>, s: State<G>)
    requires AllWellSlotted(s.kfs)
    ensures Agree(RetryImages(cfg, s), s)
  {
    hide AllAlike, AttachAllImages;
    ImagesAlike(cfg.imageMaxOffset, ImagePart(s.kfs, s.images.(pending := [])), s.images.pending);
  }

  lemma AddImageAgrees<G(!new)>(cfg: Config<G>, s: State<G>, p: Picture)
    requires AllWellSlotted(s.kfs)
    ensures Agree(AddImage(cfg, s, p), s)
  {
    hide AllAlike, AllWellSlotted, AttachAllImages, FinishEach;
    var x := ImagePart(s.kfs, s.images.(pending := s.images.pending + [p]));
    ImagesAlike(cfg.imageMaxOffset, x.(im := x.im.(pending := [])), x.im.pending);
    ImagesKeepGnss(cfg.imageMaxOffset, x.(im := x.im.(pending := [])), x.im.pending);
    var y := RetryImagePart(cfg.imageMaxOffset, x);
    FinishAlike(cfg.imageDir, y.(im := y.im.(unwritten := [])), y.im.unwritten, Some((p.sensor, p.stamp)));
    AllAlikeTransitive(AddImage(cfg, s, p).kfs, y.kfs, s.kfs);
  }

  // ----- The logged steps do the same on both sides -----

  lemma ChooseAlike<G>(a: seq<Keyframe<G>>, b: seq<Keyframe<G>>, t: int, maxOffset: int)
    requires AllAlike(a, b)
    ensures Choose(a, t, GNSS, maxOffset) == Choose(b, t, GNSS, maxOffset)
  {
    hide NotPicture;
    if a != [] {
      assert Alike(a[|a| - 1], b[|b| - 1]);
      NearestOfStamps(a, b, t);
      assert Alike(a[NearestIndex(a, t)], b[NearestIndex(a, t)]);
    }
  }

  lemma AttachedAlike<G>(a: Keyframe<G>, b: Keyframe<G>, r: Reading, dt: nat)
    requires Alike(a, b)
    ensures Alike(Attached(a, GNSS, GnssAux(r), dt), Attached(b, GNSS, GnssAux(r), dt))
  {
    hide Replaced, NotPicture;
    NotPictureReplaced(a.aux, if GNSS in a.nearest then Some(a.nearest[GNSS].obs) else None, GnssAux(r));
    NotPictureReplaced(b.aux, if GNSS in b.nearest then Some(b.nearest[GNSS].obs) else None, GnssAux(r));
  }

  ghost predicate SameGnssPart<G>(x: GnssPart<G>, y: GnssPart<G>) {
    AllAlike(x.kfs, y.kfs) && x.pending == y.pending
  }

  lemma AttachGnssAlike<G>(maxOffset: int, x: GnssPart<G>, y: GnssPart<G>, r: Reading)
    requires SameGnssPart(x, y)
    ensures SameGnssPart(AttachGnss(maxOffset, x, r), AttachGnss(maxOffset, y, r))
  {
    hide Choose, Alike, Attached;
    ChooseAlike(x.kfs, y.kfs, r.stamp, maxOffset);
    var c := Choose(x.kfs, r.stamp, GNSS, maxOffset);
    if c.Attach? {
      AttachedAlike(x.kfs[c.at], y.kfs[c.at], r, c.dt);
    }
  }

  lemma {:induction false} AttachAllGnssAlike<G>(maxOffset: int, x: GnssPart<G>, y: GnssPart<G>, rs: seq<Reading>)
    requires SameGnssPart(x, y)
    ensures SameGnssPart(AttachAllGnss(maxOffset, x, rs), AttachAllGnss(maxOffset, y, rs))
    decreases |rs|
  {
    if rs != [] {
      hide SameGnssPart, AttachGnss;
      var n := |rs| - 1;
      AttachAllGnssAlike(maxOffset, x, y, rs[..n]);
      AttachGnssAlike(maxOffset, AttachAllGnss(maxOffset, x, rs[..n]), AttachAllGnss(maxOffset, y, rs[..n]), rs[n]);
    }
  }

  lemma WithGravityAlike<G>(rule: GravityRule, imu: Imu<G>, a: Keyframe<G>, b: Keyframe<G>)
    requires Alike(a, b)
    ensures Alike(WithGravity(rule, imu, a), WithGravity(rule, imu, b))
  {
    hide Replaced, NotPicture;
    var g := Gravity(imu.sensor, imu.sensorPose, a.stamp, TallyOf(imu.samples, a.stamp, rule.window));
    NotPictureReplaced(a.aux, None, GravityAux(g));
    NotPictureReplaced(b.aux, None, GravityAux(g));
  }

  ghost predicate SameImuPart<G>(x: ImuPart<G>, y: ImuPart<G>) {
    AllAlike(x.kfs, y.kfs) && x.imu == y.imu
  }

  lemma ResolveOneAlike<G>(rule: GravityRule, x: ImuPart<G>, y: ImuPart<G>, k: nat, imu: Imu<G>)
    requires SameImuPart(x, y) && k < |x.kfs|
    ensures SameImuPart(ImuPart(x.kfs[k := WithGravity(rule, x.imu, x.kfs[k])], imu),
                        ImuPart(y.kfs[k := WithGravity(rule, y.imu, y.kfs[k])], imu))
  {
    hide WithGravity, Alike;
    WithGravityAlike(rule, x.imu, x.kfs[k], y.kfs[k]);
  }

  lemma {:induction false} ResolveAlike<G>(rule: GravityRule, x: ImuPart<G>, y: ImuPart<G>, t: int)
    requires SameImuPart(x, y)
    ensures SameImuPart(ResolveGravity(rule, x, t), ResolveGravity(rule, y, t))
    decreases |x.imu.pending|
  {
    hide WithGravity, NotPicture;
    var q := x.imu.pending;
    if q != [] && q[0] < |x.kfs| && x.kfs[q[0]].stamp < t {
      assert Alike(x.kfs[q[0]], y.kfs[q[0]]);
      hide Alike, SameImuPart;
      var imu := x.imu.(pending := q[1..]);
      ResolveOneAlike(rule, x, y, q[0], imu);
      SameImu(x, y);
      ResolveAlike(rule, ImuPart(x.kfs[q[0] := WithGravity(rule, x.imu, x.kfs[q[0]])], imu),
                   ImuPart(y.kfs[q[0] := WithGravity(rule, y.imu, y.kfs[q[0]])], imu), t);
    } else if q != [] && q[0] < |x.kfs| {
      assert Alike(x.kfs[q[0]], y.kfs[q[0]]);
    }
  }

  lemma SameImu<G>(x: ImuPart<G>, y: ImuPart<G>)
    requires SameImuPart(x, y)
    ensures x.imu == y.imu && |x.kfs| == |y.kfs|
  {
  }

  lemma GravitySampleAlike<G>(
    rule: GravityRule, x: ImuPart<G>, y: ImuPart<G>, t: int, sensor: string, pose: G, acc: Vec)
    requires SameImuPart(x, y)
    ensures SameImuPart(AddGravitySample(rule, x, t, sensor, pose, acc),
        AddGravitySample(rule, y, t, sensor, pose, acc))
  {
    hide ResolveGravity, AllAlike, DropOldAccelerations;
    var imu := if x.imu.sensor == "" then x.imu.(sensor := sensor) else x.imu;
    var imu1 := imu.(samples := imu.samples + [Acceleration(t, acc)], sensorPose := pose);
    ResolveAlike(rule, ImuPart(x.kfs, imu1), ImuPart(y.kfs, imu1), t);
  }

  lemma AlikePosed<G>(a: Keyframe<G>, b: Keyframe<G>, p: G, q: G, gyro: Option<GyroRotation<G>>)
    requires Alike(a, b)
    ensures Alike(a.(pose := p, gyro := gyro), b.(pose := q, gyro := gyro))
  {
    hide NotPicture;
  }

  lemma LastStamp<G>(s: State<G>, t: State<G>)
    requires Agree(s, t)
    ensures |s.kfs| == |t.kfs| && s.gyro == t.gyro && s.imu == t.imu
    ensures s.kfs != [] ==> s.kfs[|s.kfs| - 1].stamp == t.kfs[|t.kfs| - 1].stamp
  {
    if s.kfs != [] {
      assert Alike(s.kfs[|s.kfs| - 1], t.kfs[|t.kfs| - 1]);
    }
  }

  /** The gyroscope rotation of a new keyframe. */
  ghost function NewGyro<G(!new)>(
    cfg: Config<G>, s: State<G>, req: Request<G>, bias: GyroBias): Option<GyroRotation<G>> {
    if s.kfs == [] then None
    else GyroRotationSince(cfg, s.gyro, s.kfs[|s.kfs| - 1].stamp, req.stamp, UsedBias(cfg, bias))
  }

  lemma NewKeyframeIs<G(!new)>(cfg: Config<G>, s: State<G>, req: Request<G>, bias: GyroBias)
    ensures
      var kf := WithGravity(RuleOf(cfg), s.imu,
          Keyframe(req.stamp, req.frame, req.src, req.scan, [], map[], req.src, None));
      NewKeyframe(cfg, s, req, bias)
          == kf.(pose := NewKeyframe(cfg, s, req, bias).pose, gyro := NewGyro(cfg, s, req, bias))
  {
    hide GyroRotationSince, EnoughGravity, Replaced, ChainPose;
  }

  lemma SameNewGyro<G(!new)>(cfg: Config<G>, s: State<G>, t: State<G>, req: Request<G>, bias: GyroBias)
    requires Agree(s, t)
    ensures NewGyro(Replaying(cfg), t, req, bias) == NewGyro(cfg, s, req, bias)
  {
    hide GyroRotationSince, Agree;
    LastStamp(s, t);
    if s.kfs != [] {
      SameGyroRotation(cfg, s.gyro, s.kfs[|s.kfs| - 1].stamp, req.stamp, UsedBias(cfg, bias));
    }
  }

  lemma NewKeyframeAlike<G(!new)>(cfg: Config<G>, s: State<G>, t: State<G>, req: Request<G>, bias: GyroBias)
    requires Agree(s, t)
    ensures Alike(NewKeyframe(cfg, s, req, bias), NewKeyframe(Replaying(cfg), t, req, bias))
  {
    hide WithGravity, NewGyro, NewKeyframe, Alike, Agree;
    var r := Replaying(cfg);
    var kf := WithGravity(RuleOf(cfg), s.imu,
        Keyframe(req.stamp, req.frame, req.src, req.scan, [], map[], req.src, None));
    LastStamp(s, t);
    NewKeyframeIs(cfg, s, req, bias);
    NewKeyframeIs(r, t, req, bias);
    SameNewGyro(cfg, s, t, req, bias);
    AlikeSelf(kf);
    AlikePosed(kf, kf, NewKeyframe(cfg, s, req, bias).pose, NewKeyframe(r, t, req, bias).pose,
        NewGyro(cfg, s, req, bias));
  }

  lemma SameGyroRotation<G(!new)>(cfg: Config<G>, gyro: Gyro<G>, t0: int, t1: int, b: GyroBias)
    ensures GyroRotationSince(Replaying(cfg), gyro, t0, t1, b) == GyroRotationSince(cfg, gyro, t0, t1, b)
  {
  }

  lemma AppendedAlike<G(!new)>(cfg: Config<G>, s: State<G>, t: State<G>, req: Request<G>, bias: GyroBias)
    requires Agree(s, t)
    ensures Agree(Appended(cfg, s, req, bias), Appended(Replaying(cfg), t, req, bias))
  {
    hide NewKeyframe, EnoughGravity, Alike;
    NewKeyframeAlike(cfg, s, t, req, bias);
  }

  lemma RetryGnssAlike<G(!new)>(cfg: Config<G>, s: State<G>, t: State<G>)
    requires Agree(s, t)
    ensures Agree(RetryGnss(cfg, s), RetryGnss(Replaying(cfg), t))
  {
    hide AllAlike, AttachAllGnss;
    AttachAllGnssAlike(cfg.gnssMaxOffset, GnssPart(s.kfs, [], s.newData), GnssPart(t.kfs, [], t.newData),
        s.pendingGnss);
  }

  lemma AgreeTransitive<G>(a: State<G>, b: State<G>, c: State<G>)
    requires Agree(a, b) && Agree(b, c)
    ensures Agree(a, c)
  {
    hide AllAlike;
    AllAlikeTransitive(a.kfs, b.kfs, c.kfs);
  }

  lemma AgreeSymmetric<G>(a: State<G>, b: State<G>)
    requires Agree(a, b)
    ensures Agree(b, a)
  {
    hide NotPicture;
  }

  lemma AgreeWithFlag<G>(a: State<G>, flag: bool, b: State<G>, other: bool)
    requires Agree(a, b)
    ensures Agree(a.(newData := flag), b.(newData := other))
  {
    hide AllAlike;
  }

  lemma LoggedAgrees<G(!new)>(cfg: Config<G>, s: State<G>, e: LogEntry<G>, t: State<G>)
    requires Agree(s, t)
    ensures Agree(Logged(cfg, s, e), Logged(Replaying(cfg), t, e))
  {
    hide AllAlike;
  }

  lemma AcceptsAlike<G>(s: State<G>, t: State<G>, req: Request<G>)
    requires Agree(s, t)
    ensures Accepts(s, req) == Accepts(t, req)
  {
    if s.kfs != [] {
      assert Alike(s.kfs[|s.kfs| - 1], t.kfs[|t.kfs| - 1]);
    }
  }

  /** The slots of the state with the new keyframe, its readings tried, before the images. */
  lemma InsertedWellSlotted<G(!new)>(cfg: Config<G>, s: State<G>, req: Request<G>, bias: GyroBias, rs: seq<Reading>)
    requires GnssInvariant(cfg, s, rs) && Accepts(s, req)
    ensures AllWellSlotted(RetryGnss(cfg, Appended(cfg, s, req, bias)).kfs)
  {
    hide Offline, NewKeyframe, AttachAllGnss, WellSlotted;
    var kf := NewKeyframe(cfg, s, req, bias);
    NewKeyframeGnss(cfg, s, req, bias);
    RetryAfterAppend(s.kfs, kf, s.newData, rs, cfg.gnssMaxOffset);
    OfflineWellSlotted(RetryGnss(cfg, Appended(cfg, s, req, bias)).kfs, SetOf(rs), cfg.gnssMaxOffset);
  }

  lemma InsertAgrees<G(!new)>(
    cfg: Config<G>, s: State<G>, t: State<G>, req: Request<G>, bias: GyroBias, rs: seq<Reading>, qs: seq<Reading>)
    requires Agree(s, t) && GnssInvariant(cfg, s, rs) && GnssInvariant(Replaying(cfg), t, qs)
    ensures Agree(Insert(cfg, s, req, bias), Insert(Replaying(cfg), t, req, bias))
  {
    hide Agree, Appended, RetryGnss, RetryImages, Accepts, GnssInvariant;
    var r := Replaying(cfg);
    AcceptsAlike(s, t, req);
    AgreeFinalized(s, t);
    var e := KeyframeEntry(req, bias);
    LoggedAgrees(cfg, s, e, t);
    if Accepts(s, req) {
      var s1, t1 := Logged(cfg, s, e), Logged(r, t, e);
      LoggedInvariant(cfg, s, e, req, rs);
      LoggedInvariant(r, t, e, req, qs);
      AppendedAlike(cfg, s1, t1, req, bias);
      var s2, t2 := Appended(cfg, s1, req, bias), Appended(r, t1, req, bias);
      RetryGnssAlike(cfg, s2, t2);
      var s3, t3 := RetryGnss(cfg, s2), RetryGnss(r, t2);
      InsertedWellSlotted(cfg, s1, req, bias, rs);
      InsertedWellSlotted(r, t1, req, bias, qs);
      RetryImagesAgree(cfg, s3);
      RetryImagesAgree(r, t3);
      AgreeSymmetric(RetryImages(r, t3), t3);
      AgreeTransitive(RetryImages(cfg, s3), s3, t3);
      AgreeTransitive(RetryImages(cfg, s3), t3, RetryImages(r, t3));
      AgreeWithFlag(RetryImages(cfg, s3), true, RetryImages(r, t3), true);
    }
  }

  lemma AgreeFinalized<G>(s: State<G>, t: State<G>)
    requires Agree(s, t)
    ensures s.finalized == t.finalized
  {
  }

  lemma LoggedInvariant<G(!new)>(cfg: Config<G>, s: State<G>, e: LogEntry<G>, req: Request<G>, rs: seq<Reading>)
    requires GnssInvariant(cfg, s, rs)
    ensures GnssInvariant(cfg, Logged(cfg, s, e), rs)
    ensures Accepts(Logged(cfg, s, e), req) == Accepts(s, req)
  {
    hide Offline;
  }

  lemma GnssAgrees<G(!new)>(cfg: Config<G>, s: State<G>, t: State<G>, r: Reading)
    requires Agree(s, t)
    ensures Agree(AddGnss(cfg, s, r), AddGnss(Replaying(cfg), t, r))
  {
    hide AllAlike, AttachGnss;
    AttachGnssAlike(cfg.gnssMaxOffset, GnssPart(s.kfs, s.pendingGnss, s.newData),
        GnssPart(t.kfs, t.pendingGnss, t.newData), r);
  }

  lemma ImuAgrees<G(!new)>(cfg: Config<G>, s: State<G>, t: State<G>, o: Observation<G>)
    requires Agree(s, t) && o.ImuObs?
    ensures Agree(AddImu(cfg, s, o), AddImu(Replaying(cfg), t, o))
  {
    hide AllAlike, AddGravitySample, AddGyroSample;
    if UsesGravity(cfg, o) {
      GravitySampleAlike(RuleOf(cfg), ImuPart(s.kfs, s.imu), ImuPart(t.kfs, t.imu), o.stamp, o.sensor, o.sensorPose,
          o.acc.value);
    }
  }

  lemma ObserveAgrees<G(!new)>(
    cfg: Config<G>, s: State<G>, t: State<G>, o: Observation<G>, rs: seq<Reading>, qs: seq<Reading>)
    requires Agree(s, t) && GnssInvariant(cfg, s, rs) && GnssInvariant(Replaying(cfg), t, qs)
    ensures Agree(Observe(cfg, s, o), Observe(Replaying(cfg), t, o))
  {
    hide Agree, AddGnss, AddImu, AddImage, Logged, HoldsClosest, WellSlotted, Increasing, Newer;
    var r := Replaying(cfg);
    LoggedAgrees(cfg, s, ObservationEntry(o), t);
    if UsesImage(cfg, o) {
      AddImageAgrees(cfg, s, o.picture);
      AddImageAgrees(r, t, o.picture);
      AgreeSymmetric(AddImage(r, t, o.picture), t);
      AgreeTransitive(AddImage(cfg, s, o.picture), s, t);
      AgreeTransitive(AddImage(cfg, s, o.picture), t, AddImage(r, t, o.picture));
    } else if UsesGnss(cfg, o) {
      GnssAgrees(cfg, Logged(cfg, s, ObservationEntry(o)), Logged(r, t, ObservationEntry(o)), o.reading);
    } else if UsesGyro(cfg, o) || UsesGravity(cfg, o) {
      ImuAgrees(cfg, Logged(cfg, s, ObservationEntry(o)), Logged(r, t, ObservationEntry(o)), o);
    }
  }

  /** An image leaves what is compared alone. */
  lemma ImageAgrees<G(!new)>(cfg: Config<G>, s: State<G>, o: Observation<G>, rs: seq<Reading>)
    requires GnssInvariant(cfg, s, rs) && UsesImage(cfg, o)
    ensures Agree(Observe(cfg, s, o), s)
  {
    hide Agree, AddImage, HoldsClosest, WellSlotted, Increasing, Newer;
    AddImageAgrees(cfg, s, o.picture);
  }

  lemma CommitAgrees<G(!new)>(m: Motions<G>, s: State<G>, r: GraphResult<G>)
    ensures Agree(Commit(m, s, r), s)
  {
    hide CommittedPoses, NotPicture;
  }

  lemma MergeAgrees<G(!new)>(cfg: Config<G>, s: State<G>, edges: seq<Edge<G>>)
    ensures Agree(Merge(cfg, s, edges), s)
  {
    hide NotPicture;
  }

  // ----- Whole runs -----

  /** What an operation of the live run adds to the log. */
  function LoggedBy<G(!new)>(cfg: Config<G>, op: Op<G>): seq<LogEntry<G>> {
    match op
    case Input(KeyframeEvent(req, bias)) => [KeyframeEntry(req, bias)]
    case Input(ObservationEvent(o)) =>
      if !UsesImage(cfg, o) && (UsesGnss(cfg, o) || UsesGyro(cfg, o) || UsesGravity(cfg, o)) then [ObservationEntry(o)]
      else []
    case _ => []
  }

  lemma InsertLogs<G(!new)>(cfg: Config<G>, s: State<G>, req: Request<G>, bias: GyroBias)
    requires cfg.recording && !s.finalized
    ensures Insert(cfg, s, req, bias).log == s.log + [KeyframeEntry(req, bias)]
  {
    hide NewKeyframe, AttachAllGnss, RetryImagePart;
  }

  lemma ObserveLogs<G(!new)>(cfg: Config<G>, s: State<G>, o: Observation<G>)
    requires cfg.recording && !s.finalized
    ensures Observe(cfg, s, o).log == s.log + LoggedBy(cfg, Input(ObservationEvent(o)))
  {
    hide AttachGnss, AddGravitySample, AddGyroSample, RetryImagePart, FinishPart;
    assert s.log + [] == s.log;
  }

  /** Everything the invariant of attachment needs, about a replay. */
  lemma {:induction false} ReplayInvariant<G(!new)>(cfg: Config<G>, log: seq<LogEntry<G>>) returns (rs: seq<Reading>)
    ensures GnssInvariant(cfg, ReplayAll(cfg, log), rs)
  {
    if log == [] {
      rs := [];
    } else {
      hide GnssInvariant, Insert, Observe;
      var before := ReplayInvariant(cfg, log[..|log| - 1]);
      var s := ReplayAll(cfg, log[..|log| - 1]);
      match log[|log| - 1]
      case KeyframeEntry(req, bias) =>
        rs := before;
        InsertKeepsGnss(cfg, s, req, bias, before);
      case ObservationEntry(o) =>
        rs := before + ReadingOf(cfg, o);
        ObserveKeepsGnss(cfg, s, o, before);
    }
  }

  lemma ReplayAdd<G(!new)>(cfg: Config<G>, log: seq<LogEntry<G>>, e: LogEntry<G>)
    ensures ReplayAll(cfg, log + [e]) == Step(cfg, ReplayAll(cfg, log), EventOf(e))
  {
    assert (log + [e])[..|log|] == log;
  }

  /** One operation of the live run, against the replay of what it logs. */
  lemma OpReplayed<G(!new)>(
    cfg: Config<G>, opt: GraphInput<G> -> GraphResult<G>, c: Concurrent<G>, op: Op<G>, rs: seq<Reading>)
    requires cfg.recording && GnssInvariant(cfg, c.s, rs) && Agree(c.s, ReplayAll(Replaying(cfg), c.s.log))
    ensures
      var s := Do(cfg, opt, c, op).s;
      s.log == c.s.log + LoggedBy(cfg, op) && Agree(s, ReplayAll(Replaying(cfg), s.log))
  {
    hide Agree, Insert, Observe, Commit, Merge, Snapshot, ReplayAll, UsesImage, UsesGnss, UsesGyro, UsesGravity;
    var r := Replaying(cfg);
    var log := c.s.log;
    var t := ReplayAll(r, log);
    var qs := ReplayInvariant(r, log);
    assert !c.s.finalized;
    hide GnssInvariant;
    assert log + [] == log;
    match op
    case Input(KeyframeEvent(req, bias)) =>
      InsertAgrees(cfg, c.s, t, req, bias, rs, qs);
      InsertLogs(cfg, c.s, req, bias);
      ReplayAdd(r, log, KeyframeEntry(req, bias));
    case Input(ObservationEvent(o)) =>
      ObserveLogs(cfg, c.s, o);
      if UsesImage(cfg, o) {
        ImageAgrees(cfg, c.s, o, rs);
        AgreeTransitive(Observe(cfg, c.s, o), c.s, t);
      } else if UsesGnss(cfg, o) || UsesGyro(cfg, o) || UsesGravity(cfg, o) {
        ObserveAgrees(cfg, c.s, t, o, rs, qs);
        ReplayAdd(r, log, ObservationEntry(o));
      } else {
        UnusedIgnored(cfg, c.s, o);
      }
    case Input(LoopsEvent(edges)) =>
      MergeAgrees(cfg, c.s, edges);
      MergeLogs(cfg, c.s, edges);
      AgreeTransitive(Merge(cfg, c.s, edges), c.s, t);
    case SolveBegins =>
    case SolveEnds =>
      if c.flight.Some? {
        CommitAgrees(cfg.m, c.s, c.flight.value);
        CommitLogs(cfg.m, c.s, c.flight.value);
        AgreeTransitive(Commit(cfg.m, c.s, c.flight.value), c.s, t);
      }
  }

  lemma UnusedIgnored<G(!new)>(cfg: Config<G>, s: State<G>, o: Observation<G>)
    requires !UsesImage(cfg, o) && !UsesGnss(cfg, o) && !UsesGyro(cfg, o) && !UsesGravity(cfg, o)
    ensures Observe(cfg, s, o) == s
  {
    hide UsesImage, UsesGnss, UsesGyro, UsesGravity;
  }

  lemma MergeLogs<G(!new)>(cfg: Config<G>, s: State<G>, edges: seq<Edge<G>>)
    ensures Merge(cfg, s, edges).log == s.log
  {
  }

  lemma CommitLogs<G(!new)>(m: Motions<G>, s: State<G>, r: GraphResult<G>)
    ensures Commit(m, s, r).log == s.log
  {
  }

  /** For every interleaving of keyframes, readings, images, loop merges and solves: the log holds
      the requests, refused ones too, and the readings used, in the order in which they changed
      the state; and replaying it alone gives the same keyframes (their readings, in order,
      gravity and gyroscope rotations), pending queues and sensor buffers. */
  lemma {:induction false} LogDeterminesIngestion<G(!new)>(
    cfg: Config<G>, opt: GraphInput<G> -> GraphResult<G>, ops: seq<Op<G>>)
    requires cfg.recording
    ensures
      var s := StateAfter(cfg, opt, ops);
      s.log == LogOf(cfg, ops) && Agree(s, ReplayAll(Replaying(cfg), s.log))
    decreases |ops|
  {
    if ops == [] {
      AllAlikeSelf<G>([]);
    } else {
      hide Agree, Do, GnssInvariant, ReplayAll;
      var n := |ops| - 1;
      LogDeterminesIngestion(cfg, opt, ops[..n]);
      OnlineRefinesOffline(cfg, opt, ops[..n]);
      OpReplayed(cfg, opt, DoAll(cfg, opt, Concurrent(InitialState(cfg.m), None, 0), ops[..n]), ops[n],
          Received(cfg, ops[..n]));
    }
  }

  function LogOf<G(!new)>(cfg: Config<G>, ops: seq<Op<G>>): seq<LogEntry<G>> {
    if ops == [] then [] else LogOf(cfg, ops[..|ops| - 1]) + LoggedBy(cfg, ops[|ops| - 1])
  }
}
