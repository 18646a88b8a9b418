/** The mapper object: what it keeps under its state lock, and its critical sections, each proved
    to do what MapperSpec says. */
module MapperObject {
  import opened Basics
  import opened Motion
  import opened GyroIntegration
  import opened LoopOdometryCheck
  import opened MapperTypes
  import opened MapperSpec
  import opened SolveAtomicity
  import opened LoopSet
  import opened LoopScans
  import opened EndOfRun
  import opened AttachedPictures
  import opened GnssAttachment
  import opened ImageAttachment
  import opened GyroAttachment
  import GravityAttachment

  // ----- The nearest keyframe, by bisection -----

  /** The first keyframe not older than `t`. */
  function LowerBound<G>(kfs: seq<Keyframe<G>>, t: int): (i: nat)
    ensures i <= |kfs| && (i < |kfs| ==> t <= kfs[i].stamp)
    ensures forall j :: 0 <= j < i ==> kfs[j].stamp < t
  {
    if kfs == [] then 0
    else
      var n := |kfs| - 1;
      var i := LowerBound(kfs[..n], t);
      if i == n && kfs[n].stamp < t then n + 1 else i
  }

  /** Only two keyframes can be the nearest one. */
  lemma NearestIsCandidate<G>(kfs: seq<Keyframe<G>>, t: int)
    requires Increasing(kfs) && kfs != [] && t <= kfs[|kfs| - 1].stamp
    ensures
      var i := LowerBound(kfs, t);
      && i < |kfs|
      && NearestIndex(kfs, t) == (if i > 0 && Offset(kfs[i - 1], t) <= Offset(kfs[i], t) then (i - 1) as nat else i)
  {
    var i, k := LowerBound(kfs, t), NearestIndex(kfs, t);
  }

  lemma AttachedIncreasing<G>(kfs: seq<Keyframe<G>>, c: Choice, slot: string, o: Aux<G>)
    requires Increasing(kfs) && (c.Attach? ==> c.at < |kfs|)
    ensures Increasing(AttachAt(kfs, c, slot, o))
  {
    hide Replaced;
  }

  // ----- One more element of a loop -----

  lemma GnssOneMore<G>(maxOffset: int, x: GnssPart<G>, rs: seq<Reading>, i: nat)
    requires i < |rs|
    ensures AttachAllGnss(maxOffset, x, rs[..i + 1])
         == MapperSpec.AttachGnss(maxOffset, AttachAllGnss(maxOffset, x, rs[..i]), rs[i])
  {
    hide MapperSpec.AttachGnss;
    assert rs[..i + 1][..i] == rs[..i];
  }

  lemma NoGnss<G>(maxOffset: int, x: GnssPart<G>)
    ensures AttachAllGnss(maxOffset, x, []) == x
  {
  }

  lemma NoImages<G>(maxOffset: int, x: ImagePart<G>)
    ensures AttachAllImages(maxOffset, x, []) == x
  {
  }

  lemma NoFinish<G>(toFiles: bool, x: ImagePart<G>, newest: Option<(string, int)>)
    ensures FinishEach(toFiles, x, [], newest) == x
  {
  }

  lemma ImagesOneMore<G>(maxOffset: int, x: ImagePart<G>, ps: seq<Picture>, i: nat)
    requires i < |ps|
    ensures AttachAllImages(maxOffset, x, ps[..i + 1])
        == AttachImage(maxOffset, AttachAllImages(maxOffset, x, ps[..i]), ps[i])
  {
    hide AttachImage;
    assert ps[..i + 1][..i] == ps[..i];
  }

  lemma FinishOneMore<G>(
    toFiles: bool, x: ImagePart<G>, es: seq<(nat, string)>, i: nat, newest: Option<(string, int)>)
    requires i < |es|
    ensures
      var y := FinishEach(toFiles, x, es[..i], newest);
      FinishEach(toFiles, x, es[..i + 1], newest) ==
        if HoldsPicture(y.kfs, es[i]) && !MayBeReplaced(y.kfs, es[i], newest) then FinishOne(toFiles, y, es[i])
        else y.(im := y.im.(unwritten := y.im.unwritten + [es[i]]))
  {
    hide FinishOne, MayBeReplaced;
    assert es[..i + 1][..i] == es[..i];
  }

  lemma FinishOneOtherList<G>(toFiles: bool, x: ImagePart<G>, e: (nat, string), unwritten: seq<(nat, string)>)
    requires HoldsPicture(x.kfs, e)
    ensures
      var y := FinishOne(toFiles, x, e);
      FinishOne(toFiles, x.(im := x.im.(unwritten := unwritten)), e) == y.(im := y.im.(unwritten := unwritten))
      && y.im.unwritten == x.im.unwritten
  {
    hide Externalized;
  }

  lemma TallyOneMore(a: seq<Acceleration>, i: nat, t: int, window: int)
    requires i < |a|
    ensures
      var rest := TallyOf(a[..i], t, window);
      TallyOf(a[..i + 1], t, window) ==
        if InWindow(a[i], t, window) then Tally(AddVec(rest.sum, a[i].acc), rest.n + 1) else rest
  {
    assert a[..i + 1][..i] == a[..i];
  }

  lemma ResolveNext<G>(rule: GravityRule, x: ImuPart<G>, t: int)
    requires
      var q := x.imu.pending;
      q != [] && q[0] < |x.kfs| && x.kfs[q[0]].stamp < t
    ensures
      var q := x.imu.pending;
      ResolveGravity(rule, x, t) ==
        ResolveGravity(rule, ImuPart(x.kfs[q[0] := WithGravity(rule, x.imu, x.kfs[q[0]])],
            x.imu.(pending := q[1..])), t)
  {
    hide WithGravity;
  }

  lemma SameStamp<G>(rule: GravityRule, imu: Imu<G>, kf: Keyframe<G>)
    ensures WithGravity(rule, imu, kf).stamp == kf.stamp
  {
  }

  lemma NewStamp<G(!new)>(cfg: Config<G>, s: State<G>, req: Request<G>, bias: GyroBias)
    ensures NewKeyframe(cfg, s, req, bias).stamp == req.stamp
  {
    hide EnoughGravity, GyroRotationSince, Replaced;
  }

  lemma IncreasingAdd<G>(kfs: seq<Keyframe<G>>, kf: Keyframe<G>)
    requires Increasing(kfs) && (kfs == [] || kfs[|kfs| - 1].stamp < kf.stamp)
    ensures Increasing(kfs + [kf])
  {
  }

  lemma WhatIsUsed<G(!new)>(cfg: Config<G>, o: Observation<G>)
    ensures UsesGnss(cfg, o) ==> o.GnssObs?
    ensures UsesImage(cfg, o) ==> o.ImageObs?
    ensures UsesGyro(cfg, o) || UsesGravity(cfg, o) ==> o.ImuObs?
    ensures UsesGnss(cfg, o) <==> o.GnssObs? && cfg.useGnss && o.hasFix && cfg.gnssLabel(o.sensor)
    ensures UsesGyro(cfg, o) <==> o.ImuObs? && cfg.useGyro && o.rates.Some? && cfg.gyroLabel(o.sensor)
    ensures UsesGravity(cfg, o) <==> o.ImuObs? && cfg.useImu && o.acc.Some? && cfg.imuLabel(o.sensor)
    ensures UsesImage(cfg, o) <==> o.ImageObs? && cfg.useImage && cfg.imageLabel(o.picture.sensor)
  {
  }

  lemma ChainOfFields<G(!new)>(m: Motions<G>, a: Keyframe<G>, b: Keyframe<G>, cur: Keyframe<G>)
    requires b == a.(pose := b.pose)
    ensures ChainPose(m, b.pose, a, cur) == if b.frame == cur.frame then Plus(m, b.pose, Minus(m, cur.src, b.src))
        else b.pose
  {
  }

  lemma SnapshotLoops<G>(s: State<G>)
    ensures Snapshot(s).loops == s.loops.edges
  {
  }

  lemma MergeNone<G(!new)>(cfg: Config<G>, kfs: seq<Keyframe<G>>, x: Loops<G>)
    ensures MergeAll(cfg, kfs, x, []) == x
  {
  }

  lemma MergeOneMore<G(!new)>(cfg: Config<G>, kfs: seq<Keyframe<G>>, x: Loops<G>, es: seq<Edge<G>>, i: nat)
    requires i < |es|
    ensures MergeAll(cfg, kfs, x, es[..i + 1]) == MergeOne(cfg, kfs, MergeAll(cfg, kfs, x, es[..i]), es[i])
  {
    hide MergeOne;
    assert es[..i + 1][..i] == es[..i];
  }

  lemma NextPass<G(!new)>(
    cfg: Config<G>, par: ScanParams, tell: Tell, opt: GraphInput<G> -> GraphResult<G>,
    detect: (seq<Keyframe<G>>, Query) -> seq<Edge<G>>, y: Told<G>, rounds: nat)
    requires rounds > 0
    ensures
      var z := ScanNow(cfg, par, tell, opt, detect, y, true);
      FinalPasses(cfg, par, tell, opt, detect, y, rounds) ==
        if |z.x.c.s.loops.edges| == |y.x.c.s.loops.edges| then z
        else FinalPasses(cfg, par, tell, opt, detect, SolveNow(cfg, par, tell, opt, z), rounds - 1)
  {
    hide SolveNow, ScanNow;
  }

  lemma NoPasses<G(!new)>(
    cfg: Config<G>, par: ScanParams, tell: Tell, opt: GraphInput<G> -> GraphResult<G>,
    detect: (seq<Keyframe<G>>, Query) -> seq<Edge<G>>, y: Told<G>)
    ensures FinalPasses(cfg, par, tell, opt, detect, y, 0) == y
  {
  }

  lemma FedOnce(a: Announced, stamp: int)
    requires a.lastFed.None? || a.lastFed.value < stamp
    ensures Exact(a) ==> Exact(a.(lastFed := Some(stamp), fed := a.fed + [stamp]))
  {
    hide Sum, StrictlyIncreasing;
    if Exact(a) {
      FedStaysExact(a.fed, stamp);
    }
  }

  class Mapper<G(!new,==)> {
    const cfg: Config<G>
    const par: ScanParams
    const tell: Tell

    var keyframes: seq<Keyframe<G>>
    var pendingGnss: seq<Reading>
    var pendingImages: seq<Picture>
    var unwrittenImages: seq<(nat, string)>
    ghost var finishedImages: seq<(nat, string)>
    var imageWrites: seq<Picture>
    var imuSamples: seq<Acceleration>
    var gravityLabel: string
    var gravitySensorPose: G
    var pendingGravity: seq<nat>
    var gyroSamples: seq<GyroSample>
    var gyroLabel: string
    var gyroSensorPose: G
    var loops: seq<Edge<G>>
    var loopPairs: set<(nat, nat)>
    var rejectedLoopPairs: set<(nat, nat)>
    var geo: Geo
    var optimizerNewData: bool
    var finalized: bool
    var recorded: seq<LogEntry<G>>

    // Of scans and solves:
    var counters: Counters
    var rejectedByOdometry: nat
    var announced: Announced
    ghost var covered: nat
    ghost var queries: seq<Query>
    ghost var lastSnapshot: Option<GraphInput<G>>

    ghost function St(): State<G>
      reads this
    {
      State(keyframes, pendingGnss, Images(pendingImages, unwrittenImages, finishedImages, imageWrites),
            Imu(imuSamples, gravityLabel, gravitySensorPose, pendingGravity),
            Gyro(gyroSamples, gyroLabel, gyroSensorPose),
            Loops(loops, loopPairs, rejectedLoopPairs), geo, optimizerNewData, finalized, recorded)
    }

    /** The state with what scans and solves keep, when none is running. */
    ghost function Whole(): Told<G>
      reads this
    {
      Told(Scanning(Concurrent(St(), None, covered), counters, None, queries), lastSnapshot, announced)
    }

    ghost predicate Valid()
      reads this
    {
      IsGroup(cfg.m) && IsFlow(cfg.m) && Increasing(keyframes) && Ordered(gyroSamples)
    }

    constructor (cfg: Config<G>, par: ScanParams, tell: Tell)
      requires IsGroup(cfg.m) && IsFlow(cfg.m)
      ensures this.cfg == cfg && this.par == par && this.tell == tell
      ensures Valid() && St() == InitialState(cfg.m) && Whole() == NothingTold(cfg.m)
    {
      this.cfg, this.par, this.tell := cfg, par, tell;
      keyframes, pendingGnss, pendingImages, unwrittenImages, finishedImages, imageWrites := [], [], [], [], [], [];
      imuSamples, gravityLabel, gravitySensorPose, pendingGravity := [], "", cfg.m.one, [];
      gyroSamples, gyroLabel, gyroSensorPose := [], "", cfg.m.one;
      loops, loopPairs, rejectedLoopPairs, geo := [], {}, {}, Geo(None, None);
      optimizerNewData, finalized, recorded := false, false, [];
      counters, announced := Counters(0, 0, 0, 0), Announced(0, [], None, []);
      rejectedByOdometry, covered, queries, lastSnapshot := 0, 0, [], None;
    }

    // ----- Attaching to the nearest keyframe -----

    method AttachNearest(t: int, slot: string, o: Aux<G>, maxOffset: int) returns (c: Choice)
      requires Increasing(keyframes)
      modifies this`keyframes
      ensures c == Choose(old(keyframes), t, slot, maxOffset)
      ensures keyframes == AttachAt(old(keyframes), c, slot, o) && Increasing(keyframes)
    {
      hide LowerBound, NearestIndex;
      var n := |keyframes|;
      if n == 0 || keyframes[n - 1].stamp < t {
        return Pending;
      }
      NearestIsCandidate(keyframes, t);
      var it := LowerBound(keyframes, t);
      var best: Option<nat> := None;
      var bestDt := maxOffset;
      for k := 0 to 2
        invariant k == 0 ==> best == None && bestDt == maxOffset
        invariant k > 0 && best == None ==> bestDt == maxOffset && Offset(keyframes[it], t) > maxOffset
        invariant k > 0 && best.Some? ==>
            best.value < n && bestDt == Offset(keyframes[best.value], t) && bestDt <= maxOffset
        invariant k == 1 && best.Some? ==> best.value == it
        invariant k == 2 && best.Some? ==> best.value == NearestIndex(keyframes, t)
        invariant k == 2 && best.None? ==> Offset(keyframes[NearestIndex(keyframes, t)], t) > maxOffset
      {
        if k == 1 && it == 0 {
          continue;
        }
        var i := it - k;
        var dt := Offset(keyframes[i], t);
        if dt <= bestDt {
          best, bestDt := Some(i), dt;
        }
      }
      if best == None {
        return Dropped;
      }
      c := AttachTo(best.value, bestDt, t, slot, o, maxOffset);
    }

    /** The nearest keyframe is known; what it holds in the slot may still be nearer in time. */
    method AttachTo(i: nat, dt: nat, t: int, slot: string, o: Aux<G>, maxOffset: int) returns (c: Choice)
      requires Increasing(keyframes) && keyframes != [] && t <= keyframes[|keyframes| - 1].stamp
      requires i == NearestIndex(keyframes, t) && dt == Offset(keyframes[i], t) && dt <= maxOffset
      modifies this`keyframes
      ensures c == Choose(old(keyframes), t, slot, maxOffset)
      ensures keyframes == AttachAt(old(keyframes), c, slot, o) && Increasing(keyframes)
    {
      hide Replaced, NearestIndex;
      var kf := keyframes[i];
      var prev: Option<Aux<G>> := None;
      if slot in kf.nearest {
        if kf.nearest[slot].dt <= dt {
          return Dropped;
        }
        prev := Some(kf.nearest[slot].obs);
      }
      kf := kf.(aux := Replaced(kf.aux, prev, o), nearest := kf.nearest[slot := Nearest(o, dt)]);
      c := Attach(i, dt);
      AttachedIncreasing(keyframes, c, slot, o);
      keyframes := keyframes[i := kf];
    }

    method AttachGnss(r: Reading)
      requires Increasing(keyframes)
      modifies this`keyframes, this`pendingGnss, this`optimizerNewData
      ensures Increasing(keyframes)
      ensures GnssPart(keyframes, pendingGnss, optimizerNewData)
           == MapperSpec.AttachGnss(cfg.gnssMaxOffset, old(GnssPart(keyframes, pendingGnss, optimizerNewData)), r)
    {
      hide Choose, Attached, Increasing;
      var c := AttachNearest(r.stamp, GNSS, GnssAux(r), cfg.gnssMaxOffset);
      match c
      case Pending => pendingGnss := pendingGnss + [r];
      case Attach(_, _) => optimizerNewData := true;
      case Dropped =>
    }

    method RetryPendingGnss()
      requires Increasing(keyframes)
      modifies this`keyframes, this`pendingGnss, this`optimizerNewData
      ensures Increasing(keyframes)
      ensures St() == RetryGnss(cfg, old(St()))
    {
      hide AttachAllGnss, MapperSpec.AttachGnss, Increasing;
      var pending := pendingGnss;
      pendingGnss := [];
      assert pending[..0] == [] && AttachAllGnss(cfg.gnssMaxOffset, GnssPart(keyframes, [], optimizerNewData), [])
          == GnssPart(keyframes, [], optimizerNewData) by {
        NoGnss(cfg.gnssMaxOffset, GnssPart(keyframes, [], optimizerNewData));
      }
      ghost var x := GnssPart(keyframes, [], optimizerNewData);
      for i := 0 to |pending|
        invariant Increasing(keyframes)
        invariant GnssPart(keyframes, pendingGnss, optimizerNewData)
            == AttachAllGnss(cfg.gnssMaxOffset, x, pending[..i])
      {
        GnssOneMore(cfg.gnssMaxOffset, x, pending, i);
        AttachGnss(pending[i]);
      }
      assert pending[..|pending|] == pending;
    }

    // ----- Images -----

    ghost function Pictures(): ImagePart<G>
      reads this
    {
      ImagePart(keyframes, Images(pendingImages, unwrittenImages, finishedImages, imageWrites))
    }

    /** False if no keyframe has reached the image yet: the caller keeps it. */
    method AttachOrPendImage(p: Picture) returns (placed: bool)
      requires Increasing(keyframes)
      modifies this`keyframes, this`unwrittenImages
      ensures Increasing(keyframes)
      ensures
        var x := old(Pictures());
        AttachImage(cfg.imageMaxOffset, x, p) ==
          if placed then Pictures() else Pictures().(im := Pictures().im.(pending := pendingImages + [p]))
    {
      hide Choose, Attached, Increasing;
      var slot := ImageSlot(p.sensor);
      var c := AttachNearest(p.stamp, slot, PictureAux(p), cfg.imageMaxOffset);
      placed := true;
      match c
      case Pending => placed := false;
      case Attach(at, _) =>
        if (at, slot) !in unwrittenImages {
          unwrittenImages := unwrittenImages + [(at, slot)];
        }
      case Dropped =>
    }

    method RetryPendingImages()
      requires Increasing(keyframes)
      modifies this`keyframes, this`unwrittenImages, this`pendingImages
      ensures Increasing(keyframes)
      ensures St() == RetryImages(cfg, old(St()))
      ensures forall p :: p in pendingImages ==> p in old(pendingImages) && IsNewer(keyframes, p.stamp)
      ensures forall p :: p in old(pendingImages) && IsNewer(keyframes, p.stamp) ==>
        IsYoung(p, old(pendingImages), cfg.imageMaxOffset) ==> p in pendingImages
    {
      hide AttachAllImages, AttachImage, Increasing;
      ghost var before := St();
      var pending := pendingImages;
      pendingImages := [];
      ghost var x := Pictures();
      NoImages(cfg.imageMaxOffset, x);
      assert pending[..0] == [];
      for i := 0 to |pending|
        invariant Increasing(keyframes)
        invariant Pictures() == AttachAllImages(cfg.imageMaxOffset, x, pending[..i])
      {
        ImagesOneMore(cfg.imageMaxOffset, x, pending, i);
        var placed := AttachOrPendImage(pending[i]);
        if !placed {
          pendingImages := pendingImages + [pending[i]];
        }
      }
      assert pending[..|pending|] == pending;
      ghost var y := Pictures();
      while pendingImages != [] &&
            pendingImages[|pendingImages| - 1].stamp - pendingImages[0].stamp > cfg.imageMaxOffset
                + FRONT_END_LAG_MARGIN
        invariant Increasing(keyframes) && Pictures() == y.(im := y.im.(pending := pendingImages))
        invariant DropOldImages(pendingImages, cfg.imageMaxOffset) == DropOldImages(y.im.pending, cfg.imageMaxOffset)
        decreases |pendingImages|
      {
        pendingImages := pendingImages[1..];
      }
      assert St() == WithImages(before, Pictures());
      YoungStay(before);
    }

    ghost method YoungStay(before: State<G>)
      requires St() == RetryImages(cfg, before)
      ensures forall p :: p in pendingImages ==> p in before.images.pending && IsNewer(keyframes, p.stamp)
      ensures forall p :: p in before.images.pending && IsNewer(keyframes, p.stamp) ==>
        IsYoung(p, before.images.pending, cfg.imageMaxOffset) ==> p in pendingImages
    {
      hide RetryImagePart;
      ImageAttachment.RetryPends(cfg.imageMaxOffset, ImagePart(before.kfs, before.images));
      ImageAttachment.RetryKeepsYoung(cfg.imageMaxOffset, ImagePart(before.kfs, before.images));
    }

    /** The entries that can change no more leave the list of unwritten ones. An entry without a
        picture to write does not occur (ImageWriteOut.ImagesAccounted). */
    method FinishImages(newest: Option<(string, int)>)
      requires Increasing(keyframes)
      modifies this`keyframes, this`unwrittenImages, this`finishedImages, this`imageWrites
      ensures Increasing(keyframes)
      ensures St() == MapperSpec.FinishImages(cfg, old(St()), newest)
    {
      ghost var before := St();
      hide FinishEach, FinishOne, MayBeReplaced, Increasing;
      ghost var es := unwrittenImages;
      ghost var x := Pictures().(im := Pictures().im.(unwritten := []));
      ghost var k := 0;
      var i := 0;
      NoFinish(cfg.imageDir, x, newest);
      assert es[..0] == [] && unwrittenImages[..0] == [];
      while i < |unwrittenImages|
        invariant k <= |es| && i <= |unwrittenImages| && Increasing(keyframes)
        invariant unwrittenImages[i..] == es[k..]
        invariant Pictures().(im := Pictures().im.(unwritten := unwrittenImages[..i]))
            == FinishEach(cfg.imageDir, x, es[..k], newest)
        decreases |es| - k
      {
        var e := unwrittenImages[i];
        FinishOneMore(cfg.imageDir, x, es, k, newest);
        assert e == unwrittenImages[i..][0] && es[k] == es[k..][0];
        assert unwrittenImages[i + 1..] == es[k + 1..];
        k := k + 1;
        if !HoldsPicture(keyframes, e) || MayBeReplaced(keyframes, e, newest) {
          assert unwrittenImages[..i + 1] == unwrittenImages[..i] + [e];
          i := i + 1;
          continue;
        }
        FinishOneOtherList(cfg.imageDir, Pictures(), e, unwrittenImages[..i]);
        FinishImage(e);
        unwrittenImages := unwrittenImages[..i] + unwrittenImages[i + 1..];
      }
      assert es[..k] == es && unwrittenImages[..i] == unwrittenImages;
      assert St() == WithImages(before, Pictures());
    }

    /** One image that is final: written to a file, unless it needs none. */
    method FinishImage(e: (nat, string))
      requires Increasing(keyframes) && HoldsPicture(keyframes, e)
      modifies this`keyframes, this`finishedImages, this`imageWrites
      ensures Increasing(keyframes)
      ensures Pictures() == FinishOne(cfg.imageDir, old(Pictures()), e)
      ensures e.1 in keyframes[e.0].nearest
      ensures
        var was, n := old(keyframes[e.0].nearest[e.1]), keyframes[e.0].nearest[e.1];
        && n.dt == was.dt && n.obs.picture == was.obs.picture
        && (n.obs.FileAux? <==> cfg.imageDir && was.obs.picture.inMemory)
        && imageWrites == old(imageWrites) + if n.obs.FileAux? then [n.obs.picture] else []
      ensures old(AllStoredOnce(keyframes)) ==> AllStoredOnce(keyframes)
    {
      if AllStoredOnce(keyframes) {
        FinishOneStored(cfg.imageDir, Pictures(), e);
      }
      hide AllStoredOnce;
      var kf := keyframes[e.0];
      var n := kf.nearest[e.1];
      var img := n.obs.picture;
      if cfg.imageDir && img.inMemory {
        var ext := FileAux(img);
        kf := kf.(aux := Replaced(kf.aux, Some(n.obs), ext), nearest := kf.nearest[e.1 := Nearest(ext, n.dt)]);
        keyframes := keyframes[e.0 := kf];
        imageWrites := imageWrites + [img];
      }
      finishedImages := finishedImages + [e];
    }

    // ----- IMU -----

    ghost function ImuState(): Imu<G>
      reads this
    {
      Imu(imuSamples, gravityLabel, gravitySensorPose, pendingGravity)
    }

    ghost function GyroState(): Gyro<G>
      reads this
    {
      Gyro(gyroSamples, gyroLabel, gyroSensorPose)
    }

    method AddGyroSample(t: int, sensor: string, pose: G, w: Vec)
      requires Ordered(gyroSamples)
      modifies this`gyroSamples, this`gyroLabel, this`gyroSensorPose
      ensures Ordered(gyroSamples)
      ensures GyroState() == MapperSpec.AddGyroSample(old(GyroState()), t, sensor, pose, w)
      ensures gyroLabel == if old(gyroLabel) == "" then sensor else old(gyroLabel)
      ensures
        var was := old(gyroSamples);
        if sensor != gyroLabel || (was != [] && t <= was[|was| - 1].stamp)
        then gyroSamples == was && gyroSensorPose == old(gyroSensorPose)
        else ForgetsOld(gyroSamples, was + [GyroSample(t, w)], t - GYRO_KEEP) && gyroSensorPose == pose
    {
      hide ForgetsOld, DropOldRates;
      if gyroLabel == "" {
        gyroLabel := sensor;
      }
      if sensor != gyroLabel || (gyroSamples != [] && gyroSamples[|gyroSamples| - 1].stamp >= t) {
        return;
      }
      gyroSamples := gyroSamples + [GyroSample(t, w)];
      gyroSensorPose := pose;
      ghost var all, sensorName := gyroSamples, gyroLabel;
      ForgetsAfter(all, t);
      while t - gyroSamples[0].stamp > GYRO_KEEP
        invariant Ordered(gyroSamples) && gyroLabel == sensorName && gyroSensorPose == pose
        invariant gyroSamples != [] && gyroSamples[|gyroSamples| - 1].stamp == t
        invariant DropOldRates(gyroSamples, t, GYRO_KEEP) == DropOldRates(all, t, GYRO_KEEP)
        decreases |gyroSamples|
      {
        DropOldRatesNext(gyroSamples, t);
        gyroSamples := gyroSamples[1..];
      }
      DropOldRatesNext(gyroSamples, t);
    }

    /** The keyframe with the averaged accelerometer, if there are enough readings. */
    method AttachGravity(kf: Keyframe<G>) returns (out: Keyframe<G>, attached: bool)
      ensures out == WithGravity(RuleOf(cfg), ImuState(), kf)
      ensures attached == EnoughGravity(RuleOf(cfg), ImuState(), kf.stamp)
    {
      if gravityLabel == "" {
        return kf, false;
      }
      var tally := Tally(Vec(0.0, 0.0, 0.0), 0);
      for i := 0 to |imuSamples|
        invariant tally == TallyOf(imuSamples[..i], kf.stamp, cfg.gravityWindow)
      {
        TallyOneMore(imuSamples, i, kf.stamp, cfg.gravityWindow);
        var dt := kf.stamp - imuSamples[i].stamp;
        if 0 <= dt && dt <= cfg.gravityWindow {
          tally := Tally(AddVec(tally.sum, imuSamples[i].acc), tally.n + 1);
        }
      }
      assert imuSamples[..|imuSamples|] == imuSamples;
      if tally.n < cfg.gravityMinSamples {
        return kf, false;
      }
      var obs := Gravity(gravityLabel, gravitySensorPose, kf.stamp, tally);
      out := kf.(aux := Replaced(kf.aux, None, GravityAux(obs)));
      attached := true;
    }

    method AddGravitySample(t: int, sensor: string, pose: G, acc: Vec)
      requires Increasing(keyframes)
      modifies this`keyframes, this`imuSamples, this`gravityLabel, this`gravitySensorPose, this`pendingGravity
      ensures Increasing(keyframes)
      ensures ImuPart(keyframes, ImuState())
           == MapperSpec.AddGravitySample(RuleOf(cfg), old(ImuPart(keyframes, ImuState())), t, sensor, pose, acc)
      ensures gravityLabel == if old(gravityLabel) == "" then sensor else old(gravityLabel)
      ensures
        if sensor != gravityLabel
        then imuSamples == old(imuSamples) && gravitySensorPose == old(gravitySensorPose) && keyframes == old(keyframes)
        else
          && gravitySensorPose == pose
          && GravityAttachment.ForgetsOld(imuSamples, old(imuSamples) + [Acceleration(t, acc)],
                                          t - (cfg.gravityWindow + GRAVITY_KEEP))
    {
      hide WithGravity;
      if gravityLabel == "" {
        gravityLabel := sensor;
      }
      if sensor != gravityLabel {
        return;
      }
      imuSamples := imuSamples + [Acceleration(t, acc)];
      gravitySensorPose := pose;
      ResolvePendingGravity(t);
      DropOldImuSamples(t);
    }

    method ResolvePendingGravity(t: int)
      requires Increasing(keyframes)
      modifies this`keyframes, this`pendingGravity
      ensures Increasing(keyframes)
      ensures ImuPart(keyframes, ImuState()) == ResolveGravity(RuleOf(cfg), old(ImuPart(keyframes, ImuState())), t)
      ensures ImuState() == old(ImuState()).(pending := pendingGravity)
    {
      ghost var x := ImuPart(keyframes, ImuState());
      while pendingGravity != [] && pendingGravity[0] < |keyframes| && keyframes[pendingGravity[0]].stamp < t
        invariant Increasing(keyframes)
        invariant ImuState() == x.imu.(pending := pendingGravity)
        invariant ResolveGravity(RuleOf(cfg), ImuPart(keyframes, ImuState()), t) == ResolveGravity(RuleOf(cfg), x, t)
        decreases |pendingGravity|
      {
        hide WithGravity, ResolveGravity;
        ResolveNext(RuleOf(cfg), ImuPart(keyframes, ImuState()), t);
        var k := pendingGravity[0];
        var kf, _ := AttachGravity(keyframes[k]);
        SameStamp(RuleOf(cfg), ImuState(), keyframes[k]);
        keyframes := keyframes[k := kf];
        pendingGravity := pendingGravity[1..];
      }
    }

    /** Readings past the window and a margin are forgotten. */
    method DropOldImuSamples(t: int)
      modifies this`imuSamples
      ensures imuSamples == DropOldAccelerations(old(imuSamples), t, cfg.gravityWindow + GRAVITY_KEEP)
      ensures GravityAttachment.ForgetsOld(imuSamples, old(imuSamples), t - (cfg.gravityWindow + GRAVITY_KEEP))
    {
      ghost var all := imuSamples;
      ghost var n := GravityAttachment.DropKeeps(all, t, cfg.gravityWindow + GRAVITY_KEEP);
      while imuSamples != [] && t - imuSamples[0].stamp > cfg.gravityWindow + GRAVITY_KEEP
        invariant DropOldAccelerations(imuSamples, t, cfg.gravityWindow + GRAVITY_KEEP)
               == DropOldAccelerations(all, t, cfg.gravityWindow + GRAVITY_KEEP)
        decreases |imuSamples|
      {
        imuSamples := imuSamples[1..];
      }
    }

    // ----- Keyframes -----

    /** The keyframe with its turn from the last keyframe of the list, if the readings cover it. */
    method AttachGyroRotation(kf: Keyframe<G>, b: GyroBias) returns (out: Keyframe<G>)
      requires Valid() && kf.gyro == None
      ensures
        var turn := if keyframes == [] then None
                    else GyroRotationSince(cfg, GyroState(), keyframes[|keyframes| - 1].stamp, kf.stamp, b);
        out == kf.(gyro := turn)
      ensures keyframes != [] ==>
                IsTurn(cfg, gyroSamples, cfg.m.rot(gyroSensorPose), keyframes[|keyframes| - 1].stamp, kf.stamp, b,
                    out.gyro)
    {
      if keyframes != [] {
        var t0 := keyframes[|keyframes| - 1].stamp;
        SameSince(cfg, GyroState(), t0, kf.stamp, b);
        RotationIsTurn(cfg, gyroSamples, gyroSensorPose, t0, kf.stamp, b);
      }
      hide IsTurn, RotationOver;
      out := kf;
      if !cfg.useGyro || keyframes == [] {
        return;
      }
      var g := IntegrateGyro(cfg.m, gyroSamples, keyframes[|keyframes| - 1].stamp, kf.stamp, b.bias, cfg.gyroMaxGap);
      if g == None {
        return;
      }
      var rvs := cfg.m.rot(gyroSensorPose);
      var r := cfg.m.mul(cfg.m.mul(rvs, g.value.R), cfg.m.inv(rvs));
      out := kf.(gyro := Some(GyroRotation(r, g.value.duration, g.value.angle, b.sigma)));
    }

    /** The new keyframe, complete but for the pending readings. */
    method MakeKeyframe(req: Request<G>, bias: GyroBias) returns (kf: Keyframe<G>, gravityAttached: bool)
      requires Valid()
      ensures kf == NewKeyframe(cfg, St(), req, bias)
      ensures kf.stamp == req.stamp && kf.frame == req.frame && kf.src == req.src && kf.scan == req.scan
      ensures keyframes == [] ==> kf.pose == req.src && kf.gyro == None
      ensures keyframes != [] ==>
        var prev := keyframes[|keyframes| - 1];
        kf.pose ==
          if prev.frame == req.frame then cfg.m.mul(prev.pose, Minus(cfg.m, req.src, prev.src)) else prev.pose
      ensures keyframes != [] ==>
        IsTurn(cfg, gyroSamples, cfg.m.rot(gyroSensorPose), keyframes[|keyframes| - 1].stamp, req.stamp,
               if bias.fromSource then bias else GyroBias(Vec(0.0, 0.0, 0.0), cfg.gyroBiasSigma, false), kf.gyro)
      ensures gravityAttached == EnoughGravity(RuleOf(cfg), ImuState(), req.stamp)
    {
      hide EnoughGravity, GyroRotationSince, Replaced, IsTurn;
      kf := Keyframe(req.stamp, req.frame, req.src, req.scan, [], map[], req.src, None);
      if keyframes != [] {
        var prev := keyframes[|keyframes| - 1];
        if prev.frame == kf.frame {
          kf := kf.(pose := Plus(cfg.m, prev.pose, Minus(cfg.m, kf.src, prev.src)));
        } else {
          kf := kf.(pose := prev.pose);
        }
      }
      kf, gravityAttached := AttachGravity(kf);
      kf := AttachGyroRotation(kf, if bias.fromSource then bias
          else GyroBias(Vec(0.0, 0.0, 0.0), cfg.gyroBiasSigma, false));
    }

    /** The new keyframe in place, waiting for gravity if the IMU is behind. */
    method PushKeyframe(req: Request<G>, bias: GyroBias)
      requires Valid() && (keyframes == [] || keyframes[|keyframes| - 1].stamp < req.stamp)
      modifies this`keyframes, this`pendingGravity
      ensures Valid() && St() == Appended(cfg, old(St()), req, bias)
      ensures
        var behind := cfg.useImu && (imuSamples == [] || imuSamples[|imuSamples| - 1].stamp < req.stamp);
        var complete := old(EnoughGravity(RuleOf(cfg), ImuState(), req.stamp));
        pendingGravity == old(pendingGravity) + if behind && !complete then [|old(keyframes)|] else []
    {
      hide NewKeyframe, EnoughGravity, IsTurn, Increasing, Ordered;
      // Its window may still be filling; AddGravitySample comes back to it then.
      var imuBehind := cfg.useImu && (imuSamples == [] || imuSamples[|imuSamples| - 1].stamp < req.stamp);
      var kf, gravityAttached := MakeKeyframe(req, bias);
      NewStamp(cfg, St(), req, bias);
      IncreasingAdd(keyframes, kf);
      keyframes := keyframes + [kf];
      if !gravityAttached && imuBehind {
        pendingGravity := pendingGravity + [|keyframes| - 1];
      }
    }

    method AcceptKeyframe(req: Request<G>, bias: GyroBias)
      requires Valid() && (keyframes == [] || keyframes[|keyframes| - 1].stamp < req.stamp)
      modifies this`keyframes, this`pendingGravity, this`pendingGnss, this`pendingImages, this`unwrittenImages,
               this`optimizerNewData
      ensures Valid()
      ensures St() == RetryImages(cfg, RetryGnss(cfg, Appended(cfg, old(St()), req, bias))).(newData := true)
    {
      hide Appended, RetryGnss, RetryImages, Increasing, Ordered;
      ghost var s := St();
      PushKeyframe(req, bias);
      ghost var s1 := St();
      RetryPendingGnss();
      ghost var s2 := St();
      RetryPendingImages();
      ghost var s3 := St();
      assert s3 == RetryImages(cfg, s2);
      optimizerNewData := true;
    }

    ghost method InsertedAtEnd(s: State<G>, req: Request<G>, bias: GyroBias)
      requires St() == RetryImages(cfg, RetryGnss(cfg, Appended(cfg, s, req, bias))).(newData := true)
      ensures
        var n := |s.kfs|;
        && |keyframes| == n + 1
        && keyframes[n].stamp == req.stamp && keyframes[n].frame == req.frame && keyframes[n].src == req.src
        && forall i :: 0 <= i < n ==> keyframes[i].stamp == s.kfs[i].stamp
    {
      hide NewKeyframe, RetryGnss, RetryImages;
      var t := Appended(cfg, s, req, bias);
      AddedPose(cfg, s, req, bias);
      NewKeyframeGnss(cfg, s, req, bias);
      RetryOver(cfg, t, Poses(t.kfs), t.geo);
      RetryKeepsStamps(cfg, t);
    }

    method InsertKeyframe(req: Request<G>, bias: GyroBias) returns (id: Option<nat>)
      requires Valid()
      modifies this`keyframes, this`pendingGravity, this`pendingGnss, this`pendingImages, this`unwrittenImages,
               this`optimizerNewData, this`recorded
      ensures Valid() && St() == Insert(cfg, old(St()), req, bias)
      ensures id.Some? <==>
        !old(finalized) && (old(keyframes) == [] || old(keyframes[|keyframes| - 1].stamp) < req.stamp)
      ensures id.None? ==> keyframes == old(keyframes)
      ensures recorded == old(recorded) + if cfg.recording && !old(finalized) then [KeyframeEntry(req, bias)] else []
      ensures id.Some? ==>
        var n := |old(keyframes)|;
        && id.value == n && |keyframes| == n + 1
        && keyframes[n].stamp == req.stamp && keyframes[n].frame == req.frame && keyframes[n].src == req.src
        && forall i :: 0 <= i < n ==> keyframes[i].stamp == old(keyframes)[i].stamp
    {
      hide Appended, RetryGnss, RetryImages, Increasing, Ordered;
      if finalized {
        return None;
      }
      if cfg.recording {
        recorded := recorded + [KeyframeEntry(req, bias)];
      }
      if keyframes != [] && req.stamp <= keyframes[|keyframes| - 1].stamp {
        return None;
      }
      id := Some(|keyframes|);
      ghost var s := St();
      AcceptKeyframe(req, bias);
      InsertedAtEnd(s, req, bias);
    }

    // ----- Observations -----

    method AddNewImage(p: Picture)
      requires Valid()
      modifies this`keyframes, this`pendingImages, this`unwrittenImages, this`finishedImages, this`imageWrites
      ensures Valid() && St() == AddImage(cfg, old(St()), p)
    {
      hide RetryImagePart, FinishPart, Increasing;
      pendingImages := pendingImages + [p];
      RetryPendingImages();
      FinishImages(Some((p.sensor, p.stamp)));
    }

    method AddNewImu(o: Observation<G>)
      requires Valid() && o.ImuObs?
      modifies this`keyframes, this`imuSamples, this`gravityLabel, this`gravitySensorPose, this`pendingGravity,
               this`gyroSamples, this`gyroLabel, this`gyroSensorPose
      ensures Valid() && St() == AddImu(cfg, old(St()), o)
    {
      WhatIsUsed(cfg, o);
      hide MapperSpec.AddGravitySample, MapperSpec.AddGyroSample, Increasing, Ordered, ForgetsOld,
          GravityAttachment.ForgetsOld, UsesGyro, UsesGravity;
      ghost var s := St();
      if UsesGyro(cfg, o) {
        AddGyroSample(o.stamp, o.sensor, o.sensorPose, o.rates.value);
      }
      ghost var s1 := St();
      assert s1 == s.(gyro := s1.gyro);
      if UsesGravity(cfg, o) {
        AddGravitySample(o.stamp, o.sensor, o.sensorPose, o.acc.value);
      }
      assert St() == AddImu(cfg, s, o);
    }

    method AddNewGnss(r: Reading)
      requires Valid()
      modifies this`keyframes, this`pendingGnss, this`optimizerNewData
      ensures Valid() && St() == AddGnss(cfg, old(St()), r)
    {
      hide MapperSpec.AttachGnss, Increasing;
      AttachGnss(r);
    }

    method OnNewObservation(o: Observation<G>)
      requires Valid()
      modifies this`keyframes, this`pendingGnss, this`optimizerNewData, this`recorded,
               this`pendingImages, this`unwrittenImages, this`finishedImages, this`imageWrites,
               this`imuSamples, this`gravityLabel, this`gravitySensorPose, this`pendingGravity,
               this`gyroSamples, this`gyroLabel, this`gyroSensorPose
      ensures Valid() && St() == Observe(cfg, old(St()), o)
      ensures
        var gnss := o.GnssObs? && cfg.useGnss && o.hasFix && cfg.gnssLabel(o.sensor);
        var gyro := o.ImuObs? && cfg.useGyro && o.rates.Some? && cfg.gyroLabel(o.sensor);
        var gravity := o.ImuObs? && cfg.useImu && o.acc.Some? && cfg.imuLabel(o.sensor);
        var image := o.ImageObs? && cfg.useImage && cfg.imageLabel(o.picture.sensor);
        && (old(finalized) || !(gnss || gyro || gravity || image) ==> St() == old(St()))
        && (recorded == old(recorded) +
              if cfg.recording && !old(finalized) && (gnss || gyro || gravity) then [ObservationEntry(o)] else [])
    {
      hide AddGnss, AddImu, AddImage, UsesGnss, UsesGyro, UsesGravity, UsesImage, Increasing, Ordered;
      WhatIsUsed(cfg, o);
      var isGnss, isImage := UsesGnss(cfg, o), UsesImage(cfg, o);
      var isGyro, isGravity := UsesGyro(cfg, o), UsesGravity(cfg, o);
      if !isGnss && !isGyro && !isGravity && !isImage {
        return;
      }
      if finalized {
        return;
      }
      if isImage {
        AddNewImage(o.picture);
        return;
      }
      if cfg.recording {
        recorded := recorded + [ObservationEntry(o)];
      }
      if isGnss {
        AddNewGnss(o.reading);
      } else {
        AddNewImu(o);
      }
    }

    // ----- Solves -----

    /** What the graph sees of the observations of a keyframe. */
    method CopyWithoutImages(aux: seq<Aux<G>>) returns (out: seq<Aux<G>>)
      ensures out == NotPicture(aux)
    {
      out := [];
      for i := 0 to |aux|
        invariant out == NotPicture(aux[..i])
      {
        assert aux[..i + 1][..i] == aux[..i];
        if !aux[i].PictureAux? && !aux[i].FileAux? {
          out := out + [aux[i]];
        }
      }
      assert aux[..|aux|] == aux;
    }

    method GraphInputLocked() returns (g: GraphInput<G>)
      ensures g == Snapshot(St())
      ensures |g.kfs| == |keyframes| && g.loops == loops
      ensures forall i :: 0 <= i < |keyframes| ==>
        && g.kfs[i].guess == keyframes[i].pose && g.kfs[i].src == keyframes[i].src
        && g.kfs[i].frame == keyframes[i].frame && g.kfs[i].stamp == keyframes[i].stamp
        && g.kfs[i].gyro == keyframes[i].gyro && g.kfs[i].aux == NotPicture(keyframes[i].aux)
    {
      var kfs: seq<GraphKeyframe<G>> := [];
      for i := 0 to |keyframes|
        invariant |kfs| == i && forall k :: 0 <= k < i ==> kfs[k] == GraphKeyframeOf(keyframes[k])
      {
        var kf := keyframes[i];
        var aux := CopyWithoutImages(kf.aux);
        kfs := kfs + [GraphKeyframe(kf.stamp, kf.frame, kf.src, kf.pose, aux, kf.gyro)];
      }
      g := GraphInput(kfs, loops, geo);
    }

    /** The solved poses, and the keyframes inserted meanwhile re-chained onto them. */
    method CommitPoses(poses: seq<G>)
      requires 1 <= |poses| <= |keyframes|
      modifies this`keyframes
      ensures keyframes == WithPoses(old(keyframes), CommittedPoses(cfg.m, old(keyframes), poses))
      ensures forall i :: 0 <= i < |poses| ==> keyframes[i].pose == poses[i]
      ensures forall i :: |poses| <= i < |keyframes| ==>
        keyframes[i].pose ==
          if keyframes[i].frame == keyframes[i - 1].frame
          then cfg.m.mul(keyframes[i - 1].pose, Minus(cfg.m, keyframes[i].src, keyframes[i - 1].src))
          else keyframes[i - 1].pose
    {
      hide CommittedPoses, ChainPose;
      ghost var was := keyframes;
      ghost var ps := CommittedPoses(cfg.m, was, poses);
      var n := |poses|;
      var i := 0;
      while i < n
        invariant 0 <= i <= n && |keyframes| == |was|
        invariant forall k :: 0 <= k < i ==> keyframes[k] == was[k].(pose := ps[k])
        invariant forall k :: i <= k < |was| ==> keyframes[k] == was[k]
      {
        CommittedPosesChain(cfg.m, was, poses, i);
        keyframes := keyframes[i := keyframes[i].(pose := poses[i])];
        i := i + 1;
      }
      while i < |keyframes|
        invariant n <= i <= |keyframes| == |was|
        invariant forall k :: 0 <= k < i ==> keyframes[k] == was[k].(pose := ps[k])
        invariant forall k :: i <= k < |was| ==> keyframes[k] == was[k]
      {
        CommittedPosesChain(cfg.m, was, poses, i);
        var prev, kf := keyframes[i - 1], keyframes[i];
        ChainOfFields(cfg.m, was[i - 1], prev, kf);
        if prev.frame == kf.frame {
          keyframes := keyframes[i := kf.(pose := Plus(cfg.m, prev.pose, Minus(cfg.m, kf.src, prev.src)))];
        } else {
          keyframes := keyframes[i := kf.(pose := prev.pose)];
        }
        i := i + 1;
      }
      PosesCommitted(was, poses);
    }

    ghost method PosesCommitted(was: seq<Keyframe<G>>, poses: seq<G>)
      requires 1 <= |poses| <= |was|
      requires keyframes == WithPoses(was, CommittedPoses(cfg.m, was, poses))
      ensures forall i :: 0 <= i < |poses| ==> keyframes[i].pose == poses[i]
      ensures forall i :: |poses| <= i < |keyframes| ==>
        keyframes[i].pose ==
          if keyframes[i].frame == keyframes[i - 1].frame
          then cfg.m.mul(keyframes[i - 1].pose, Minus(cfg.m, keyframes[i].src, keyframes[i - 1].src))
          else keyframes[i - 1].pose
    {
      hide CommittedPoses;
      var ps := CommittedPoses(cfg.m, was, poses);
      forall i | 0 <= i < |poses| ensures keyframes[i].pose == poses[i] {
        CommittedPosesChain(cfg.m, was, poses, i);
        assert keyframes[i].pose == ps[i];
      }
      forall i | |poses| <= i < |was| ensures ps[i] == ChainPose(cfg.m, ps[i - 1], was[i - 1], was[i]) {
        CommittedPosesChain(cfg.m, was, poses, i);
      }
    }

    method CommitSolve(r: GraphResult<G>)
      requires Valid() && 1 <= |r.poses| <= |keyframes|
      modifies this`keyframes, this`geo
      ensures Valid() && St() == Commit(cfg.m, old(St()), r)
      ensures forall i :: 0 <= i < |r.poses| ==> keyframes[i].pose == r.poses[i]
      ensures geo == Geo(if r.geo.datum.Some? then r.geo.datum else old(geo).datum,
                         if r.geo.georef.Some? then r.geo.georef else old(geo).georef)
    {
      hide CommittedPoses, Ordered;
      CommitPoses(r.poses);
      if r.geo.datum.Some? {
        geo := geo.(datum := r.geo.datum);
      }
      if r.geo.georef.Some? {
        geo := geo.(georef := r.geo.georef);
      }
    }

    method SendFeedback(stamp: int)
      modifies this`announced
      ensures announced ==
        var a := old(announced);
        if tell.feedback && (a.lastFed.None? || a.lastFed.value < stamp)
        then a.(lastFed := Some(stamp), fed := a.fed + [stamp]) else a
      ensures old(Exact(announced)) ==> Exact(announced)
      ensures tell.feedback ==> announced.lastFed.Some? && stamp <= announced.lastFed.value
    {
      if announced.lastFed.None? || announced.lastFed.value < stamp {
        FedOnce(announced, stamp);
      }
      hide Exact;
      if !tell.feedback {
        return;
      }
      if announced.lastFed.Some? && announced.lastFed.value >= stamp {
        return;
      }
      announced := announced.(fed := announced.fed + [stamp], lastFed := Some(stamp));
    }

    method TellFrontEnds(newest: int, loopCount: nat)
      modifies this`announced
      ensures announced == Announce(tell, old(announced), newest, loopCount)
    {
      SendFeedback(newest);
      if tell.corrections && loopCount > announced.corrected {
        announced := announced.(announced := announced.announced + [loopCount - announced.corrected],
            corrected := loopCount);
      }
    }

    method SolveAndCommit(opt: GraphInput<G> -> GraphResult<G>) returns (g: GraphInput<G>, newest: int)
      requires Valid() && IsOptimizer(opt) && keyframes != []
      modifies this`keyframes, this`geo
      ensures Valid() && g == Snapshot(old(St())) && St() == Commit(cfg.m, old(St()), opt(g))
      ensures newest == old(keyframes)[|old(keyframes)| - 1].stamp
    {
      hide Snapshot, Commit, Ordered;
      g := GraphInputLocked();
      SnapshotSize(St());
      newest := keyframes[|g.kfs| - 1].stamp;
      var r := opt(g);
      CommitSolve(r);
    }

    method SolveGlobalGraph(opt: GraphInput<G> -> GraphResult<G>)
      requires Valid() && IsOptimizer(opt)
      modifies this`keyframes, this`geo, this`announced, this`covered, this`lastSnapshot
      ensures Valid() && Whole() == SolveNow(cfg, par, tell, opt, old(Whole()))
    {
      hide Snapshot, Commit, SolveNow, Announce, Increasing, Ordered, IsOptimizer;
      ghost var y := Whole();
      SolveNowIs(cfg, par, tell, opt, y);
      if keyframes == [] {
        return;
      }
      ghost var s := St();
      SnapshotLoops(s);
      SnapshotSize(s);
      var g, newest := SolveAndCommit(opt);
      covered, lastSnapshot := |g.kfs|, Some(g);
      TellFrontEnds(newest, |g.loops|);
      assert St() == Commit(cfg.m, s, opt(g));
    }

    // ----- Scans -----

    method BeginScanLocked(force: bool) returns (q: Option<Query>)
      modifies this`counters
      ensures (counters, q) == BeginScan(par, St(), old(counters), force)
      ensures q.Some? <==> 2 <= |keyframes| && (force || old(counters).kfCount + par.minNew <= |keyframes|)
      ensures q.Some? && (force || !par.incremental) ==> forall i: nat, j: nat ::
        Offers(q.value, (i, j)) <==> i < j < |keyframes| && (i, j) !in loopPairs && (i, j) !in rejectedLoopPairs
      ensures par.fullEveryN > 0 && old(counters).incrementalScans <= par.fullEveryN ==>
                counters.incrementalScans <= par.fullEveryN
      // If the detector answers, no pair of the snapshot has been missed:
      ensures
        NoneMissed(queries, Excluded(LoopState()), counters.snapshotSize) && counters.snapshotSize <= |keyframes|
            && q.Some? ==>
          NoneMissed(queries + [q.value], Excluded(LoopState()), |keyframes|)
    {
      hide NoneMissed;
      ForcedScanRuns(par, St(), counters, force);
      var fullScan := force || !par.incremental;
      if par.fullEveryN > 0 && counters.incrementalScans >= par.fullEveryN {
        fullScan := true;
      }
      var n := |keyframes|;
      if !force && n < counters.kfCount + par.minNew {
        return None;
      }
      counters := counters.(kfCount := n);
      var excluded := loopPairs + rejectedLoopPairs;
      if n < 2 {
        return None;
      }
      var firstNew: Option<nat> := None;
      if fullScan {
        counters := counters.(incrementalScans := 0);
      } else {
        firstNew := Some(counters.snapshotSize);
        counters := counters.(incrementalScans := counters.incrementalScans + 1);
      }
      q := Some(Query(n, firstNew, excluded));
      if NoneMissed(queries, Excluded(LoopState()), counters.snapshotSize) && counters.snapshotSize <= n {
        NoneMissedAfter(queries, Excluded(LoopState()), counters.snapshotSize, q.value, Excluded(LoopState()));
      }
    }

    /** Poses of different source frames are not compared: then there is no verdict. */
    method CheckAgainstOdometry(first: nat, last: nat, e: Edge<G>) returns (c: Option<Check>)
      requires InRange(|keyframes|, e) && (first, last) == PairOf(e)
      ensures c == AgainstOdometry(cfg, keyframes, e)
      ensures c.Some? <==> forall i :: first < i <= last ==> keyframes[i].frame == keyframes[i - 1].frame
      ensures c.Some? ==> c.value == CheckLoop(cfg.m, Sources(keyframes), e.from, e.to, e.rel, cfg.limits)
    {
      hide CheckLoop;
      var chain: seq<G> := [];
      var i := first;
      while i <= last
        invariant first <= i <= last + 1
        invariant chain == Sources(keyframes)[first..i]
        invariant forall k :: first < k < i ==> keyframes[k].frame == keyframes[k - 1].frame
      {
        if i > first && keyframes[i].frame != keyframes[i - 1].frame {
          return None;
        }
        chain := chain + [keyframes[i].src];
        i := i + 1;
      }
      CutOutWindow(cfg.m, Sources(keyframes), first, last + 1, e.from, e.to, e.rel, cfg.limits);
      var out := CheckLoopAgainstOdometry(cfg.m, chain, e.from - first, e.to - first, e.rel, cfg.limits);
      c := Some(out);
    }

    ghost function LoopState(): Loops<G>
      reads this
    {
      Loops(loops, loopPairs, rejectedLoopPairs)
    }

    method MergeEdge(e: Edge<G>) returns (merged: nat, rejected: nat)
      modifies this`loops, this`loopPairs, this`rejectedLoopPairs
      ensures LoopState() == MergeOne(cfg, keyframes, old(LoopState()), e)
      ensures |loops| == |old(loops)| + merged
      ensures |rejectedLoopPairs| == |old(rejectedLoopPairs)| + rejected
    {
      hide AgainstOdometry, CheckLoop;
      merged, rejected := 0, 0;
      if e.from == e.to || e.from >= |keyframes| || e.to >= |keyframes| {
        return;
      }
      var key := (Min(e.from, e.to), Max(e.from, e.to));
      if key in loopPairs {
        return;
      }
      if cfg.odometryCheck {
        var c := CheckAgainstOdometry(key.0, key.1, e);
        if c.Some? && !c.value.accepted {
          if key !in rejectedLoopPairs {
            rejectedLoopPairs := rejectedLoopPairs + {key};
            rejected := 1;
          }
          return;
        }
      }
      loopPairs := loopPairs + {key};
      loops := loops + [e];
      merged := 1;
    }

    method MergeEdges(edges: seq<Edge<G>>) returns (merged: nat, rejected: nat)
      modifies this`loops, this`loopPairs, this`rejectedLoopPairs, this`optimizerNewData
      ensures St() == Merge(cfg, old(St()), edges)
      ensures |loops| == |old(loops)| + merged
      ensures |rejectedLoopPairs| == |old(rejectedLoopPairs)| + rejected
    {
      hide MergeOne, MergeAll;
      ghost var x := LoopState();
      merged, rejected := 0, 0;
      MergeNone(cfg, keyframes, x);
      assert edges[..0] == [];
      for i := 0 to |edges|
        invariant optimizerNewData == old(optimizerNewData)
        invariant LoopState() == MergeAll(cfg, keyframes, x, edges[..i])
        invariant |loops| == |x.edges| + merged
        invariant |rejectedLoopPairs| == |x.rejected| + rejected
      {
        MergeOneMore(cfg, keyframes, x, edges, i);
        var m, r := MergeEdge(edges[i]);
        merged, rejected := merged + m, rejected + r;
      }
      assert edges[..|edges|] == edges;
      if merged > 0 {
        optimizerNewData := true;
      }
    }

    method MergeScan(q: Query, edges: seq<Edge<G>>) returns (merged: nat)
      modifies this`counters, this`queries, this`loops, this`loopPairs, this`rejectedLoopPairs, this`optimizerNewData,
               this`rejectedByOdometry
      ensures St() == Merge(cfg, old(St()), edges)
      ensures counters == EndScan(old(counters), q) && queries == old(queries) + [q]
      ensures |loops| == |old(loops)| + merged
      ensures rejectedByOdometry - old(rejectedByOdometry) == |rejectedLoopPairs| - |old(rejectedLoopPairs)|
    {
      hide Merge;
      ghost var s := St();
      var rejected;
      merged, rejected := MergeEdges(edges);
      ghost var t := St();
      rejectedByOdometry := rejectedByOdometry + rejected;
      counters := counters.(snapshotSize := q.n, scans := counters.scans + 1);
      queries := queries + [q];
      assert St() == t;
    }

    /** `detect` gives what the detector reports for a snapshot, sorted. */
    method RunLoopClosureScan(
      force: bool, detect: (seq<Keyframe<G>>, Query) -> seq<Edge<G>>, ghost opt: GraphInput<G> -> GraphResult<G>)
      returns (merged: nat)
      modifies this`counters, this`queries, this`loops, this`loopPairs, this`rejectedLoopPairs, this`optimizerNewData,
               this`rejectedByOdometry
      ensures Whole() == ScanNow(cfg, par, tell, opt, detect, old(Whole()), force)
      ensures |loops| == |old(loops)| + merged
      ensures rejectedByOdometry - old(rejectedByOdometry) == |rejectedLoopPairs| - |old(rejectedLoopPairs)|
    {
      hide BeginScan, Merge, ScanNow, EndScan;
      ghost var y, s := Whole(), St();
      ScanNowIs(cfg, par, tell, opt, detect, y, force);
      var q := BeginScanLocked(force);
      ghost var k := counters;
      assert (k, q) == BeginScan(par, s, y.x.k, force);
      if q == None {
        return 0;
      }
      merged := MergeScan(q.value, detect(keyframes, q.value));
    }

    // ----- The end of the run -----

    /** No more input; then the last solve, passes of loop closure (none without an engine) and
        the images that were still waiting. */
    method Finalize(
      opt: GraphInput<G> -> GraphResult<G>, detect: (seq<Keyframe<G>>, Query) -> seq<Edge<G>>, rounds: nat)
      requires Valid() && IsOptimizer(opt)
      modifies this
      ensures old(finalized) ==> Whole() == old(Whole())
      ensures !old(finalized) ==> Whole() == Saved(cfg, par, tell, opt, detect, old(Whole()), rounds)
    {
      hide Finish, MapperSpec.FinishImages, Increasing, Ordered, IsOptimizer, Whole, St;
      if finalized {
        return;
      }
      CloseInput();
      RunLastSolves(opt, detect, rounds);
      FinishLastImages();
    }

    method CloseInput()
      modifies this`finalized
      ensures Whole() == WithState(old(Whole()), old(Whole()).x.c.s.(finalized := true))
    {
      finalized := true;
    }

    method FinishLastImages()
      requires Increasing(keyframes)
      modifies this`keyframes, this`unwrittenImages, this`finishedImages, this`imageWrites
      ensures Whole() == WithState(old(Whole()), MapperSpec.FinishImages(cfg, old(Whole()).x.c.s, None))
    {
      hide FinishPart, Increasing;
      ghost var s := St();
      FinishImages(None);
      assert St() == MapperSpec.FinishImages(cfg, s, None);
    }

    method RunLastSolves(
      opt: GraphInput<G> -> GraphResult<G>, detect: (seq<Keyframe<G>>, Query) -> seq<Edge<G>>, rounds: nat)
      requires Valid() && IsOptimizer(opt)
      modifies this`keyframes, this`geo, this`announced, this`covered, this`lastSnapshot,
               this`counters, this`queries, this`loops, this`loopPairs, this`rejectedLoopPairs, this`optimizerNewData,
               this`rejectedByOdometry
      ensures Valid() && Whole() == Finish(cfg, par, tell, opt, detect, old(Whole()), rounds)
    {
      hide SolveNow, FinalPasses, Valid, Whole;
      SolveGlobalGraph(opt);
      ghost var y := Whole();
      var round := 0;
      while round < rounds
        invariant round <= rounds && Valid()
        invariant FinalPasses(cfg, par, tell, opt, detect, Whole(), rounds - round)
               == FinalPasses(cfg, par, tell, opt, detect, y, rounds)
      {
        NextPass(cfg, par, tell, opt, detect, Whole(), rounds - round);
        var n := RunPass(opt, detect);
        if n == 0 {
          return;
        }
        round := round + 1;
      }
      NoPasses(cfg, par, tell, opt, detect, Whole());
    }

    /** One pass: a full scan, and a solve if it found loops. */
    method RunPass(
      opt: GraphInput<G> -> GraphResult<G>, detect: (seq<Keyframe<G>>, Query) -> seq<Edge<G>>) returns (n: nat)
      requires Valid() && IsOptimizer(opt)
      modifies this`keyframes, this`geo, this`announced, this`covered, this`lastSnapshot,
               this`counters, this`queries, this`loops, this`loopPairs, this`rejectedLoopPairs, this`optimizerNewData,
               this`rejectedByOdometry
      ensures
        var y := old(Whole());
        var z := ScanNow(cfg, par, tell, opt, detect, y, true);
        && Valid()
        && Whole() == (if n == 0 then z else SolveNow(cfg, par, tell, opt, z))
        && (n == 0 <==> |z.x.c.s.loops.edges| == |y.x.c.s.loops.edges|)
    {
      hide SolveNow, ScanNow, Increasing, Ordered, IsOptimizer;
      n := RunLoopClosureScan(true, detect, opt);
      if n != 0 {
        SolveGlobalGraph(opt);
      }
    }
  }
}
