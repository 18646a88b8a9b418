/** The observations of a keyframe and its slots agree: a keyframe stores one image for each
    camera, the one in its slot, and no image twice. */
module AttachedPictures {
  import opened Basics
  import opened Motion
  import opened MapperTypes
  import opened MapperSpec
  import opened SolveAtomicity
  import opened GnssAttachment

  predicate IsPicture<G>(o: Aux<G>) {
    o.PictureAux? || o.FileAux?
  }

  function Pictures<G>(aux: seq<Aux<G>>): seq<Aux<G>> {
    if aux == [] then []
    else Pictures(aux[..|aux| - 1]) + if IsPicture(aux[|aux| - 1]) then [aux[|aux| - 1]] else []
  }

  /** `o` is what its slot holds. */
  ghost predicate InItsSlot<G>(kf: Keyframe<G>, o: Aux<G>) {
    IsPicture(o) && var slot := ImageSlot(o.picture.sensor); slot in kf.nearest && kf.nearest[slot].obs == o
  }

  /** A slot holds an image of its camera, with its time offset. */
  predicate SlotOk<G>(kf: Keyframe<G>, slot: string)
    requires slot in kf.nearest
  {
    var n := kf.nearest[slot];
    if slot == GNSS then n.obs.GnssAux?
    else IsPicture(n.obs) && ImageSlot(n.obs.picture.sensor) == slot && n.dt == Offset(kf, n.obs.picture.stamp)
  }

  /** The images among the observations are exactly those in the slots, each once. */
  ghost predicate StoredOnce<G>(kf: Keyframe<G>) {
    && NoDuplicates(Pictures(kf.aux))
    && (forall o :: o in Pictures(kf.aux) ==> InItsSlot(kf, o))
    && (forall slot :: slot in kf.nearest ==>
      SlotOk(kf, slot) && (slot != GNSS ==> kf.nearest[slot].obs in Pictures(kf.aux)))
  }

  ghost predicate AllStoredOnce<G>(kfs: seq<Keyframe<G>>) {
    forall i :: 0 <= i < |kfs| ==> StoredOnce(kfs[i])
  }

  // ----- Replacing one observation -----

  lemma PicturesAdd<G>(aux: seq<Aux<G>>, o: Aux<G>)
    ensures Pictures(aux + [o]) == Pictures(aux) + if IsPicture(o) then [o] else []
  {
    assert (aux + [o])[..|aux|] == aux;
  }

  lemma {:induction false} PicturesWithout<G>(aux: seq<Aux<G>>, remove: Option<Aux<G>>)
    ensures Pictures(Without(aux, remove)) == Without(Pictures(aux), remove)
  {
    if aux != [] {
      hide Pictures;
      var n := |aux| - 1;
      var w, g := Without(aux[..n], remove), Pictures(aux[..n]);
      PicturesWithout(aux[..n], remove);
      assert aux == aux[..n] + [aux[n]];
      PicturesAdd(aux[..n], aux[n]);
      PicturesAdd(w, aux[n]);
      WithoutAdd(g, aux[n], remove);
      assert w + [] == w && g + [] == g;
    } else {
      assert Without<G>([], remove) == [];
    }
  }

  lemma {:induction false} PicturesArePictures<G>(aux: seq<Aux<G>>)
    ensures forall o :: o in Pictures(aux) ==> IsPicture(o)
  {
    if aux != [] {
      PicturesArePictures(aux[..|aux| - 1]);
    }
  }

  lemma SameIsEqual<G>(a: Aux<G>, b: Aux<G>)
    requires IsPicture(a)
    ensures Same(a, b) <==> a == b
  {
  }

  lemma {:induction false} WithoutElements<G>(s: seq<Aux<G>>, remove: Option<Aux<G>>)
    requires forall o :: o in s ==> IsPicture(o)
    ensures var w := Without(s, remove); forall o :: o in w ==> o in s && Some(o) != remove
    ensures var w := Without(s, remove); forall o :: o in s && Some(o) != remove ==> o in w
    ensures NoDuplicates(s) ==> NoDuplicates(Without(s, remove))
  {
    if s != [] {
      var n := |s| - 1;
      WithoutElements(s[..n], remove);
      var w := Without(s[..n], remove);
      assert s == s[..n] + [s[n]];
      assert s[n] in s && IsPicture(s[n]);
      if remove.Some? {
        SameIsEqual(s[n], remove.value);
      }
      if remove.Some? && Same(s[n], remove.value) {
        assert Without(s, remove) == w + [] == w;
      } else {
        assert Without(s, remove) == w + [s[n]];
      }
      if NoDuplicates(s) {
        assert s[n] !in s[..n];
      }
    }
  }

  /** The images after one observation is replaced. */
  lemma PicturesReplaced<G>(aux: seq<Aux<G>>, out: seq<Aux<G>>, remove: Option<Aux<G>>, add: Aux<G>)
    requires NoDuplicates(Pictures(aux)) && (add in Pictures(aux) ==> Some(add) == remove)
    requires out == Replaced(aux, remove, add)
    ensures NoDuplicates(Pictures(out))
    ensures forall o :: o in Pictures(out) ==> (o in Pictures(aux) && Some(o) != remove) || (o == add && IsPicture(add))
    ensures forall o :: o in Pictures(aux) && Some(o) != remove ==> o in Pictures(out)
    ensures IsPicture(add) ==> add in Pictures(out)
  {
    var w := Without(aux, remove);
    PicturesAdd(w, add);
    PicturesWithout(aux, remove);
    PicturesArePictures(aux);
    WithoutElements(Pictures(aux), remove);
    hide Pictures, Without;
    assert Pictures(out) == Pictures(w) + if IsPicture(add) then [add] else [];
  }

  /** The same with the slots of `out`. */
  lemma SlotsReplaced<G>(kf: Keyframe<G>, out: Keyframe<G>, slot: string, o: Aux<G>, dt: nat)
    requires StoredOnce(kf) && IsPicture(o) && ImageSlot(o.picture.sensor) == slot && slot != GNSS
    requires dt == Offset(kf, o.picture.stamp) && out.stamp == kf.stamp
    requires out.nearest == kf.nearest[slot := Nearest(o, dt)]
    requires
      var remove := if slot in kf.nearest then Some(kf.nearest[slot].obs) else None;
      && NoDuplicates(Pictures(out.aux)) && o in Pictures(out.aux)
      && (forall u :: u in Pictures(out.aux) ==> (u in Pictures(kf.aux) && Some(u) != remove) || u == o)
      && (forall u :: u in Pictures(kf.aux) && Some(u) != remove ==> u in Pictures(out.aux))
    ensures StoredOnce(out)
  {
    hide Pictures, ImageSlot;
    var remove := if slot in kf.nearest then Some(kf.nearest[slot].obs) else None;
    forall u | u in Pictures(out.aux) ensures InItsSlot(out, u) {
      if u != o {
        assert u in Pictures(kf.aux) && InItsSlot(kf, u);
      }
    }
    forall s | s in out.nearest ensures SlotOk(out, s) && (s != GNSS ==> out.nearest[s].obs in Pictures(out.aux)) {
      if s != slot {
        var u := kf.nearest[s].obs;
        assert SlotOk(kf, s) && (s != GNSS ==> u in Pictures(kf.aux));
        if slot in kf.nearest {
          assert SlotOk(kf, slot);
          assert s != GNSS ==> u != kf.nearest[slot].obs;
        }
        assert s != GNSS ==> Some(u) != remove;
        assert out.nearest[s].obs == u;
      } else {
        assert out.nearest[s].obs == o;
      }
    }
  }

  /** A closer image of its camera, or the reference to the file of the one in the slot. */
  lemma PictureStoredOnce<G>(kf: Keyframe<G>, o: Aux<G>, dt: nat)
    requires StoredOnce(kf) && IsPicture(o) && dt == Offset(kf, o.picture.stamp) && !InItsSlot(kf, o)
    ensures StoredOnce(Attached(kf, ImageSlot(o.picture.sensor), o, dt))
  {
    var slot := ImageSlot(o.picture.sensor);
    ImageSlotIsNotGnss(o.picture.sensor);
    var prev := if slot in kf.nearest then Some(kf.nearest[slot].obs) else None;
    var out := Attached(kf, slot, o, dt);
    assert o !in Pictures(kf.aux);
    hide StoredOnce, Pictures, Replaced, Offset, ImageSlot, InItsSlot;
    PicturesNotTwice(kf);
    PicturesReplaced(kf.aux, out.aux, prev, o);
    SlotsReplaced(kf, out, slot, o, dt);
  }

  lemma PicturesNotTwice<G>(kf: Keyframe<G>)
    requires StoredOnce(kf)
    ensures NoDuplicates(Pictures(kf.aux))
  {
  }

  /** Observations that are no images, in or out. */
  lemma OtherStoredOnce<G>(kf: Keyframe<G>, out: Keyframe<G>, remove: Option<Aux<G>>, add: Aux<G>)
    requires StoredOnce(kf) && !IsPicture(add) && (remove.Some? ==> !IsPicture(remove.value))
    requires out.aux == Replaced(kf.aux, remove, add) && out.stamp == kf.stamp
    requires out.nearest - {GNSS} == kf.nearest - {GNSS} && (GNSS in out.nearest ==> out.nearest[GNSS].obs.GnssAux?)
    ensures StoredOnce(out)
  {
    PicturesArePictures(kf.aux);
    PicturesReplaced(kf.aux, out.aux, remove, add);
    hide Pictures, Replaced;
    forall s | s != GNSS
      ensures s in out.nearest <==> s in kf.nearest
      ensures s in out.nearest ==> out.nearest[s] == kf.nearest[s] {
      var a, b := out.nearest - {GNSS}, kf.nearest - {GNSS};
      assert s in a <==> s in out.nearest;
      assert s in b <==> s in kf.nearest;
    }
    forall u | u in Pictures(out.aux) ensures InItsSlot(out, u) {
      assert u in Pictures(kf.aux) && InItsSlot(kf, u);
      ImageSlotIsNotGnss(u.picture.sensor);
    }
    forall s | s in out.nearest ensures SlotOk(out, s) && (s != GNSS ==> out.nearest[s].obs in Pictures(out.aux)) {
      if s != GNSS {
        assert SlotOk(kf, s) && kf.nearest[s].obs in Pictures(kf.aux);
      }
    }
  }

  // ----- Every step -----

  lemma GnssOneStored<G>(maxOffset: int, x: GnssPart<G>, r: Reading)
    requires AllStoredOnce(x.kfs)
    ensures AllStoredOnce(AttachGnss(maxOffset, x, r).kfs)
  {
    hide Choose, Replaced, StoredOnce;
    var c := Choose(x.kfs, r.stamp, GNSS, maxOffset);
    if c.Attach? {
      var kf := x.kfs[c.at];
      var out := Attached(kf, GNSS, GnssAux(r), c.dt);
      assert out.nearest - {GNSS} == kf.nearest - {GNSS};
      StoredSlots(kf);
      OtherStoredOnce(kf, out, if GNSS in kf.nearest then Some(kf.nearest[GNSS].obs) else None, GnssAux(r));
    }
  }

  lemma StoredSlots<G>(kf: Keyframe<G>)
    requires StoredOnce(kf)
    ensures forall slot :: slot in kf.nearest ==> SlotOk(kf, slot)
  {
  }

  lemma {:induction false} GnssStored<G>(maxOffset: int, x: GnssPart<G>, rs: seq<Reading>)
    requires AllStoredOnce(x.kfs)
    ensures AllStoredOnce(AttachAllGnss(maxOffset, x, rs).kfs)
    decreases |rs|
  {
    if rs != [] {
      hide AllStoredOnce, AttachGnss;
      GnssStored(maxOffset, x, rs[..|rs| - 1]);
      GnssOneStored(maxOffset, AttachAllGnss(maxOffset, x, rs[..|rs| - 1]), rs[|rs| - 1]);
    }
  }

  lemma ImageOneStored<G>(maxOffset: int, x: ImagePart<G>, p: Picture)
    requires AllStoredOnce(x.kfs)
    ensures AllStoredOnce(AttachImage(maxOffset, x, p).kfs)
  {
    hide Attached, StoredOnce;
    var slot := ImageSlot(p.sensor);
    var c := Choose(x.kfs, p.stamp, slot, maxOffset);
    ChooseMeans(x.kfs, p.stamp, slot, maxOffset);
    hide Choose;
    if c.Attach? {
      var kf := x.kfs[c.at];
      StoredSlots(kf);
      PictureStoredOnce(kf, PictureAux(p), c.dt);
    }
  }

  lemma {:induction false} ImagesStored<G>(maxOffset: int, x: ImagePart<G>, ps: seq<Picture>)
    requires AllStoredOnce(x.kfs)
    ensures AllStoredOnce(AttachAllImages(maxOffset, x, ps).kfs)
    decreases |ps|
  {
    if ps != [] {
      hide AllStoredOnce, AttachImage;
      ImagesStored(maxOffset, x, ps[..|ps| - 1]);
      ImageOneStored(maxOffset, AttachAllImages(maxOffset, x, ps[..|ps| - 1]), ps[|ps| - 1]);
    }
  }

  lemma FinishOneStored<G>(toFiles: bool, x: ImagePart<G>, e: (nat, string))
    requires AllStoredOnce(x.kfs) && HoldsPicture(x.kfs, e)
    ensures AllStoredOnce(FinishOne(toFiles, x, e).kfs)
  {
    hide Attached, Externalized, StoredOnce;
    var kf := x.kfs[e.0];
    var n := kf.nearest[e.1];
    StoredSlots(kf);
    assert SlotOk(kf, e.1);
    PictureStoredOnce(kf, FileAux(n.obs.picture), n.dt);
    ExternalizedIsAttached(kf, e.1);
  }

  lemma {:induction false} FinishStored<G>(
    toFiles: bool, x: ImagePart<G>, es: seq<(nat, string)>, newest: Option<(string, int)>)
    requires AllStoredOnce(x.kfs)
    ensures AllStoredOnce(FinishEach(toFiles, x, es, newest).kfs)
    decreases |es|
  {
    if es != [] {
      hide AllStoredOnce, FinishOne;
      FinishStored(toFiles, x, es[..|es| - 1], newest);
      var y := FinishEach(toFiles, x, es[..|es| - 1], newest);
      if HoldsPicture(y.kfs, es[|es| - 1]) {
        FinishOneStored(toFiles, y, es[|es| - 1]);
      }
    }
  }

  lemma GravityStored<G>(rule: GravityRule, imu: Imu<G>, kf: Keyframe<G>)
    requires StoredOnce(kf)
    ensures StoredOnce(WithGravity(rule, imu, kf))
  {
    hide Replaced, StoredOnce;
    StoredSlots(kf);
    var g := Gravity(imu.sensor, imu.sensorPose, kf.stamp, TallyOf(imu.samples, kf.stamp, rule.window));
    OtherStoredOnce(kf, kf.(aux := Replaced(kf.aux, None, GravityAux(g))), None, GravityAux(g));
  }

  lemma {:induction false} ResolveStored<G>(rule: GravityRule, x: ImuPart<G>, t: int)
    requires AllStoredOnce(x.kfs)
    ensures AllStoredOnce(ResolveGravity(rule, x, t).kfs)
    decreases |x.imu.pending|
  {
    hide WithGravity, StoredOnce;
    var q := x.imu.pending;
    if q != [] && q[0] < |x.kfs| && x.kfs[q[0]].stamp < t {
      GravityStored(rule, x.imu, x.kfs[q[0]]);
      ResolveStored(rule, ImuPart(x.kfs[q[0] := WithGravity(rule, x.imu, x.kfs[q[0]])], x.imu.(pending := q[1..])), t);
    }
  }

  lemma PosedStored<G>(kf: Keyframe<G>, pose: G, gyro: Option<GyroRotation<G>>)
    requires StoredOnce(kf)
    ensures StoredOnce(kf.(pose := pose, gyro := gyro))
  {
    var out := kf.(pose := pose, gyro := gyro);
    hide Pictures;
    forall u | u in Pictures(out.aux) ensures InItsSlot(out, u) {
      assert InItsSlot(kf, u);
    }
    forall s | s in out.nearest ensures SlotOk(out, s) {
      assert SlotOk(kf, s);
    }
  }

  lemma EmptyStored<G>(kf: Keyframe<G>)
    requires kf.aux == [] && kf.nearest == map[]
    ensures StoredOnce(kf)
  {
  }

  lemma NewKeyframeStored<G(!new)>(cfg: Config<G>, s: State<G>, req: Request<G>, bias: GyroBias)
    ensures StoredOnce(NewKeyframe(cfg, s, req, bias))
  {
    hide StoredOnce, WithGravity, GyroRotationSince, ChainPose;
    var kf := Keyframe(req.stamp, req.frame, req.src, req.scan, [], map[], req.src, None);
    EmptyStored(kf);
    GravityStored(RuleOf(cfg), s.imu, kf);
    var out := NewKeyframe(cfg, s, req, bias);
    PosedStored(WithGravity(RuleOf(cfg), s.imu, kf), out.pose, out.gyro);
  }

  lemma RetryStored<G(!new)>(cfg: Config<G>, s: State<G>)
    requires AllStoredOnce(s.kfs)
    ensures AllStoredOnce(RetryImages(cfg, RetryGnss(cfg, s)).kfs)
  {
    hide AllStoredOnce, AttachAllGnss, AttachAllImages;
    GnssStored(cfg.gnssMaxOffset, GnssPart(s.kfs, [], s.newData), s.pendingGnss);
    var s1 := RetryGnss(cfg, s);
    ImagesStored(cfg.imageMaxOffset, ImagePart(s1.kfs, s1.images.(pending := [])), s1.images.pending);
  }

  lemma InsertStored<G(!new)>(cfg: Config<G>, s: State<G>, req: Request<G>, bias: GyroBias)
    requires AllStoredOnce(s.kfs)
    ensures AllStoredOnce(Insert(cfg, s, req, bias).kfs)
  {
    hide StoredOnce, RetryGnss, RetryImages, NewKeyframe, Appended;
    if Accepts(s, req) {
      var s1 := Logged(cfg, s, KeyframeEntry(req, bias));
      AppendedLast(cfg, s1, req, bias);
      NewKeyframeStored(cfg, s1, req, bias);
      RetryStored(cfg, Appended(cfg, s1, req, bias));
    }
  }

  lemma AddImageStored<G(!new)>(cfg: Config<G>, s: State<G>, p: Picture)
    requires AllStoredOnce(s.kfs)
    ensures AllStoredOnce(AddImage(cfg, s, p).kfs)
  {
    hide AllStoredOnce, AttachAllImages, FinishEach;
    var x := ImagePart(s.kfs, s.images.(pending := s.images.pending + [p]));
    ImagesStored(cfg.imageMaxOffset, x.(im := x.im.(pending := [])), x.im.pending);
    var y := RetryImagePart(cfg.imageMaxOffset, x);
    FinishStored(cfg.imageDir, y.(im := y.im.(unwritten := [])), y.im.unwritten, Some((p.sensor, p.stamp)));
  }

  lemma AddImuStored<G(!new)>(cfg: Config<G>, s: State<G>, o: Observation<G>)
    requires AllStoredOnce(s.kfs) && o.ImuObs?
    ensures AllStoredOnce(AddImu(cfg, s, o).kfs)
  {
    hide AllStoredOnce, ResolveGravity;
    if UsesGravity(cfg, o) {
      var imu := if s.imu.sensor == "" then s.imu.(sensor := o.sensor) else s.imu;
      var imu1 := imu.(samples := imu.samples + [Acceleration(o.stamp, o.acc.value)], sensorPose := o.sensorPose);
      ResolveStored(RuleOf(cfg), ImuPart(s.kfs, imu1), o.stamp);
    }
  }

  lemma ObserveStored<G(!new)>(cfg: Config<G>, s: State<G>, o: Observation<G>)
    requires AllStoredOnce(s.kfs)
    ensures AllStoredOnce(Observe(cfg, s, o).kfs)
  {
    hide AllStoredOnce, AttachGnss, AddImage, AddImu;
    var s1 := Logged(cfg, s, ObservationEntry(o));
    match o
    case GnssObs(r, _, _) => GnssOneStored(cfg.gnssMaxOffset, GnssPart(s.kfs, s.pendingGnss, s.newData), r);
    case ImuObs(_, _, _, _, _) => AddImuStored(cfg, s1, o);
    case ImageObs(p) => AddImageStored(cfg, s, p);
    case OtherObs(_) =>
  }

  lemma CommitStored<G(!new)>(m: Motions<G>, s: State<G>, r: GraphResult<G>)
    requires AllStoredOnce(s.kfs)
    ensures AllStoredOnce(Commit(m, s, r).kfs)
  {
    hide StoredOnce, CommittedPoses;
    var t := Commit(m, s, r);
    forall i | 0 <= i < |t.kfs| ensures StoredOnce(t.kfs[i]) {
      PosedStored(s.kfs[i], t.kfs[i].pose, s.kfs[i].gyro);
    }
  }

  /** In every reachable state of every concurrent run: a keyframe stores, of each camera, exactly
      the image in its slot, once, in memory or as a reference to its file. */
  lemma {:induction false} NoImageTwice<G(!new)>(
    cfg: Config<G>, opt: GraphInput<G> -> GraphResult<G>, ops: seq<Op<G>>)
    ensures AllStoredOnce(StateAfter(cfg, opt, ops).kfs)
    decreases |ops|
  {
    if ops != [] {
      hide AllStoredOnce, Insert, Observe, Commit, MergeAll, Snapshot;
      NoImageTwice(cfg, opt, ops[..|ops| - 1]);
      var c := DoAll(cfg, opt, Concurrent(InitialState(cfg.m), None, 0), ops[..|ops| - 1]);
      match ops[|ops| - 1]
      case Input(KeyframeEvent(req, bias)) => InsertStored(cfg, c.s, req, bias);
      case Input(ObservationEvent(o)) => ObserveStored(cfg, c.s, o);
      case Input(LoopsEvent(_)) =>
      case SolveBegins =>
      case SolveEnds =>
        if c.flight.Some? {
          CommitStored(cfg.m, c.s, c.flight.value);
        }
    }
  }
}
