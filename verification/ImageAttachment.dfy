/** Images wait until a keyframe reaches them, for as long as the front end may lag. What a
    keyframe then holds of each camera is the closest of the images that were tried on it. */
module ImageAttachment {
  import opened Basics
  import opened Motion
  import opened MapperTypes
  import opened MapperSpec
  import opened SolveAtomicity
  import opened GnssAttachment
  import opened AttachedPictures
  import opened ImageWriteOut

  // ----- Which images are given up -----

  /** How much older than the last pending image another one may be. */
  function Margin(maxOffset: int): int {
    maxOffset + FRONT_END_LAG_MARGIN
  }

  /** The pending images given up: those in front that are too old. */
  function GivenUp(ps: seq<Picture>, maxOffset: int): (out: seq<Picture>) {
    if ps != [] && ps[|ps| - 1].stamp - ps[0].stamp > Margin(maxOffset) then [ps[0]] + GivenUp(ps[1..], maxOffset)
    else []
  }

  /** What stays is the rest of the queue, from the first image within the margin of the last. */
  lemma {:induction false} OnlyOldImagesGivenUp(ps: seq<Picture>, maxOffset: int)
    ensures GivenUp(ps, maxOffset) + DropOldImages(ps, maxOffset) == ps
    ensures forall p :: p in GivenUp(ps, maxOffset) ==> ps[|ps| - 1].stamp - p.stamp > Margin(maxOffset)
    ensures
      var kept := DropOldImages(ps, maxOffset);
      kept != [] ==> ps[|ps| - 1] == kept[|kept| - 1] && ps[|ps| - 1].stamp - kept[0].stamp <= Margin(maxOffset)
    ensures ps != [] && Margin(maxOffset) >= 0 ==> DropOldImages(ps, maxOffset) != []
  {
    if ps != [] && ps[|ps| - 1].stamp - ps[0].stamp > Margin(maxOffset) {
      var rest := ps[1..];
      OnlyOldImagesGivenUp(rest, maxOffset);
      assert ps == [ps[0]] + rest;
      assert rest != [] ==> rest[|rest| - 1] == ps[|ps| - 1];
      hide DropOldImages;
      assert GivenUp(ps, maxOffset) == [ps[0]] + GivenUp(rest, maxOffset);
      hide GivenUp;
      assert DropOldImages(ps, maxOffset) == DropOldImages(rest, maxOffset) by { DropFirst(ps, maxOffset); }
      if rest == [] {
        assert GivenUp(rest, maxOffset) + DropOldImages(rest, maxOffset) == [];
      }
    }
  }

  lemma DropFirst(ps: seq<Picture>, maxOffset: int)
    requires ps != [] && ps[|ps| - 1].stamp - ps[0].stamp > Margin(maxOffset)
    ensures DropOldImages(ps, maxOffset) == DropOldImages(ps[1..], maxOffset)
  {
  }

  // ----- The offline definition, for each camera -----

  /** Picture `p`, of the camera of `slot`, belongs to keyframe `i`. */
  ghost predicate BelongsTo<G>(kfs: seq<Keyframe<G>>, i: nat, slot: string, p: Picture, maxOffset: int)
    requires i < |kfs|
  {
    ImageSlot(p.sensor) == slot && Claims(kfs, i, p.stamp, maxOffset)
  }

  /** Keyframe `i` holds the closest of the images of `tried` that belong in its `slot`. */
  ghost predicate HoldsClosestImage<G>(
    kfs: seq<Keyframe<G>>, i: nat, slot: string, tried: set<Picture>, maxOffset: int)
    requires i < |kfs|
  {
    if slot !in kfs[i].nearest then forall p :: p in tried ==> !BelongsTo(kfs, i, slot, p, maxOffset)
    else
      var n := kfs[i].nearest[slot];
      && IsPicture(n.obs)
      && n.obs.picture in tried
      && BelongsTo(kfs, i, slot, n.obs.picture, maxOffset)
      && n.dt == Offset(kfs[i], n.obs.picture.stamp)
      && forall p :: p in tried && BelongsTo(kfs, i, slot, p, maxOffset) ==> n.dt <= Offset(kfs[i], p.stamp)
  }

  ghost predicate AllClosest<G>(kfs: seq<Keyframe<G>>, tried: set<Picture>, maxOffset: int) {
    forall i: nat, slot {:trigger HoldsClosestImage(kfs, i, slot, tried, maxOffset)} ::
      i < |kfs| && slot != GNSS ==> HoldsClosestImage(kfs, i, slot, tried, maxOffset)
  }

  lemma BelongsToOfStamps<G>(
    a: seq<Keyframe<G>>, b: seq<Keyframe<G>>, i: nat, slot: string, p: Picture, maxOffset: int)
    requires SameStamps(a, b) && i < |a|
    ensures BelongsTo(a, i, slot, p, maxOffset) == BelongsTo(b, i, slot, p, maxOffset)
  {
    ClaimsOfStamps(a, b, i, p.stamp, maxOffset);
  }

  /** The slot of one keyframe with the same picture, attached or as a file. */
  ghost predicate SamePicture<G>(a: Keyframe<G>, b: Keyframe<G>, slot: string) {
    && (slot in a.nearest <==> slot in b.nearest)
    && (slot in a.nearest ==>
          && IsPicture(a.nearest[slot].obs) == IsPicture(b.nearest[slot].obs)
          && (IsPicture(a.nearest[slot].obs) ==> a.nearest[slot].obs.picture == b.nearest[slot].obs.picture)
          && a.nearest[slot].dt == b.nearest[slot].dt)
  }

  lemma ClosestOfSamePicture<G>(
    a: seq<Keyframe<G>>, b: seq<Keyframe<G>>, i: nat, slot: string, tried: set<Picture>, maxOffset: int)
    requires SameStamps(a, b) && i < |a| && SamePicture(a[i], b[i], slot)
    requires HoldsClosestImage(b, i, slot, tried, maxOffset)
    ensures HoldsClosestImage(a, i, slot, tried, maxOffset)
  {
    forall p ensures BelongsTo(a, i, slot, p, maxOffset) == BelongsTo(b, i, slot, p, maxOffset) {
      BelongsToOfStamps(a, b, i, slot, p, maxOffset);
    }
    hide BelongsTo;
  }

  // ----- Steps that keep the pictures -----

  lemma ClosestOfSameImages<G>(a: seq<Keyframe<G>>, b: seq<Keyframe<G>>, tried: set<Picture>, maxOffset: int)
    requires SameImages(a, b) && AllClosest(b, tried, maxOffset)
    ensures AllClosest(a, tried, maxOffset)
  {
    hide HoldsClosestImage;
    forall i: nat, slot | i < |a| && slot != GNSS ensures HoldsClosestImage(a, i, slot, tried, maxOffset) {
      SameSlot(a, b, i, slot);
      ClosestOfSamePicture(a, b, i, slot, tried, maxOffset);
    }
  }

  lemma FinishOneKeepsClosest<G>(
    toFiles: bool, x: ImagePart<G>, e: (nat, string), tried: set<Picture>, maxOffset: int)
    requires HoldsPicture(x.kfs, e) && AllClosest(x.kfs, tried, maxOffset)
    ensures
      var y := FinishOne(toFiles, x, e);
      AllClosest(y.kfs, tried, maxOffset) && SameStamps(y.kfs, x.kfs) && y.im.pending == x.im.pending
  {
    hide HoldsClosestImage, Replaced;
    var y := FinishOne(toFiles, x, e);
    forall i: nat, slot | i < |y.kfs| && slot != GNSS ensures HoldsClosestImage(y.kfs, i, slot, tried, maxOffset) {
      ClosestOfSamePicture(y.kfs, x.kfs, i, slot, tried, maxOffset);
    }
  }

  lemma {:induction false} FinishKeepsClosest<G>(
    toFiles: bool, x: ImagePart<G>, es: seq<(nat, string)>, newest: Option<(string, int)>, tried: set<Picture>,
        maxOffset: int)
    requires AllClosest(x.kfs, tried, maxOffset)
    ensures
      var y := FinishEach(toFiles, x, es, newest);
      AllClosest(y.kfs, tried, maxOffset) && SameStamps(y.kfs, x.kfs) && y.im.pending == x.im.pending
    decreases |es|
  {
    if es != [] {
      hide FinishOne, AllClosest;
      var n := |es| - 1;
      FinishKeepsClosest(toFiles, x, es[..n], newest, tried, maxOffset);
      var y := FinishEach(toFiles, x, es[..n], newest);
      if HoldsPicture(y.kfs, es[n]) {
        FinishOneKeepsClosest(toFiles, y, es[n], tried, maxOffset);
      }
    }
  }

  // ----- Trying images -----

  /** The images newer than every keyframe, in order. */
  function Later<G>(kfs: seq<Keyframe<G>>, ps: seq<Picture>): seq<Picture> {
    if ps == [] then []
    else Later(kfs, ps[..|ps| - 1]) + if IsNewer(kfs, ps[|ps| - 1].stamp) then [ps[|ps| - 1]] else []
  }

  /** The others: those that a keyframe has reached. */
  ghost function Reached<G>(kfs: seq<Keyframe<G>>, ps: seq<Picture>): set<Picture> {
    set p | p in ps && !IsNewer(kfs, p.stamp)
  }

  lemma {:induction false} LaterElements<G>(kfs: seq<Keyframe<G>>, ps: seq<Picture>)
    ensures forall p :: p in Later(kfs, ps) <==> p in ps && IsNewer(kfs, p.stamp)
  {
    if ps != [] {
      LaterElements(kfs, ps[..|ps| - 1]);
      assert ps == ps[..|ps| - 1] + [ps[|ps| - 1]];
    }
  }

  lemma {:induction false} LaterOfStamps<G>(a: seq<Keyframe<G>>, b: seq<Keyframe<G>>, ps: seq<Picture>)
    requires SameStamps(a, b)
    ensures Later(a, ps) == Later(b, ps)
  {
    if ps != [] {
      LaterOfStamps(a, b, ps[..|ps| - 1]);
    }
  }

  lemma SlotAfter<G>(
    maxOffset: int, x: ImagePart<G>, tried: set<Picture>, p: Picture, i: nat, slot: string)
    requires i < |x.kfs| && slot != GNSS && HoldsClosestImage(x.kfs, i, slot, tried, maxOffset)
    ensures HoldsClosestImage(AttachImage(maxOffset, x, p).kfs, i, slot, tried + Reached(x.kfs, [p]), maxOffset)
  {
    hide HoldsClosestImage, Choose, BelongsTo, Replaced;
    var y := AttachImage(maxOffset, x, p);
    var c := Choose(x.kfs, p.stamp, ImageSlot(p.sensor), maxOffset);
    if c.Attach? && c.at == i && slot == ImageSlot(p.sensor) {
      SlotReplaced(maxOffset, x, tried, p);
    } else {
      SlotKept(maxOffset, x, tried, p, i, slot);
      ClosestOfSamePicture(y.kfs, x.kfs, i, slot, tried + Reached(x.kfs, [p]), maxOffset);
    }
  }

  /** The picture is not one that changes the slot. */
  lemma SlotKept<G>(
    maxOffset: int, x: ImagePart<G>, tried: set<Picture>, p: Picture, i: nat, slot: string)
    requires i < |x.kfs| && HoldsClosestImage(x.kfs, i, slot, tried, maxOffset)
    requires
      var c := Choose(x.kfs, p.stamp, ImageSlot(p.sensor), maxOffset);
      !(c.Attach? && c.at == i && slot == ImageSlot(p.sensor))
    ensures HoldsClosestImage(x.kfs, i, slot, tried + Reached(x.kfs, [p]), maxOffset)
  {
    ChooseMeans(x.kfs, p.stamp, ImageSlot(p.sensor), maxOffset);
    hide Choose, Claims, IsNewer;
  }

  /** The picture is put in its slot. */
  lemma SlotReplaced<G>(maxOffset: int, x: ImagePart<G>, tried: set<Picture>, p: Picture)
    requires
      var c := Choose(x.kfs, p.stamp, ImageSlot(p.sensor), maxOffset);
      c.Attach? && HoldsClosestImage(x.kfs, c.at, ImageSlot(p.sensor), tried, maxOffset)
    ensures
      var slot := ImageSlot(p.sensor);
      var c := Choose(x.kfs, p.stamp, slot, maxOffset);
      HoldsClosestImage(AttachAt(x.kfs, c, slot, PictureAux(p)), c.at, slot, tried + Reached(x.kfs, [p]), maxOffset)
  {
    var slot := ImageSlot(p.sensor);
    var c := Choose(x.kfs, p.stamp, slot, maxOffset);
    var kfs := AttachAt(x.kfs, c, slot, PictureAux(p));
    forall q ensures BelongsTo(kfs, c.at, slot, q, maxOffset) == BelongsTo(x.kfs, c.at, slot, q, maxOffset) {
      BelongsToOfStamps(kfs, x.kfs, c.at, slot, q, maxOffset);
    }
    ChooseMeans(x.kfs, p.stamp, slot, maxOffset);
    assert BelongsTo(x.kfs, c.at, slot, p, maxOffset);
    assert p in Reached(x.kfs, [p]);
    hide Choose, Claims, Replaced, BelongsTo, IsNewer;
  }


  lemma AttachKeepsClosest<G>(maxOffset: int, x: ImagePart<G>, tried: set<Picture>, p: Picture)
    requires AllClosest(x.kfs, tried, maxOffset)
    ensures
      var y := AttachImage(maxOffset, x, p);
      AllClosest(y.kfs, tried + Reached(x.kfs, [p]), maxOffset)
  {
    hide HoldsClosestImage, Choose;
    var y := AttachImage(maxOffset, x, p);
    forall i: nat, slot | i < |x.kfs| && slot != GNSS
      ensures HoldsClosestImage(y.kfs, i, slot, tried + Reached(x.kfs, [p]), maxOffset) {
      SlotAfter(maxOffset, x, tried, p, i, slot);
    }
  }

  /** What no keyframe has reached waits, in order. */
  lemma {:induction false} AttachAllPends<G>(maxOffset: int, x: ImagePart<G>, ps: seq<Picture>)
    ensures
      var y := AttachAllImages(maxOffset, x, ps);
      SameStamps(y.kfs, x.kfs) && y.im.pending == x.im.pending + Later(x.kfs, ps)
    decreases |ps|
  {
    if ps != [] {
      hide Choose;
      var n := |ps| - 1;
      AttachAllPends(maxOffset, x, ps[..n]);
      ChooseMeans(AttachAllImages(maxOffset, x, ps[..n]).kfs, ps[n].stamp, ImageSlot(ps[n].sensor), maxOffset);
      Regroup(x.im.pending, Later(x.kfs, ps[..n]), if IsNewer(x.kfs, ps[n].stamp) then [ps[n]] else []);
    }
  }

  lemma ReachedAdd<G>(kfs: seq<Keyframe<G>>, other: seq<Keyframe<G>>, ps: seq<Picture>)
    requires ps != [] && SameStamps(kfs, other)
    ensures Reached(kfs, ps) == Reached(kfs, ps[..|ps| - 1]) + Reached(other, [ps[|ps| - 1]])
  {
    assert ps == ps[..|ps| - 1] + [ps[|ps| - 1]];
    assert forall t :: IsNewer(kfs, t) == IsNewer(other, t);
  }

  lemma {:induction false} AttachAllKeepsClosest<G>(
    maxOffset: int, x: ImagePart<G>, tried: set<Picture>, ps: seq<Picture>)
    requires AllClosest(x.kfs, tried, maxOffset)
    ensures
      var y := AttachAllImages(maxOffset, x, ps);
      AllClosest(y.kfs, tried + Reached(x.kfs, ps), maxOffset)
    decreases |ps|
  {
    hide AllClosest, AttachImage, Reached;
    if ps == [] {
      assert tried + Reached(x.kfs, ps) == tried by { NothingReached(x.kfs); }
    } else {
      var n := |ps| - 1;
      var y := AttachAllImages(maxOffset, x, ps[..n]);
      AttachAllPends(maxOffset, x, ps[..n]);
      AttachAllKeepsClosest(maxOffset, x, tried, ps[..n]);
      AttachKeepsClosest(maxOffset, y, tried + Reached(x.kfs, ps[..n]), ps[n]);
      ReachedAdd(x.kfs, y.kfs, ps);
      assert tried + Reached(x.kfs, ps[..n]) + Reached(y.kfs, [ps[n]]) == tried + Reached(x.kfs, ps);
    }
  }

  lemma NothingReached<G>(kfs: seq<Keyframe<G>>)
    ensures Reached(kfs, []) == {}
  {
  }

  /** All the pending images tried, and the oldest of the others given up. */
  lemma RetryPends<G>(maxOffset: int, x: ImagePart<G>)
    ensures
      var y := RetryImagePart(maxOffset, x);
      SameStamps(y.kfs, x.kfs) && y.im.pending == DropOldImages(Later(x.kfs, x.im.pending), maxOffset)
  {
    hide AttachAllImages, Later, DropOldImages;
    AttachAllPends(maxOffset, x.(im := x.im.(pending := [])), x.im.pending);
    assert [] + Later(x.kfs, x.im.pending) == Later(x.kfs, x.im.pending);
  }

  lemma RetryKeepsStamps<G(!new)>(cfg: Config<G>, s: State<G>)
    ensures SameStamps(RetryImages(cfg, RetryGnss(cfg, s)).kfs, s.kfs)
  {
    hide AttachAllGnss, RetryImagePart;
    StillPending(cfg.gnssMaxOffset, GnssPart(s.kfs, [], s.newData), s.pendingGnss);
    var s1 := RetryGnss(cfg, s);
    RetryPends(cfg.imageMaxOffset, ImagePart(s1.kfs, s1.images));
  }

  lemma RetryKeepsClosest<G>(maxOffset: int, x: ImagePart<G>, tried: set<Picture>)
    requires AllClosest(x.kfs, tried, maxOffset)
    ensures AllClosest(RetryImagePart(maxOffset, x).kfs, tried + Reached(x.kfs, x.im.pending), maxOffset)
  {
    hide AllClosest, AttachAllImages, Reached;
    AttachAllKeepsClosest(maxOffset, x.(im := x.im.(pending := [])), tried, x.im.pending);
  }

  /** No image of `ps` is more than the margin newer. */
  ghost predicate IsYoung(p: Picture, ps: seq<Picture>, maxOffset: int) {
    forall q :: q in ps ==> q.stamp - p.stamp <= maxOffset + FRONT_END_LAG_MARGIN
  }

  /** One retry: what stays had not been reached, and no young image goes. */
  lemma RetryKeepsYoung<G>(maxOffset: int, x: ImagePart<G>)
    ensures
      var kept := RetryImagePart(maxOffset, x).im.pending;
      && (forall p :: p in kept ==> p in x.im.pending && IsNewer(x.kfs, p.stamp))
      && (forall p :: p in x.im.pending && IsNewer(x.kfs, p.stamp) && IsYoung(p, x.im.pending, maxOffset) ==> p in kept)
  {
    hide RetryImagePart, IsNewer, Later, GivenUp, DropOldImages;
    RetryPends(maxOffset, x);
    WhereWaitingGo(x.kfs, x.im.pending, maxOffset);
    assert forall p :: p in x.im.pending ==> p in SetOf(x.im.pending);
  }

  /** A new keyframe takes no image from an older one. */
  lemma AppendKeepsClosest<G>(kfs: seq<Keyframe<G>>, kf: Keyframe<G>, tried: set<Picture>, maxOffset: int)
    requires AllClosest(kfs, tried, maxOffset) && IsNewer(kfs, kf.stamp) && kf.nearest == map[]
    requires forall p :: p in tried ==> !IsNewer(kfs, p.stamp)
    ensures AllClosest(kfs + [kf], tried, maxOffset)
  {
    var all := kfs + [kf];
    forall i: nat, slot | i < |all| && slot != GNSS ensures HoldsClosestImage(all, i, slot, tried, maxOffset) {
      forall p | p in tried
        ensures BelongsTo(all, i, slot, p, maxOffset) == (i < |kfs| && BelongsTo(kfs, i, slot, p, maxOffset)) {
        ClaimsOfAppended(kfs, kf, i, p.stamp, maxOffset);
      }
      hide BelongsTo;
      if i < |kfs| {
        assert HoldsClosestImage(kfs, i, slot, tried, maxOffset);
      }
    }
  }

  // ----- What became of every image of a run -----

  /** `tried`: a keyframe had reached it. `gone`: given up before that. */
  datatype Fate = Fate(tried: set<Picture>, gone: set<Picture>)

  ghost function Retried<G>(kfs: seq<Keyframe<G>>, f: Fate, ps: seq<Picture>, maxOffset: int): Fate {
    Fate(f.tried + Reached(kfs, ps), f.gone + SetOf(GivenUp(Later(kfs, ps), maxOffset)))
  }

  /** The images an input tries to attach. */
  function Tries<G(!new)>(cfg: Config<G>, s: State<G>, ev: Event<G>): Option<seq<Picture>> {
    match ev
    case KeyframeEvent(req, _) => if Accepts(s, req) then Some(s.images.pending) else None
    case ObservationEvent(o) =>
      if !s.finalized && UsesImage(cfg, o) then Some(s.images.pending + [o.picture]) else None
    case LoopsEvent(_) => None
  }

  ghost function FateAfter<G(!new)>(cfg: Config<G>, s: State<G>, ev: Event<G>, f: Fate): Fate {
    var ps := Tries(cfg, s, ev);
    if ps.Some? then Retried(Step(cfg, s, ev).kfs, f, ps.value, cfg.imageMaxOffset) else f
  }

  ghost function Fates<G(!new)>(cfg: Config<G>, opt: GraphInput<G> -> GraphResult<G>, ops: seq<Op<G>>): Fate {
    if ops == [] then Fate({}, {})
    else
      var n := |ops| - 1;
      var f := Fates(cfg, opt, ops[..n]);
      if ops[n].Input? then FateAfter(cfg, StateAfter(cfg, opt, ops[..n]), ops[n].ev, f) else f
  }

  /** Some image of `ps` is more than the margin newer than `p`. */
  ghost predicate Outrun(p: Picture, ps: set<Picture>, maxOffset: int) {
    exists q :: q in ps && q.stamp - p.stamp > Margin(maxOffset)
  }

  /** After images `seen`: each was tried on a keyframe, given up, or still waits. */
  ghost predicate Sorted<G>(x: ImagePart<G>, seen: set<Picture>, f: Fate, maxOffset: int) {
    && seen == f.tried + f.gone + SetOf(x.im.pending)
    && (forall p :: p in f.tried ==> !IsNewer(x.kfs, p.stamp))
    && (forall p :: p in x.im.pending ==> IsNewer(x.kfs, p.stamp))
    && (forall p :: p in f.gone ==> Outrun(p, seen, maxOffset))
    && (Margin(maxOffset) >= 0 ==>
          forall p :: p in f.gone && IsNewer(x.kfs, p.stamp) ==> Outrun(p, SetOf(x.im.pending), maxOffset))
    && SpanOk(x.im.pending, maxOffset)
  }

  /** The queue reaches back from its last image no farther than the margin. */
  predicate SpanOk(ps: seq<Picture>, maxOffset: int) {
    ps != [] ==> ps[|ps| - 1].stamp - ps[0].stamp <= Margin(maxOffset)
  }

  /** An image given up and still ahead of the keyframes is behind one that waits. */
  lemma StillOutrun<G>(
    x: ImagePart<G>, kfs: seq<Keyframe<G>>, f: Fate, waiting: seq<Picture>, p: Picture, maxOffset: int)
    requires Margin(maxOffset) >= 0 && IsNewer(kfs, p.stamp) && x.im.pending <= waiting
    requires p in f.gone || p in GivenUp(Later(kfs, waiting), maxOffset)
    requires p in f.gone ==> Outrun(p, SetOf(x.im.pending), maxOffset)
    ensures Outrun(p, SetOf(DropOldImages(Later(kfs, waiting), maxOffset)), maxOffset)
  {
    var later := Later(kfs, waiting);
    LaterElements(kfs, waiting);
    OnlyOldImagesGivenUp(later, maxOffset);
    var gone, kept := GivenUp(later, maxOffset), DropOldImages(later, maxOffset);
    assert forall q :: q in later ==> q in gone || q in kept;
    hide Later, GivenUp, DropOldImages;
    if p in gone {
      assert kept[|kept| - 1] in SetOf(kept);
    } else {
      var q :| q in SetOf(x.im.pending) && q.stamp - p.stamp > Margin(maxOffset);
      assert q in waiting && IsNewer(kfs, q.stamp);
      assert q in later;
      if q in gone {
        assert kept[|kept| - 1] in SetOf(kept);
      } else {
        assert q in SetOf(kept);
      }
    }
  }

  /** Pending images of `waiting`, tried on `kfs`, which may have one more keyframe. */
  lemma RetryKeepsSorted<G>(
    x: ImagePart<G>, kfs: seq<Keyframe<G>>, seen: set<Picture>, f: Fate, waiting: seq<Picture>, y: ImagePart<G>,
        maxOffset: int)
    requires Sorted(x, seen, f, maxOffset) && x.im.pending <= waiting
    requires forall t :: IsNewer(kfs, t) ==> IsNewer(x.kfs, t)
    requires SameStamps(y.kfs, kfs) && y.im.pending == DropOldImages(Later(kfs, waiting), maxOffset)
    ensures Sorted(y, seen + SetOf(waiting), Retried(kfs, f, waiting, maxOffset), maxOffset)
  {
    var all, g, later := seen + SetOf(waiting), Retried(kfs, f, waiting, maxOffset), Later(kfs, waiting);
    var gone, kept := GivenUp(later, maxOffset), DropOldImages(later, maxOffset);
    WhereWaitingGo(kfs, waiting, maxOffset);
    assert forall t :: IsNewer(y.kfs, t) == IsNewer(kfs, t);
    hide Later, GivenUp, DropOldImages, IsNewer;
    assert forall p :: p in x.im.pending ==> p in waiting;
    forall p | p in g.gone ensures Outrun(p, all, maxOffset) {
      if p in f.gone {
        var q :| q in seen && q.stamp - p.stamp > Margin(maxOffset);
        assert q in all;
      } else {
        var q :| q in SetOf(waiting) && q.stamp - p.stamp > Margin(maxOffset);
        assert q in all;
      }
    }
    hide Outrun;
    AllAccounted(x, kfs, seen, f, waiting, maxOffset);
    if Margin(maxOffset) >= 0 {
      forall p | p in g.gone && IsNewer(kfs, p.stamp) ensures Outrun(p, SetOf(kept), maxOffset) {
        StillOutrun(x, kfs, f, waiting, p, maxOffset);
      }
    }
  }

  lemma AllAccounted<G>(
    x: ImagePart<G>, kfs: seq<Keyframe<G>>, seen: set<Picture>, f: Fate, waiting: seq<Picture>, maxOffset: int)
    requires Sorted(x, seen, f, maxOffset) && x.im.pending <= waiting
    ensures
      var g := Retried(kfs, f, waiting, maxOffset);
      seen + SetOf(waiting) == g.tried + g.gone + SetOf(DropOldImages(Later(kfs, waiting), maxOffset))
  {
    WhereWaitingGo(kfs, waiting, maxOffset);
    hide Later, GivenUp, DropOldImages, IsNewer, Outrun, Margin;
    assert forall p :: p in x.im.pending ==> p in waiting;
    var g := Retried(kfs, f, waiting, maxOffset);
    var kept := DropOldImages(Later(kfs, waiting), maxOffset);
    forall p ensures p in seen + SetOf(waiting) <==> p in g.tried + g.gone + SetOf(kept) {
    }
  }

  lemma WhereWaitingGo<G>(kfs: seq<Keyframe<G>>, waiting: seq<Picture>, maxOffset: int)
    ensures
      var later := Later(kfs, waiting);
      var gone, kept := GivenUp(later, maxOffset), DropOldImages(later, maxOffset);
      && (forall p :: p in waiting <==> p in Reached(kfs, waiting) || p in gone || p in kept)
      && (forall p :: p in gone || p in kept ==> IsNewer(kfs, p.stamp)) && SpanOk(kept, maxOffset)
      && (forall p :: p in gone ==> Outrun(p, SetOf(waiting), maxOffset))
  {
    var later := Later(kfs, waiting);
    LaterElements(kfs, waiting);
    OnlyOldImagesGivenUp(later, maxOffset);
    var gone, kept := GivenUp(later, maxOffset), DropOldImages(later, maxOffset);
    assert forall p :: p in later <==> p in gone || p in kept;
    hide Later, GivenUp, DropOldImages, IsNewer;
    forall p | p in gone ensures Outrun(p, SetOf(waiting), maxOffset) {
      assert later[|later| - 1] in later;
    }
  }

  /** After images `seen`, in one state. */
  ghost predicate Followed<G(!new)>(cfg: Config<G>, s: State<G>, seen: set<Picture>, f: Fate) {
    !s.finalized && Sorted(ImagesOf(s), seen, f, cfg.imageMaxOffset) && AllClosest(s.kfs, f.tried, cfg.imageMaxOffset)
  }

  lemma FollowedOfSameImages<G(!new)>(cfg: Config<G>, s: State<G>, t: State<G>, seen: set<Picture>, f: Fate)
    requires Followed(cfg, s, seen, f) && SameImages(t.kfs, s.kfs) && t.images == s.images && !t.finalized
    ensures Followed(cfg, t, seen, f)
  {
    hide AllClosest;
    ClosestOfSameImages(t.kfs, s.kfs, f.tried, cfg.imageMaxOffset);
    assert forall t0 :: IsNewer(t.kfs, t0) == IsNewer(s.kfs, t0);
    hide IsNewer;
  }

  lemma ReachedOfStamps<G>(a: seq<Keyframe<G>>, b: seq<Keyframe<G>>, f: Fate, ps: seq<Picture>, maxOffset: int)
    requires SameStamps(a, b)
    ensures Retried(a, f, ps, maxOffset) == Retried(b, f, ps, maxOffset)
  {
    LaterOfStamps(a, b, ps);
    assert forall t :: IsNewer(a, t) == IsNewer(b, t);
    hide IsNewer;
    assert Reached(a, ps) == Reached(b, ps);
  }

  lemma InsertFollowed<G(!new)>(
    cfg: Config<G>, s: State<G>, req: Request<G>, bias: GyroBias, seen: set<Picture>, f: Fate)
    requires Followed(cfg, s, seen, f)
    ensures
      var ev := KeyframeEvent(req, bias);
      Followed(cfg, Step(cfg, s, ev), seen, FateAfter(cfg, s, ev, f))
  {
    if Accepts(s, req) {
      var maxOffset, ps := cfg.imageMaxOffset, s.images.pending;
      var s1 := Logged(cfg, s, KeyframeEntry(req, bias));
      var kf := NewKeyframe(cfg, s1, req, bias);
      NewKeyframeGnss(cfg, s1, req, bias);
      var s2 := Appended(cfg, s1, req, bias);
      var s3 := RetryGnss(cfg, s2);
      var t := Insert(cfg, s, req, bias);
      assert IsNewer(s.kfs, kf.stamp) && forall u :: IsNewer(s2.kfs, u) ==> IsNewer(s.kfs, u);
      hide AllClosest, Reached, RetryImagePart, AttachAllGnss, NewKeyframe, IsNewer, Later, DropOldImages, SameImages;
      AllGnssKeepsImages(cfg.gnssMaxOffset, GnssPart(s2.kfs, [], s2.newData), s2.pendingGnss);
      AppendKeepsClosest(s.kfs, kf, f.tried, maxOffset);
      ClosestOfSameImages(s3.kfs, s2.kfs, f.tried, maxOffset);
      RetryPends(maxOffset, ImagesOf(s3));
      RetryKeepsClosest(maxOffset, ImagesOf(s3), f.tried);
      StampsOfSameImages(s3.kfs, s2.kfs);
      StampsTransitive(t.kfs, s3.kfs, s2.kfs);
      LaterOfStamps(s3.kfs, s2.kfs, ps);
      ReachedOfStamps(t.kfs, s2.kfs, f, ps, maxOffset);
      ReachedOfStamps(s3.kfs, s2.kfs, f, ps, maxOffset);
      RetryKeepsSorted(ImagesOf(s), s2.kfs, seen, f, ps, ImagesOf(t), maxOffset);
      assert seen + SetOf(ps) == seen;
    }
  }

  lemma StampsOfSameImages<G>(a: seq<Keyframe<G>>, b: seq<Keyframe<G>>)
    requires SameImages(a, b)
    ensures SameStamps(a, b)
  {
    assert forall i :: 0 <= i < |a| ==> a[i].stamp == b[i].stamp;
  }

  lemma StampsTransitive<G>(a: seq<Keyframe<G>>, b: seq<Keyframe<G>>, c: seq<Keyframe<G>>)
    requires SameStamps(a, b) && SameStamps(b, c)
    ensures SameStamps(a, c)
  {
  }

  lemma AddImageFollowed<G(!new)>(cfg: Config<G>, s: State<G>, p: Picture, seen: set<Picture>, f: Fate)
    requires Followed(cfg, s, seen, f)
    ensures
      var t := AddImage(cfg, s, p);
      Followed(cfg, t, seen + {p}, Retried(t.kfs, f, s.images.pending + [p], cfg.imageMaxOffset))
  {
    hide AllClosest, Reached, RetryImagePart, FinishEach, IsNewer, Later, DropOldImages;
    var maxOffset, ps := cfg.imageMaxOffset, s.images.pending + [p];
    var x := ImagePart(s.kfs, s.images.(pending := ps));
    var t := AddImage(cfg, s, p);
    RetryPends(maxOffset, x);
    RetryKeepsClosest(maxOffset, x, f.tried);
    var y := RetryImagePart(maxOffset, x);
    FinishKeepsClosest(cfg.imageDir, y.(im := y.im.(unwritten := [])), y.im.unwritten, Some((p.sensor, p.stamp)),
                       f.tried + Reached(s.kfs, ps), maxOffset);
    StampsTransitive(t.kfs, y.kfs, s.kfs);
    ReachedOfStamps(t.kfs, s.kfs, f, ps, maxOffset);
    RetryKeepsSorted(ImagesOf(s), s.kfs, seen, f, ps, ImagesOf(t), maxOffset);
    assert seen + SetOf(ps) == seen + {p};
  }

  lemma ObserveFollowed<G(!new)>(cfg: Config<G>, s: State<G>, o: Observation<G>, seen: set<Picture>, f: Fate)
    requires Followed(cfg, s, seen, f)
    ensures
      var ev := ObservationEvent(o);
      Followed(cfg, Step(cfg, s, ev), seen + SetOf(PictureOf(cfg, o)), FateAfter(cfg, s, ev, f))
  {
    hide Followed, AddImage, AttachGnss, ResolveGravity, Retried;
    assert !s.finalized by { FollowedOpen(cfg, s, seen, f); }
    if UsesImage(cfg, o) {
      AddImageFollowed(cfg, s, o.picture, seen, f);
      assert SetOf([o.picture]) == {o.picture};
    } else {
      assert seen + SetOf([]) == seen;
      if UsesGnss(cfg, o) {
        GnssKeepsImages(cfg.gnssMaxOffset, GnssPart(s.kfs, s.pendingGnss, s.newData), o.reading);
      } else if UsesGravity(cfg, o) {
        var imu := if s.imu.sensor == "" then s.imu.(sensor := o.sensor) else s.imu;
        var imu1 := imu.(samples := imu.samples + [Acceleration(o.stamp, o.acc.value)], sensorPose := o.sensorPose);
        GravityKeepsImages(RuleOf(cfg), ImuPart(s.kfs, imu1), o.stamp);
      }
      FollowedOfSameImages(cfg, s, Observe(cfg, s, o), seen, f);
    }
  }

  lemma FollowedOpen<G(!new)>(cfg: Config<G>, s: State<G>, seen: set<Picture>, f: Fate)
    requires Followed(cfg, s, seen, f)
    ensures !s.finalized
  {
  }

  /** In every reachable state: each image received was tried on the keyframes when one had
      reached it, waits because none has, or was given up for one more than the margin newer;
      and each keyframe holds, of each camera, the closest of the images tried. */
  lemma {:induction false} ImagesFollowed<G(!new)>(
    cfg: Config<G>, opt: GraphInput<G> -> GraphResult<G>, ops: seq<Op<G>>)
    ensures Followed(cfg, StateAfter(cfg, opt, ops), SetOf(Seen(cfg, ops)), Fates(cfg, opt, ops))
    decreases |ops|
  {
    if ops == [] {
      assert SetOf<Picture>([]) == {};
    } else {
      hide Followed, Step, Commit, Snapshot, FateAfter, SetOf;
      var n := |ops| - 1;
      ImagesFollowed(cfg, opt, ops[..n]);
      var c := DoAll(cfg, opt, Concurrent(InitialState(cfg.m), None, 0), ops[..n]);
      var seen, f := Seen(cfg, ops[..n]), Fates(cfg, opt, ops[..n]);
      assert seen + [] == seen;
      match ops[n]
      case Input(KeyframeEvent(req, bias)) => InsertFollowed(cfg, c.s, req, bias, SetOf(seen), f);
      case Input(ObservationEvent(o)) =>
        ObserveFollowed(cfg, c.s, o, SetOf(seen), f);
        SetOfSum(seen, PictureOf(cfg, o));
      case Input(LoopsEvent(edges)) => MergeFollowed(cfg, c.s, edges, SetOf(seen), f);
      case SolveBegins =>
      case SolveEnds =>
        if c.flight.Some? {
          CommitFollowed(cfg, c.s, c.flight.value, SetOf(seen), f);
        }
    }
  }

  lemma SetOfSum<T>(a: seq<T>, b: seq<T>)
    ensures SetOf(a + b) == SetOf(a) + SetOf(b)
  {
  }

  lemma MergeFollowed<G(!new)>(cfg: Config<G>, s: State<G>, edges: seq<Edge<G>>, seen: set<Picture>, f: Fate)
    requires Followed(cfg, s, seen, f)
    ensures
      var ev := LoopsEvent(edges);
      Followed(cfg, Step(cfg, s, ev), seen, FateAfter(cfg, s, ev, f))
  {
  }

  lemma CommitFollowed<G(!new)>(cfg: Config<G>, s: State<G>, r: GraphResult<G>, seen: set<Picture>, f: Fate)
    requires Followed(cfg, s, seen, f)
    ensures Followed(cfg, Commit(cfg.m, s, r), seen, f)
  {
    var t := Commit(cfg.m, s, r);
    FollowedOpen(cfg, s, seen, f);
    hide Followed, CommittedPoses;
    FollowedOfSameImages(cfg, s, t, seen, f);
  }

  // ----- What it gives, in terms of the images received -----

  /** A young image is never lost: newer than every keyframe, and within the margin of every
      pending one, it is pending. */
  lemma YoungImageIsPending<G(!new)>(
    cfg: Config<G>, opt: GraphInput<G> -> GraphResult<G>, ops: seq<Op<G>>, p: Picture)
    requires p in Seen(cfg, ops) && Margin(cfg.imageMaxOffset) >= 0
    ensures
      var s := StateAfter(cfg, opt, ops);
      IsNewer(s.kfs, p.stamp) && IsYoung(p, s.images.pending, cfg.imageMaxOffset) ==> p in s.images.pending
  {
    hide AllClosest, IsNewer, DoAll;
    ImagesFollowed(cfg, opt, ops);
    assert p in SetOf(Seen(cfg, ops));
  }

  /** An image belongs to a keyframe, and none received is more than the margin newer: then the
      keyframe holds an image of that camera, this one or one as close. */
  lemma ReachedImageIsUsed<G(!new)>(
    cfg: Config<G>, opt: GraphInput<G> -> GraphResult<G>, ops: seq<Op<G>>, p: Picture, i: nat)
    requires i < |StateAfter(cfg, opt, ops).kfs| && p in Seen(cfg, ops)
    requires Claims(StateAfter(cfg, opt, ops).kfs, i, p.stamp, cfg.imageMaxOffset)
    requires IsYoung(p, Seen(cfg, ops), cfg.imageMaxOffset)
    ensures
      var kf := StateAfter(cfg, opt, ops).kfs[i];
      var slot := ImageSlot(p.sensor);
      slot in kf.nearest && IsPicture(kf.nearest[slot].obs) && kf.nearest[slot].dt <= Offset(kf, p.stamp)
  {
    ImagesFollowed(cfg, opt, ops);
    var s, f := StateAfter(cfg, opt, ops), Fates(cfg, opt, ops);
    assert p in SetOf(Seen(cfg, ops)) && !IsNewer(s.kfs, p.stamp);
    hide IsNewer, DoAll, Fates, Claims;
    assert p in f.tried;
    ImageSlotIsNotGnss(p.sensor);
    assert HoldsClosestImage(s.kfs, i, ImageSlot(p.sensor), f.tried, cfg.imageMaxOffset);
    assert BelongsTo(s.kfs, i, ImageSlot(p.sensor), p, cfg.imageMaxOffset);
  }

  /** Whatever a keyframe holds was received, and belongs to it. */
  lemma HeldImageWasReceived<G(!new)>(
    cfg: Config<G>, opt: GraphInput<G> -> GraphResult<G>, ops: seq<Op<G>>, i: nat, slot: string)
    requires i < |StateAfter(cfg, opt, ops).kfs| && slot in StateAfter(cfg, opt, ops).kfs[i].nearest && slot != GNSS
    ensures
      var kf := StateAfter(cfg, opt, ops).kfs[i];
      var n := kf.nearest[slot];
      && IsPicture(n.obs) && n.obs.picture in Seen(cfg, ops) && slot == ImageSlot(n.obs.picture.sensor)
      && Claims(StateAfter(cfg, opt, ops).kfs, i, n.obs.picture.stamp, cfg.imageMaxOffset)
      && n.dt == Offset(kf, n.obs.picture.stamp)
  {
    ImagesFollowed(cfg, opt, ops);
    var s, f := StateAfter(cfg, opt, ops), Fates(cfg, opt, ops);
    hide IsNewer, DoAll, Fates, Claims;
    assert HoldsClosestImage(s.kfs, i, slot, f.tried, cfg.imageMaxOffset);
    assert s.kfs[i].nearest[slot].obs.picture in SetOf(Seen(cfg, ops));
  }

  // ----- Images are finished as soon as they are final -----

  /** No entry left for the camera of an image of time `t` is final: its keyframe is the newest,
      or the image is not past what the keyframe holds. */
  ghost predicate NoneFinal<G>(kfs: seq<Keyframe<G>>, es: seq<(nat, string)>, sensor: string, t: int) {
    forall e :: e in es && HoldsPicture(kfs, e) && e.1 == ImageSlot(sensor) ==>
      e.0 + 1 == |kfs| || t <= kfs[e.0].stamp + kfs[e.0].nearest[e.1].dt
  }

  lemma FinishOneKeepsNoneFinal<G>(
    toFiles: bool, x: ImagePart<G>, e: (nat, string), es: seq<(nat, string)>, sensor: string, t: int)
    requires HoldsPicture(x.kfs, e) && NoneFinal(x.kfs, es, sensor, t)
    ensures NoneFinal(FinishOne(toFiles, x, e).kfs, es, sensor, t)
  {
    hide Replaced;
  }

  lemma {:induction false} FinishLeavesNoneFinal<G>(
    toFiles: bool, x: ImagePart<G>, es: seq<(nat, string)>, sensor: string, t: int)
    requires x.im.unwritten == []
    ensures
      var y := FinishEach(toFiles, x, es, Some((sensor, t)));
      NoneFinal(y.kfs, y.im.unwritten, sensor, t)
    decreases |es|
  {
    if es != [] {
      hide FinishOne, NoneFinal;
      var n := |es| - 1;
      FinishLeavesNoneFinal(toFiles, x, es[..n], sensor, t);
      var y := FinishEach(toFiles, x, es[..n], Some((sensor, t)));
      FinishNextLeavesNoneFinal(toFiles, y, es[n], sensor, t);
    } else {
    }
  }

  lemma FinishNextLeavesNoneFinal<G>(toFiles: bool, y: ImagePart<G>, e: (nat, string), sensor: string, t: int)
    requires NoneFinal(y.kfs, y.im.unwritten, sensor, t)
    ensures
      var z := FinishNext(toFiles, y, e, Some((sensor, t)));
      NoneFinal(z.kfs, z.im.unwritten, sensor, t)
  {
    hide Externalized;
    if HoldsPicture(y.kfs, e) && !MayBeReplaced(y.kfs, e, Some((sensor, t))) {
      FinishOneKeepsNoneFinal(toFiles, y, e, y.im.unwritten, sensor, t);
    }
  }

  /** Taking an image finishes every image of its camera that it makes final. */
  lemma FinalImagesAreFinished<G(!new)>(
    cfg: Config<G>, opt: GraphInput<G> -> GraphResult<G>, ops: seq<Op<G>>, p: Picture)
    requires cfg.useImage && cfg.imageLabel(p.sensor)
    ensures
      var s := StateAfter(cfg, opt, ops + [Input(ObservationEvent(ImageObs(p)))]);
      forall e :: e in s.images.unwritten && HoldsPicture(s.kfs, e) && e.1 == ImageSlot(p.sensor) ==>
        e.0 + 1 == |s.kfs| || p.stamp <= s.kfs[e.0].stamp + s.kfs[e.0].nearest[e.1].dt
  {
    hide FinishEach, RetryImagePart, DoAll, HoldsPicture, Snapshot;
    ImagesFollowed(cfg, opt, ops);
    var s := StateAfter(cfg, opt, ops);
    StateAfterAdd(cfg, opt, ops, ObservationEvent(ImageObs(p)));
    var y := RetryImagePart(cfg.imageMaxOffset, ImagePart(s.kfs, s.images.(pending := s.images.pending + [p])));
    FinishLeavesNoneFinal(cfg.imageDir, WithUnwritten(y, []), y.im.unwritten, p.sensor, p.stamp);
  }
}
