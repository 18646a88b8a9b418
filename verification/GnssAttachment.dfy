/** GNSS readings are attached online, one at a time, to keyframes that keep arriving.
    The result is the one an offline pass over the final data would give. */
module GnssAttachment {
  import opened Basics
  import opened Motion
  import opened MapperTypes
  import opened MapperSpec
  import opened SolveAtomicity

  // ----- The offline definition -----

  /** Of all the keyframes, reading `t` belongs to keyframe `i`: the nearest one, close enough.
      Readings newer than every keyframe belong to none yet. */
  ghost predicate Claims<G>(kfs: seq<Keyframe<G>>, i: nat, t: int, maxOffset: int)
    requires i < |kfs|
  {
    t <= kfs[|kfs| - 1].stamp && NearestIndex(kfs, t) == i && Offset(kfs[i], t) <= maxOffset
  }

  /** Keyframe `i` holds the closest of the readings of `received` that belong to it. */
  ghost predicate HoldsClosest<G>(kfs: seq<Keyframe<G>>, i: nat, received: set<Reading>, maxOffset: int)
    requires i < |kfs|
  {
    if GNSS !in kfs[i].nearest then forall r :: r in received ==> !Claims(kfs, i, r.stamp, maxOffset)
    else
      var n := kfs[i].nearest[GNSS];
      && n.obs.GnssAux?
      && n.obs.reading in received
      && Claims(kfs, i, n.obs.reading.stamp, maxOffset)
      && n.dt == Offset(kfs[i], n.obs.reading.stamp)
      && forall r :: r in received && Claims(kfs, i, r.stamp, maxOffset) ==> n.dt <= Offset(kfs[i], r.stamp)
  }

  /** The GNSS readings the graph will see. */
  function OnlyGnss<G>(aux: seq<Aux<G>>): seq<Aux<G>> {
    if aux == [] then []
    else OnlyGnss(aux[..|aux| - 1]) + if aux[|aux| - 1].GnssAux? then [aux[|aux| - 1]] else []
  }

  /** Each slot holds its kind of observation, and the graph sees exactly the one in "gnss". */
  ghost predicate WellSlotted<G>(kf: Keyframe<G>) {
    && (forall slot :: slot in kf.nearest ==>
          if slot == GNSS then kf.nearest[slot].obs.GnssAux?
          else kf.nearest[slot].obs.PictureAux? || kf.nearest[slot].obs.FileAux?)
    && OnlyGnss(kf.aux) == if GNSS in kf.nearest then [kf.nearest[GNSS].obs] else []
  }

  /** The keyframes hold what an offline pass over `received` would attach. */
  ghost predicate Offline<G>(kfs: seq<Keyframe<G>>, received: set<Reading>, maxOffset: int) {
    && Increasing(kfs)
    && (forall i :: 0 <= i < |kfs| ==> WellSlotted(kfs[i]))
    && (forall i :: 0 <= i < |kfs| ==> HoldsClosest(kfs, i, received, maxOffset))
  }

  predicate IsNewer<G>(kfs: seq<Keyframe<G>>, t: int) {
    kfs == [] || kfs[|kfs| - 1].stamp < t
  }

  /** The readings newer than every keyframe, in order. */
  function Newer<G>(kfs: seq<Keyframe<G>>, rs: seq<Reading>): seq<Reading> {
    if rs == [] then []
    else
      Newer(kfs, rs[..|rs| - 1]) + if IsNewer(kfs, rs[|rs| - 1].stamp) then [rs[|rs| - 1]] else []
  }

  function SetOf<T>(s: seq<T>): set<T> {
    set x | x in s
  }

  // ----- The other steps leave the GNSS side of keyframes alone -----

  ghost predicate SameGnss<G>(a: seq<Keyframe<G>>, b: seq<Keyframe<G>>) {
    |a| == |b| && forall i :: 0 <= i < |a| ==>
      && a[i].stamp == b[i].stamp
      && (GNSS in a[i].nearest <==> GNSS in b[i].nearest)
      && (GNSS in a[i].nearest ==> a[i].nearest[GNSS] == b[i].nearest[GNSS])
  }

  ghost predicate AllWellSlotted<G>(kfs: seq<Keyframe<G>>) {
    forall i :: 0 <= i < |kfs| ==> WellSlotted(kfs[i])
  }

  lemma NearestOfStamps<G>(a: seq<Keyframe<G>>, b: seq<Keyframe<G>>, t: int)
    requires a != [] && |a| == |b| && forall i :: 0 <= i < |a| ==> a[i].stamp == b[i].stamp
    ensures NearestIndex(a, t) == NearestIndex(b, t)
  {
    var i, j := NearestIndex(a, t), NearestIndex(b, t);
    assert Offset(a[i], t) == Offset(b[i], t) && Offset(a[j], t) == Offset(b[j], t);
  }

  lemma HoldsClosestOfSame<G>(a: seq<Keyframe<G>>, b: seq<Keyframe<G>>, i: nat, received: set<Reading>, maxOffset: int)
    requires SameGnss(a, b) && i < |a| && HoldsClosest(b, i, received, maxOffset)
    ensures HoldsClosest(a, i, received, maxOffset)
  {
    forall t ensures Claims(a, i, t, maxOffset) == Claims(b, i, t, maxOffset) {
      NearestOfStamps(a, b, t);
    }
    hide Claims;
  }

  lemma OfflineOfSame<G>(a: seq<Keyframe<G>>, b: seq<Keyframe<G>>, received: set<Reading>, maxOffset: int)
    requires SameGnss(a, b) && Offline(b, received, maxOffset) && AllWellSlotted(a)
    ensures Offline(a, received, maxOffset)
  {
    hide HoldsClosest, WellSlotted;
    forall i | 0 <= i < |a| ensures HoldsClosest(a, i, received, maxOffset) {
      HoldsClosestOfSame(a, b, i, received, maxOffset);
    }
  }

  lemma {:induction false} OnlyGnssWithout<G>(aux: seq<Aux<G>>, remove: Option<Aux<G>>)
    ensures OnlyGnss(Without(aux, remove)) == Without(OnlyGnss(aux), remove)
  {
    if aux != [] {
      var n := |aux| - 1;
      var w, g := Without(aux[..n], remove), OnlyGnss(aux[..n]);
      OnlyGnssWithout(aux[..n], remove);
      OnlyGnssAdd(w, aux[n]);
      WithoutAdd(g, aux[n], remove);
      assert w + [] == w && g + [] == g;
    }
  }

  lemma OnlyGnssAdd<G>(aux: seq<Aux<G>>, o: Aux<G>)
    ensures OnlyGnss(aux + [o]) == OnlyGnss(aux) + if o.GnssAux? then [o] else []
  {
    assert (aux + [o])[..|aux|] == aux;
  }

  lemma WithoutAdd<G>(aux: seq<Aux<G>>, o: Aux<G>, remove: Option<Aux<G>>)
    ensures Without(aux + [o], remove) ==
              Without(aux, remove) + if remove.Some? && Same(o, remove.value) then [] else [o]
  {
    assert (aux + [o])[..|aux|] == aux;
  }

  lemma {:induction false} WithoutOther<G>(aux: seq<Aux<G>>, remove: Option<Aux<G>>)
    requires remove.Some? ==> !remove.value.GnssAux?
    ensures Without(OnlyGnss(aux), remove) == OnlyGnss(aux)
  {
    if aux != [] {
      var g := OnlyGnss(aux[..|aux| - 1]);
      WithoutOther(aux[..|aux| - 1], remove);
      WithoutAdd(g, aux[|aux| - 1], remove);
      assert g + [] == g;
    }
  }

  /** Replacing pictures, or adding gravity, keeps the GNSS reading. */
  lemma OnlyGnssReplaced<G>(aux: seq<Aux<G>>, remove: Option<Aux<G>>, add: Aux<G>)
    requires (remove.Some? ==> !remove.value.GnssAux?) && !add.GnssAux?
    ensures OnlyGnss(Replaced(aux, remove, add)) == OnlyGnss(aux)
  {
    OnlyGnssAdd(Without(aux, remove), add);
    OnlyGnssWithout(aux, remove);
    WithoutOther(aux, remove);
  }

  lemma ImageSlotIsNotGnss(sensor: string)
    ensures ImageSlot(sensor) != GNSS
  {
    assert ImageSlot(sensor)[0] == 'i';
  }

  /** A picture put in an image slot, whether attached or as a file. */
  lemma PictureWellSlotted<G>(kf: Keyframe<G>, slot: string, o: Aux<G>, dt: nat)
    requires WellSlotted(kf) && slot != GNSS && (o.PictureAux? || o.FileAux?)
    ensures WellSlotted(Attached(kf, slot, o, dt))
  {
    hide Replaced, OnlyGnss;
    OnlyGnssReplaced(kf.aux, if slot in kf.nearest then Some(kf.nearest[slot].obs) else None, o);
  }

  lemma ImageOneKeepsGnss<G>(maxOffset: int, x: ImagePart<G>, p: Picture)
    requires AllWellSlotted(x.kfs)
    ensures
      var y := AttachImage(maxOffset, x, p);
      SameGnss(y.kfs, x.kfs) && AllWellSlotted(y.kfs)
  {
    hide Choose, WellSlotted;
    var slot := ImageSlot(p.sensor);
    var c := Choose(x.kfs, p.stamp, slot, maxOffset);
    ImageSlotIsNotGnss(p.sensor);
    if c.Attach? {
      PictureWellSlotted(x.kfs[c.at], slot, PictureAux(p), c.dt);
    }
  }

  lemma {:induction false} ImagesKeepGnss<G>(maxOffset: int, x: ImagePart<G>, ps: seq<Picture>)
    requires AllWellSlotted(x.kfs)
    ensures
      var y := AttachAllImages(maxOffset, x, ps);
      SameGnss(y.kfs, x.kfs) && AllWellSlotted(y.kfs)
    decreases |ps|
  {
    if ps != [] {
      ImagesKeepGnss(maxOffset, x, ps[..|ps| - 1]);
      ImageOneKeepsGnss(maxOffset, AttachAllImages(maxOffset, x, ps[..|ps| - 1]), ps[|ps| - 1]);
    }
  }

  /** Writing a picture to a file attaches the reference to the file in its place. */
  lemma ExternalizedIsAttached<G>(kf: Keyframe<G>, slot: string)
    requires slot in kf.nearest && kf.nearest[slot].obs.PictureAux?
    ensures Externalized(kf, slot) == Attached(kf, slot, FileAux(kf.nearest[slot].obs.picture), kf.nearest[slot].dt)
  {
    hide Replaced;
  }

  lemma FinishOneKeepsGnss<G>(toFiles: bool, x: ImagePart<G>, e: (nat, string))
    requires AllWellSlotted(x.kfs) && HoldsPicture(x.kfs, e)
    ensures
      var y := FinishOne(toFiles, x, e);
      SameGnss(y.kfs, x.kfs) && AllWellSlotted(y.kfs)
  {
    var kf := x.kfs[e.0];
    assert e.1 != GNSS && WellSlotted(kf);
    hide WellSlotted, Externalized, Replaced;
    var n := kf.nearest[e.1];
    PictureWellSlotted(kf, e.1, FileAux(n.obs.picture), n.dt);
    ExternalizedIsAttached(kf, e.1);
  }

  lemma {:induction false} FinishKeepsGnss<G>(
    toFiles: bool, x: ImagePart<G>, es: seq<(nat, string)>, newest: Option<(string, int)>)
    requires AllWellSlotted(x.kfs)
    ensures
      var y := FinishEach(toFiles, x, es, newest);
      SameGnss(y.kfs, x.kfs) && AllWellSlotted(y.kfs)
    decreases |es|
  {
    if es != [] {
      hide WellSlotted, FinishOne;
      FinishKeepsGnss(toFiles, x, es[..|es| - 1], newest);
      var y := FinishEach(toFiles, x, es[..|es| - 1], newest);
      var e := es[|es| - 1];
      if HoldsPicture(y.kfs, e) {
        FinishOneKeepsGnss(toFiles, y, e);
      }
    }
  }

  lemma GravityKeepsGnss<G>(rule: GravityRule, imu: Imu<G>, kf: Keyframe<G>)
    ensures
      var out := WithGravity(rule, imu, kf);
      && out.(aux := kf.aux) == kf && OnlyGnss(out.aux) == OnlyGnss(kf.aux)
      && (WellSlotted(kf) ==> WellSlotted(out))
  {
    var g := Gravity(imu.sensor, imu.sensorPose, kf.stamp, TallyOf(imu.samples, kf.stamp, rule.window));
    OnlyGnssReplaced(kf.aux, None, GravityAux(g));
  }

  lemma ResolveOneKeepsGnss<G>(rule: GravityRule, imu: Imu<G>, kfs: seq<Keyframe<G>>, k: nat)
    requires AllWellSlotted(kfs) && k < |kfs|
    ensures
      var out := kfs[k := WithGravity(rule, imu, kfs[k])];
      SameGnss(out, kfs) && AllWellSlotted(out)
  {
    hide WithGravity, WellSlotted;
    GravityKeepsGnss(rule, imu, kfs[k]);
  }

  lemma SameGnssTransitive<G>(a: seq<Keyframe<G>>, b: seq<Keyframe<G>>, c: seq<Keyframe<G>>)
    requires SameGnss(a, b) && SameGnss(b, c)
    ensures SameGnss(a, c)
  {
  }

  lemma {:induction false} ResolveKeepsGnss<G>(rule: GravityRule, x: ImuPart<G>, t: int)
    requires AllWellSlotted(x.kfs)
    ensures
      var y := ResolveGravity(rule, x, t);
      SameGnss(y.kfs, x.kfs) && AllWellSlotted(y.kfs)
    decreases |x.imu.pending|
  {
    hide WithGravity, AllWellSlotted, SameGnss;
    var q := x.imu.pending;
    if q != [] && q[0] < |x.kfs| && x.kfs[q[0]].stamp < t {
      ResolveOneKeepsGnss(rule, x.imu, x.kfs, q[0]);
      var kfs1 := x.kfs[q[0] := WithGravity(rule, x.imu, x.kfs[q[0]])];
      var x1 := ImuPart(kfs1, x.imu.(pending := q[1..]));
      ResolveKeepsGnss(rule, x1, t);
      SameGnssTransitive(ResolveGravity(rule, x1, t).kfs, kfs1, x.kfs);
    } else {
      SameGnssSelf(x.kfs);
    }
  }

  lemma SameGnssSelf<G>(a: seq<Keyframe<G>>)
    ensures SameGnss(a, a)
  {
  }

  // ----- One reading, then all the pending ones -----

  lemma WithoutSelf<G>(o: Aux<G>)
    requires o.GnssAux?
    ensures Without([o], Some(o)) == []
  {
  }

  lemma AttachedWellSlotted<G>(kf: Keyframe<G>, r: Reading, dt: nat)
    requires WellSlotted(kf)
    ensures WellSlotted(Attached(kf, GNSS, GnssAux(r), dt))
  {
    var prev := if GNSS in kf.nearest then Some(kf.nearest[GNSS].obs) else None;
    OnlyGnssAdd<G>(Without(kf.aux, prev), GnssAux(r));
    OnlyGnssWithout(kf.aux, prev);
    if prev.Some? {
      WithoutSelf(prev.value);
    }
    hide OnlyGnss;
  }

  lemma ClaimsOfStamps<G>(a: seq<Keyframe<G>>, b: seq<Keyframe<G>>, i: nat, t: int, maxOffset: int)
    requires i < |a| && |a| == |b| && forall i :: 0 <= i < |a| ==> a[i].stamp == b[i].stamp
    ensures Claims(a, i, t, maxOffset) == Claims(b, i, t, maxOffset)
  {
    NearestOfStamps(a, b, t);
  }

  /** The online decision, in terms of the offline definition. */
  lemma ChooseMeans<G>(kfs: seq<Keyframe<G>>, t: int, slot: string, maxOffset: int)
    ensures
      var c := Choose(kfs, t, slot, maxOffset);
      && (c.Pending? <==> IsNewer(kfs, t))
      && (c.Attach? ==> Claims(kfs, c.at, t, maxOffset) && c.dt == Offset(kfs[c.at], t))
      && (c.Attach? && slot in kfs[c.at].nearest ==> c.dt < kfs[c.at].nearest[slot].dt)
      && (!c.Attach? ==> forall i :: 0 <= i < |kfs| && Claims(kfs, i, t, maxOffset) ==>
            slot in kfs[i].nearest && kfs[i].nearest[slot].dt <= Offset(kfs[i], t))
      && forall i, j :: 0 <= i < |kfs| && 0 <= j < |kfs| ==>
           Claims(kfs, i, t, maxOffset) && Claims(kfs, j, t, maxOffset) ==> i == j
  {
  }

  /** Attaching reading `r`, keyframe by keyframe. */
  lemma HoldsClosestAfter<G>(maxOffset: int, x: GnssPart<G>, received: set<Reading>, r: Reading, i: nat)
    requires i < |x.kfs| && HoldsClosest(x.kfs, i, received, maxOffset)
    ensures HoldsClosest(AttachGnss(maxOffset, x, r).kfs, i, received + {r}, maxOffset)
  {
    var y := AttachGnss(maxOffset, x, r);
    forall t ensures Claims(y.kfs, i, t, maxOffset) == Claims(x.kfs, i, t, maxOffset) {
      ClaimsOfStamps(y.kfs, x.kfs, i, t, maxOffset);
    }
    ChooseMeans(x.kfs, r.stamp, GNSS, maxOffset);
    hide Choose, Claims, Replaced;
  }

  lemma AttachKeepsOffline<G>(maxOffset: int, x: GnssPart<G>, received: set<Reading>, r: Reading)
    requires Offline(x.kfs, received, maxOffset)
    ensures
      var y := AttachGnss(maxOffset, x, r);
      Offline(y.kfs, received + {r}, maxOffset)
  {
    hide HoldsClosest, WellSlotted, NearestIndex, Replaced;
    var c := Choose(x.kfs, r.stamp, GNSS, maxOffset);
    if c.Attach? {
      AttachedWellSlotted(x.kfs[c.at], r, c.dt);
    }
    forall i | 0 <= i < |x.kfs| ensures HoldsClosest(AttachGnss(maxOffset, x, r).kfs, i, received + {r}, maxOffset) {
      HoldsClosestAfter(maxOffset, x, received, r, i);
    }
  }

  ghost predicate SameStamps<G>(a: seq<Keyframe<G>>, b: seq<Keyframe<G>>) {
    |a| == |b| && forall i :: 0 <= i < |a| ==> a[i].stamp == b[i].stamp
  }

  /** Readings that no keyframe has reached stay pending, in order. */
  lemma {:induction false} StillPending<G>(maxOffset: int, x: GnssPart<G>, rs: seq<Reading>)
    ensures
      var y := AttachAllGnss(maxOffset, x, rs);
      SameStamps(y.kfs, x.kfs) && y.pending == x.pending + Newer(x.kfs, rs)
    decreases |rs|
  {
    if rs != [] {
      hide Choose;
      var n := |rs| - 1;
      StillPending(maxOffset, x, rs[..n]);
      var y := AttachAllGnss(maxOffset, x, rs[..n]);
      ChooseMeans(y.kfs, rs[n].stamp, GNSS, maxOffset);
      Regroup(x.pending, Newer(x.kfs, rs[..n]), if IsNewer(x.kfs, rs[n].stamp) then [rs[n]] else []);
    }
  }

  lemma {:induction false} AttachAllKeepsOffline<G>(
    maxOffset: int, x: GnssPart<G>, received: set<Reading>, rs: seq<Reading>)
    requires Offline(x.kfs, received, maxOffset)
    ensures Offline(AttachAllGnss(maxOffset, x, rs).kfs, received + SetOf(rs), maxOffset)
    decreases |rs|
  {
    if rs == [] {
      assert received + SetOf(rs) == received;
    } else {
      hide Offline, AttachGnss, SetOf;
      var n := |rs| - 1;
      AttachAllKeepsOffline(maxOffset, x, received, rs[..n]);
      AttachKeepsOffline(maxOffset, AttachAllGnss(maxOffset, x, rs[..n]), received + SetOf(rs[..n]), rs[n]);
      AllReceived(received, rs);
    }
  }

  lemma Regroup<T>(a: seq<T>, b: seq<T>, c: seq<T>)
    ensures a + (b + c) == (a + b) + c
  {
  }

  lemma AllReceived(received: set<Reading>, rs: seq<Reading>)
    requires rs != []
    ensures received + SetOf(rs) == received + SetOf(rs[..|rs| - 1]) + {rs[|rs| - 1]}
  {
    assert rs == rs[..|rs| - 1] + [rs[|rs| - 1]];
  }

  ghost function Resolved<G>(kfs: seq<Keyframe<G>>, received: set<Reading>): set<Reading> {
    set r | r in received && !IsNewer(kfs, r.stamp)
  }

  /** A new keyframe takes no reading from an older one: the nearest keyframe of a
      resolved reading is final. */
  lemma AppendKeepsOffline<G>(kfs: seq<Keyframe<G>>, kf: Keyframe<G>, received: set<Reading>, maxOffset: int)
    requires Offline(kfs, received, maxOffset) && IsNewer(kfs, kf.stamp)
    requires kf.nearest == map[] && OnlyGnss(kf.aux) == []
    ensures Offline(kfs + [kf], Resolved(kfs, received), maxOffset)
  {
    var all := kfs + [kf];
    forall i | 0 <= i < |all| ensures HoldsClosest(all, i, Resolved(kfs, received), maxOffset) {
      forall t | !IsNewer(kfs, t)
        ensures Claims(all, i, t, maxOffset) == (i < |kfs| && Claims(kfs, i, t, maxOffset)) {
        ClaimsOfAppended(kfs, kf, i, t, maxOffset);
      }
      hide NearestIndex;
      if i < |kfs| {
        assert HoldsClosest(kfs, i, received, maxOffset);
      }
    }
    hide HoldsClosest;
    assert WellSlotted(kf);
  }

  lemma ClaimsOfAppended<G>(kfs: seq<Keyframe<G>>, kf: Keyframe<G>, i: nat, t: int, maxOffset: int)
    requires i <= |kfs| && IsNewer(kfs, kf.stamp) && !IsNewer(kfs, t)
    ensures Claims(kfs + [kf], i, t, maxOffset) == (i < |kfs| && Claims(kfs, i, t, maxOffset))
  {
    var n := |kfs|;
    assert (kfs + [kf])[..n] == kfs;
    var j := NearestIndex(kfs, t);
    assert Offset(kfs[j], t) <= Offset(kfs[n - 1], t) < Offset(kf, t);
  }

  lemma {:induction false} NewerElements<G>(kfs: seq<Keyframe<G>>, rs: seq<Reading>)
    ensures SetOf(Newer(kfs, rs)) == set r | r in rs && IsNewer(kfs, r.stamp)
    ensures NoDuplicates(rs) ==> NoDuplicates(Newer(kfs, rs))
  {
    if rs != [] {
      var n := |rs| - 1;
      NewerElements(kfs, rs[..n]);
      assert rs == rs[..n] + [rs[n]];
      forall r ensures r in SetOf(Newer(kfs, rs)) <==> r in rs && IsNewer(kfs, r.stamp) {
        assert r in SetOf(Newer(kfs, rs[..n])) <==> r in rs[..n] && IsNewer(kfs, r.stamp);
      }
      if NoDuplicates(rs) {
        assert rs[n] !in rs[..n];
        assert rs[n] !in SetOf(Newer(kfs, rs[..n]));
      }
    }
  }

  /** Of the readings newer than the old keyframes, those newer than the new one too. */
  lemma {:induction false} NewerTwice<G>(a: seq<Keyframe<G>>, b: seq<Keyframe<G>>, rs: seq<Reading>)
    requires forall t :: IsNewer(b, t) ==> IsNewer(a, t)
    ensures Newer(b, Newer(a, rs)) == Newer(b, rs)
  {
    if rs != [] {
      var n := |rs| - 1;
      NewerTwice(a, b, rs[..n]);
      NewerAdd(b, Newer(a, rs[..n]), rs[n]);
      assert Newer(a, rs[..n]) + [] == Newer(a, rs[..n]) && Newer(b, rs[..n]) + [] == Newer(b, rs[..n]);
    }
  }

  lemma NewerAdd<G>(kfs: seq<Keyframe<G>>, rs: seq<Reading>, r: Reading)
    ensures Newer(kfs, rs + [r]) == Newer(kfs, rs) + if IsNewer(kfs, r.stamp) then [r] else []
  {
    assert (rs + [r])[..|rs|] == rs;
  }

  lemma {:induction false} NewerOfStamps<G>(a: seq<Keyframe<G>>, b: seq<Keyframe<G>>, rs: seq<Reading>)
    requires |a| == |b| && forall i :: 0 <= i < |a| ==> a[i].stamp == b[i].stamp
    ensures Newer(a, rs) == Newer(b, rs)
  {
    if rs != [] {
      NewerOfStamps(a, b, rs[..|rs| - 1]);
    }
  }

  // ----- Every reachable state -----

  /** After readings `rs`: those not newer than the newest keyframe are attached as an offline
      pass would, the others wait, in order. */
  ghost predicate GnssInvariant<G(!new)>(cfg: Config<G>, s: State<G>, rs: seq<Reading>) {
    && !s.finalized
    && Offline(s.kfs, SetOf(rs), cfg.gnssMaxOffset)
    && s.pendingGnss == Newer(s.kfs, rs)
  }

  lemma InvariantOfSame<G(!new)>(cfg: Config<G>, s: State<G>, t: State<G>, rs: seq<Reading>)
    requires GnssInvariant(cfg, s, rs) && SameGnss(t.kfs, s.kfs) && AllWellSlotted(t.kfs)
    requires t.pendingGnss == s.pendingGnss && !t.finalized
    ensures GnssInvariant(cfg, t, rs)
  {
    hide Offline, WellSlotted;
    OfflineOfSame(t.kfs, s.kfs, SetOf(rs), cfg.gnssMaxOffset);
    NewerOfStamps(t.kfs, s.kfs, rs);
  }

  lemma RetryImagesKeepsGnss<G>(maxOffset: int, x: ImagePart<G>)
    requires AllWellSlotted(x.kfs)
    ensures
      var y := RetryImagePart(maxOffset, x);
      SameGnss(y.kfs, x.kfs) && AllWellSlotted(y.kfs)
  {
    ImagesKeepGnss(maxOffset, x.(im := x.im.(pending := [])), x.im.pending);
  }

  /** All the pending readings, tried on the keyframes with a new one. */
  lemma RetryAfterAppend<G>(kfs: seq<Keyframe<G>>, kf: Keyframe<G>, flag: bool, rs: seq<Reading>, maxOffset: int)
    requires Offline(kfs, SetOf(rs), maxOffset) && IsNewer(kfs, kf.stamp)
    requires kf.nearest == map[] && OnlyGnss(kf.aux) == []
    ensures
      var y := AttachAllGnss(maxOffset, GnssPart(kfs + [kf], [], flag), Newer(kfs, rs));
      Offline(y.kfs, SetOf(rs), maxOffset) && y.pending == Newer(y.kfs, rs)
  {
    hide Offline, AttachAllGnss;
    var all, waiting := kfs + [kf], Newer(kfs, rs);
    var x := GnssPart(all, [], flag);
    AppendKeepsOffline(kfs, kf, SetOf(rs), maxOffset);
    AttachAllKeepsOffline(maxOffset, x, Resolved(kfs, SetOf(rs)), waiting);
    NewerElements(kfs, rs);
    assert Resolved(kfs, SetOf(rs)) + SetOf(waiting) == SetOf(rs);
    StillPending(maxOffset, x, waiting);
    NewerTwice(kfs, all, rs);
    var y := AttachAllGnss(maxOffset, x, waiting);
    NewerOfStamps(y.kfs, all, rs);
    assert y.pending == [] + Newer(all, waiting);
  }

  lemma NewKeyframeGnss<G(!new)>(cfg: Config<G>, s: State<G>, req: Request<G>, bias: GyroBias)
    ensures
      var kf := NewKeyframe(cfg, s, req, bias);
      kf.stamp == req.stamp && kf.nearest == map[] && OnlyGnss(kf.aux) == []
  {
    hide WithGravity, GyroRotationSince;
    var kf := Keyframe(req.stamp, req.frame, req.src, req.scan, [], map[], req.src, None);
    GravityKeepsGnss(RuleOf(cfg), s.imu, kf);
  }

  lemma InsertKeepsGnss<G(!new)>(cfg: Config<G>, s: State<G>, req: Request<G>, bias: GyroBias, rs: seq<Reading>)
    requires GnssInvariant(cfg, s, rs)
    ensures GnssInvariant(cfg, Insert(cfg, s, req, bias), rs)
  {
    if Accepts(s, req) {
      hide Offline, WellSlotted, AttachAllGnss, RetryImagePart, NewKeyframe;
      var s1 := Logged(cfg, s, KeyframeEntry(req, bias));
      var kf := NewKeyframe(cfg, s1, req, bias);
      NewKeyframeGnss(cfg, s1, req, bias);
      RetryAfterAppend(s.kfs, kf, s.newData, rs, cfg.gnssMaxOffset);
      var s3 := RetryGnss(cfg, Appended(cfg, s1, req, bias));
      assert GnssInvariant(cfg, s3, rs);
      OfflineWellSlotted(s3.kfs, SetOf(rs), cfg.gnssMaxOffset);
      RetryImagesKeepsGnss(cfg.imageMaxOffset, ImagePart(s3.kfs, s3.images));
      InvariantOfSame(cfg, s3, Insert(cfg, s, req, bias), rs);
    }
  }

  lemma OfflineWellSlotted<G>(kfs: seq<Keyframe<G>>, received: set<Reading>, maxOffset: int)
    requires Offline(kfs, received, maxOffset)
    ensures AllWellSlotted(kfs) && Increasing(kfs)
  {
  }

  /** The GNSS reading an observation brings, if used. */
  function ReadingOf<G(!new)>(cfg: Config<G>, o: Observation<G>): seq<Reading> {
    if UsesGnss(cfg, o) then [o.reading] else []
  }

  lemma ObserveKeepsGnss<G(!new)>(cfg: Config<G>, s: State<G>, o: Observation<G>, rs: seq<Reading>)
    requires GnssInvariant(cfg, s, rs)
    ensures GnssInvariant(cfg, Observe(cfg, s, o), rs + ReadingOf(cfg, o))
  {
    hide WellSlotted, RetryImagePart, FinishEach, ResolveGravity, HoldsClosest;
    var t := Observe(cfg, s, o);
    OfflineWellSlotted(s.kfs, SetOf(rs), cfg.gnssMaxOffset);
    if UsesGnss(cfg, o) {
      AddGnssKeeps(cfg, s, o.reading, rs);
    } else {
      assert rs + [] == rs;
      if UsesImage(cfg, o) {
        var x := ImagePart(s.kfs, s.images.(pending := s.images.pending + [o.picture]));
        RetryImagesKeepsGnss(cfg.imageMaxOffset, x);
        var y := RetryImagePart(cfg.imageMaxOffset, x);
        FinishKeepsGnss(cfg.imageDir, y.(im := y.im.(unwritten := [])), y.im.unwritten,
                        Some((o.picture.sensor, o.picture.stamp)));
      } else if UsesGravity(cfg, o) {
        var imu := if s.imu.sensor == "" then s.imu.(sensor := o.sensor) else s.imu;
        var imu1 := imu.(samples := imu.samples + [Acceleration(o.stamp, o.acc.value)], sensorPose := o.sensorPose);
        ResolveKeepsGnss(RuleOf(cfg), ImuPart(s.kfs, imu1), o.stamp);
      }
      hide Offline, Newer;
      InvariantOfSame(cfg, s, t, rs);
    }
  }

  lemma AddGnssKeeps<G(!new)>(cfg: Config<G>, s: State<G>, r: Reading, rs: seq<Reading>)
    requires GnssInvariant(cfg, s, rs)
    ensures GnssInvariant(cfg, AddGnss(cfg, s, r), rs + [r])
  {
    hide Offline, Choose;
    var x := GnssPart(s.kfs, s.pendingGnss, s.newData);
    var y := AttachGnss(cfg.gnssMaxOffset, x, r);
    AttachKeepsOffline(cfg.gnssMaxOffset, x, SetOf(rs), r);
    assert SetOf(rs) + {r} == SetOf(rs + [r]);
    ChooseMeans(s.kfs, r.stamp, GNSS, cfg.gnssMaxOffset);
    NewerAdd(s.kfs, rs, r);
    NewerOfStamps(y.kfs, s.kfs, rs + [r]);
  }

  lemma CommitKeepsGnss<G(!new)>(cfg: Config<G>, s: State<G>, r: GraphResult<G>, rs: seq<Reading>)
    requires GnssInvariant(cfg, s, rs)
    ensures GnssInvariant(cfg, Commit(cfg.m, s, r), rs)
  {
    hide CommittedPoses;
    var t := Commit(cfg.m, s, r);
    OfflineWellSlotted(s.kfs, SetOf(rs), cfg.gnssMaxOffset);
    forall i | 0 <= i < |t.kfs| ensures WellSlotted(t.kfs[i]) {
      assert WellSlotted(s.kfs[i]);
    }
    hide Offline, WellSlotted;
    InvariantOfSame(cfg, s, t, rs);
  }

  /** The GNSS readings received during a run, in order. */
  function Received<G(!new)>(cfg: Config<G>, ops: seq<Op<G>>): seq<Reading> {
    if ops == [] then []
    else
      var op := ops[|ops| - 1];
      Received(cfg, ops[..|ops| - 1]) +
      if op.Input? && op.ev.ObservationEvent? then ReadingOf(cfg, op.ev.o) else []
  }

  /** In every reachable state of every run, concurrent solves and loop merges included,
      online attachment agrees with the offline definition over everything received. */
  lemma {:induction false} OnlineRefinesOffline<G(!new)>(
    cfg: Config<G>, opt: GraphInput<G> -> GraphResult<G>, ops: seq<Op<G>>)
    ensures
      var s := DoAll(cfg, opt, Concurrent(InitialState(cfg.m), None, 0), ops).s;
      GnssInvariant(cfg, s, Received(cfg, ops))
    decreases |ops|
  {
    if ops != [] {
      hide GnssInvariant, Insert, Observe, Commit, MergeAll, Snapshot;
      OnlineRefinesOffline(cfg, opt, ops[..|ops| - 1]);
      var c := DoAll(cfg, opt, Concurrent(InitialState(cfg.m), None, 0), ops[..|ops| - 1]);
      var rs := Received(cfg, ops[..|ops| - 1]);
      assert rs + [] == rs;
      match ops[|ops| - 1]
      case Input(KeyframeEvent(req, bias)) => InsertKeepsGnss(cfg, c.s, req, bias, rs);
      case Input(ObservationEvent(o)) => ObserveKeepsGnss(cfg, c.s, o, rs);
      case Input(LoopsEvent(edges)) => MergeKeepsGnss(cfg, c.s, edges, rs);
      case SolveBegins =>
      case SolveEnds =>
        if c.flight.Some? {
          CommitKeepsGnss(cfg, c.s, c.flight.value, rs);
        }
    }
  }

  /** Only readings with a fix, of a sensor in use, are ever taken. */
  lemma {:induction false} ReceivedHaveFix<G(!new)>(
    cfg: Config<G>, ops: seq<Op<G>>, r: Reading) returns (o: Observation<G>)
    requires r in Received(cfg, ops)
    ensures Input(ObservationEvent(o)) in ops
    ensures o.GnssObs? && o.reading == r && o.hasFix && cfg.useGnss && cfg.gnssLabel(o.sensor)
  {
    var n := |ops| - 1;
    if r in Received(cfg, ops[..n]) {
      o := ReceivedHaveFix(cfg, ops[..n], r);
    } else {
      o := ops[n].ev.o;
    }
  }

  /** A reading without a fix has no effect at all. */
  lemma NoFixNoEffect<G(!new)>(cfg: Config<G>, s: State<G>, r: Reading, sensor: string)
    ensures Observe(cfg, s, GnssObs(r, sensor, false)) == s
  {
  }

  lemma MergeKeepsGnss<G(!new)>(cfg: Config<G>, s: State<G>, edges: seq<Edge<G>>, rs: seq<Reading>)
    requires GnssInvariant(cfg, s, rs)
    ensures GnssInvariant(cfg, Merge(cfg, s, edges), rs)
  {
  }

  // ----- What the invariant gives -----

  /** Whether keyframe `i` has a reading, and its offset. */
  function GnssOffset<G>(kfs: seq<Keyframe<G>>, i: nat): Option<nat>
    requires i < |kfs|
  {
    if GNSS in kfs[i].nearest then Some(kfs[i].nearest[GNSS].dt) else None
  }

  /** The offsets are a function of the keyframe times and the set of readings: two runs in
      which they arrived in any two orders end with the same ones. */
  lemma OffsetsIgnoreArrivalOrder<G(!new)>(
    cfg: Config<G>, s: State<G>, t: State<G>, rs: seq<Reading>, qs: seq<Reading>, i: nat)
    requires GnssInvariant(cfg, s, rs) && GnssInvariant(cfg, t, qs)
    requires SameStamps(s.kfs, t.kfs) && SetOf(rs) == SetOf(qs) && i < |s.kfs|
    ensures GnssOffset(s.kfs, i) == GnssOffset(t.kfs, i)
  {
    hide WellSlotted, HoldsClosest;
    assert HoldsClosest(s.kfs, i, SetOf(rs), cfg.gnssMaxOffset) && HoldsClosest(t.kfs, i, SetOf(rs), cfg.gnssMaxOffset);
    SameOffset(s.kfs, t.kfs, i, SetOf(rs), cfg.gnssMaxOffset);
  }

  /** The same for any two runs, concurrent solves and loop merges included. */
  lemma ArrivalOrderDoesNotMatter<G(!new)>(
    cfg: Config<G>, opt: GraphInput<G> -> GraphResult<G>, ops: seq<Op<G>>, others: seq<Op<G>>, i: nat)
    requires SameStamps(StateAfter(cfg, opt, ops).kfs, StateAfter(cfg, opt, others).kfs)
    requires SetOf(Received(cfg, ops)) == SetOf(Received(cfg, others)) && i < |StateAfter(cfg, opt, ops).kfs|
    ensures GnssOffset(StateAfter(cfg, opt, ops).kfs, i) == GnssOffset(StateAfter(cfg, opt, others).kfs, i)
  {
    hide GnssInvariant, DoAll, Received, GnssOffset;
    OnlineRefinesOffline(cfg, opt, ops);
    OnlineRefinesOffline(cfg, opt, others);
    OffsetsIgnoreArrivalOrder(cfg, StateAfter(cfg, opt, ops), StateAfter(cfg, opt, others),
                              Received(cfg, ops), Received(cfg, others), i);
  }

  lemma SameOffset<G>(a: seq<Keyframe<G>>, b: seq<Keyframe<G>>, i: nat, received: set<Reading>, maxOffset: int)
    requires SameStamps(a, b) && i < |a|
    requires HoldsClosest(a, i, received, maxOffset) && HoldsClosest(b, i, received, maxOffset)
    ensures GnssOffset(a, i) == GnssOffset(b, i)
  {
    forall u ensures Claims(a, i, u, maxOffset) == Claims(b, i, u, maxOffset) {
      ClaimsOfStamps(a, b, i, u, maxOffset);
    }
    hide Claims;
  }

  /** Whether reading `r` is what keyframe `i` holds in its "gnss" slot. */
  ghost predicate IsAttached<G>(kfs: seq<Keyframe<G>>, i: nat, r: Reading)
    requires i < |kfs|
  {
    GNSS in kfs[i].nearest && kfs[i].nearest[GNSS].obs == GnssAux(r)
  }

  /** No reading is in two places: pending ones are newer than every keyframe and attached
      to none, nothing is attached twice or pending twice, and what the graph sees of a
      keyframe is exactly the reading in its slot. */
  lemma NoReadingInTwoPlaces<G(!new)>(cfg: Config<G>, s: State<G>, rs: seq<Reading>)
    requires GnssInvariant(cfg, s, rs) && NoDuplicates(rs)
    ensures NoDuplicates(s.pendingGnss)
    ensures forall r, i :: r in s.pendingGnss && 0 <= i < |s.kfs| ==>
        s.kfs[i].stamp < r.stamp && !IsAttached(s.kfs, i, r)
    ensures forall r, i, j :: 0 <= i < |s.kfs| && 0 <= j < |s.kfs| ==>
        IsAttached(s.kfs, i, r) && IsAttached(s.kfs, j, r) ==> i == j
    ensures forall r, i :: 0 <= i < |s.kfs| && IsAttached(s.kfs, i, r) ==>
        r in rs && OnlyGnss(s.kfs[i].aux) == [GnssAux(r)]
  {
    NewerElements(s.kfs, rs);
    forall r | r in s.pendingGnss ensures IsNewer(s.kfs, r.stamp) {
      assert r in SetOf(s.pendingGnss);
    }
    forall r, i | 0 <= i < |s.kfs| && IsAttached(s.kfs, i, r)
      ensures Claims(s.kfs, i, r.stamp, cfg.gnssMaxOffset) && r in rs && OnlyGnss(s.kfs[i].aux) == [GnssAux(r)] {
      assert HoldsClosest(s.kfs, i, SetOf(rs), cfg.gnssMaxOffset) && WellSlotted(s.kfs[i]);
    }
    assert Increasing(s.kfs);
  }
}
