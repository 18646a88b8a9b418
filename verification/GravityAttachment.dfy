/** The averaged accelerometer of each keyframe: attached at most once, and complete although
    old readings are forgotten and keyframes and readings arrive late. */
module GravityAttachment {
  import opened Basics
  import opened Motion
  import opened MapperTypes
  import opened MapperSpec
  import opened SolveAtomicity
  import opened GnssAttachment

  // ----- Forgetting old readings -----

  /** The accelerometer readings come in time order. */
  ghost predicate Timely(hist: seq<Acceleration>) {
    forall i, j :: 0 <= i < j < |hist| ==> hist[i].stamp <= hist[j].stamp
  }

  /** `samples` are the readings `hist` but for the first ones, all older than `before`. */
  ghost predicate Remembers(samples: seq<Acceleration>, hist: seq<Acceleration>, before: int) {
    exists m :: 0 <= m <= |hist| && samples == hist[m..] && forall j :: 0 <= j < m ==> hist[j].stamp < before
  }

  lemma {:induction false} TallyOfSuffix(hist: seq<Acceleration>, m: nat, t: int, window: int)
    requires m <= |hist| && forall j :: 0 <= j < m ==> !InWindow(hist[j], t, window)
    ensures TallyOf(hist[m..], t, window) == TallyOf(hist, t, window)
  {
    if m < |hist| {
      var n := |hist| - 1;
      TallyOfSuffix(hist[..n], m, t, window);
      assert hist[m..][..n - m] == hist[..n][m..];
    } else {
      TallyOfNone(hist, t, window);
    }
  }

  lemma {:induction false} TallyOfNone(hist: seq<Acceleration>, t: int, window: int)
    requires forall j :: 0 <= j < |hist| ==> !InWindow(hist[j], t, window)
    ensures TallyOf(hist, t, window) == TallyOf([], t, window)
  {
    if hist != [] {
      TallyOfNone(hist[..|hist| - 1], t, window);
    }
  }

  /** Nothing in the window of `t` has been forgotten. */
  lemma TallyOfRemembered(samples: seq<Acceleration>, hist: seq<Acceleration>, before: int, t: int, window: int)
    requires Remembers(samples, hist, before) && before <= t - window
    ensures TallyOf(samples, t, window) == TallyOf(hist, t, window)
  {
    var m :| 0 <= m <= |hist| && samples == hist[m..] && forall j :: 0 <= j < m ==> hist[j].stamp < before;
    TallyOfSuffix(hist, m, t, window);
  }

  /** `kept` is `all` but for the readings in front that are older than `before`. */
  ghost predicate ForgetsOld(kept: seq<Acceleration>, all: seq<Acceleration>, before: int) {
    exists m :: 0 <= m <= |all| && kept == all[m..] && (m < |all| ==> before <= all[m].stamp)
      && forall j :: 0 <= j < m ==> all[j].stamp < before
  }

  /** The sum of one quantity over the readings of a time interval. */
  function Total(samples: seq<Acceleration>, first: int, last: int, part: Vec -> real): real {
    if samples == [] then 0.0
    else
      var here := if first <= samples[0].stamp <= last then part(samples[0].acc) else 0.0;
      here + Total(samples[1..], first, last, part)
  }

  lemma {:induction false} TotalAdd(
    samples: seq<Acceleration>, a: Acceleration, first: int, last: int, part: Vec -> real)
    ensures Total(samples + [a], first, last, part) ==
      Total(samples, first, last, part) + if first <= a.stamp <= last then part(a.acc) else 0.0
  {
    if samples != [] {
      TotalAdd(samples[1..], a, first, last, part);
      assert (samples + [a])[1..] == samples[1..] + [a];
    }
  }

  /** What is averaged: the readings from `t - window` to `t`, both included, component by component,
      with their number. */
  lemma {:induction false} TallyIsSum(samples: seq<Acceleration>, t: int, window: int)
    ensures
      var tally := TallyOf(samples, t, window);
      && tally.sum.x == Total(samples, t - window, t, (v: Vec) => v.x)
      && tally.sum.y == Total(samples, t - window, t, (v: Vec) => v.y)
      && tally.sum.z == Total(samples, t - window, t, (v: Vec) => v.z)
      && tally.n as real == Total(samples, t - window, t, (v: Vec) => 1.0)
  {
    if samples != [] {
      var n := |samples| - 1;
      TallyIsSum(samples[..n], t, window);
      assert samples == samples[..n] + [samples[n]];
      hide Total;
      TotalAdd(samples[..n], samples[n], t - window, t, (v: Vec) => v.x);
      TotalAdd(samples[..n], samples[n], t - window, t, (v: Vec) => v.y);
      TotalAdd(samples[..n], samples[n], t - window, t, (v: Vec) => v.z);
      TotalAdd(samples[..n], samples[n], t - window, t, (v: Vec) => 1.0);
    }
  }

  lemma {:induction false} DropKeeps(a: seq<Acceleration>, t: int, keep: int) returns (m: nat)
    ensures m <= |a| && DropOldAccelerations(a, t, keep) == a[m..]
    ensures forall j :: 0 <= j < m ==> a[j].stamp < t - keep
    ensures m < |a| ==> t - keep <= a[m].stamp
  {
    if a != [] && t - a[0].stamp > keep {
      var k := DropKeeps(a[1..], t, keep);
      m := k + 1;
      assert a[1..][k..] == a[m..];
      assert forall j :: 1 <= j < m ==> a[j] == a[1..][j - 1];
    } else {
      m := 0;
    }
  }

  lemma RemembersAdded(samples: seq<Acceleration>, hist: seq<Acceleration>, before: int, a: Acceleration)
    requires Remembers(samples, hist, before)
    ensures Remembers(samples + [a], hist + [a], before)
  {
    var m :| 0 <= m <= |hist| && samples == hist[m..] && forall j :: 0 <= j < m ==> hist[j].stamp < before;
    var all := hist + [a];
    assert samples + [a] == all[m..];
    assert forall j :: 0 <= j < m ==> all[j] == hist[j];
  }

  lemma RemembersDropped(samples: seq<Acceleration>, hist: seq<Acceleration>, before: int, t: int, keep: int)
    requires Remembers(samples, hist, before) && before <= t - keep
    ensures Remembers(DropOldAccelerations(samples, t, keep), hist, t - keep)
  {
    var m :| 0 <= m <= |hist| && samples == hist[m..] && forall j :: 0 <= j < m ==> hist[j].stamp < before;
    var k := DropKeeps(samples, t, keep);
    hide DropOldAccelerations, Remembers;
    assert hist[m..][k..] == hist[m + k..];
    forall j | 0 <= j < m + k ensures hist[j].stamp < t - keep {
      if j >= m {
        assert hist[j] == samples[j - m];
      }
    }
    RemembersIntro(hist, m + k, t - keep);
  }

  lemma RemembersIntro(hist: seq<Acceleration>, m: nat, before: int)
    requires m <= |hist| && forall j :: 0 <= j < m ==> hist[j].stamp < before
    ensures Remembers(hist[m..], hist, before)
  {
  }

  /** Readings after the window of `t` do not count. */
  lemma {:induction false} TallyOfLater(hist: seq<Acceleration>, at: nat, t: int, window: int)
    requires at <= |hist| && forall j :: at <= j < |hist| ==> hist[j].stamp > t
    ensures TallyOf(hist, t, window) == TallyOf(hist[..at], t, window)
  {
    if at < |hist| {
      TallyOfLater(hist[..|hist| - 1], at, t, window);
      assert hist[..|hist| - 1][..at] == hist[..at];
    } else {
      assert hist[..at] == hist;
    }
  }

  lemma {:induction false} TallyCounts(hist: seq<Acceleration>, at: nat, t: int, window: int)
    requires at <= |hist|
    ensures TallyOf(hist, t, window).n >= TallyOf(hist[..at], t, window).n
    ensures (exists j :: at <= j < |hist| && InWindow(hist[j], t, window)) ==>
              TallyOf(hist, t, window).n > TallyOf(hist[..at], t, window).n
  {
    if at < |hist| {
      TallyCounts(hist[..|hist| - 1], at, t, window);
      assert hist[..|hist| - 1][..at] == hist[..at];
    } else {
      assert hist[..at] == hist;
    }
  }

  // ----- Gravity of a keyframe -----

  function OnlyGravity<G>(aux: seq<Aux<G>>): seq<Aux<G>> {
    if aux == [] then []
    else OnlyGravity(aux[..|aux| - 1]) + if aux[|aux| - 1].GravityAux? then [aux[|aux| - 1]] else []
  }

  lemma OnlyGravityAdd<G>(aux: seq<Aux<G>>, o: Aux<G>)
    ensures OnlyGravity(aux + [o]) == OnlyGravity(aux) + if o.GravityAux? then [o] else []
  {
    assert (aux + [o])[..|aux|] == aux;
  }

  /** No replacement ever removes gravity. */
  lemma {:induction false} OnlyGravityWithout<G>(aux: seq<Aux<G>>, remove: Option<Aux<G>>)
    ensures OnlyGravity(Without(aux, remove)) == OnlyGravity(aux)
  {
    if aux != [] {
      hide OnlyGravity;
      var n := |aux| - 1;
      var w := Without(aux[..n], remove);
      OnlyGravityWithout(aux[..n], remove);
      assert aux == aux[..n] + [aux[n]];
      OnlyGravityAdd(aux[..n], aux[n]);
      if remove.Some? && Same(aux[n], remove.value) {
        assert w + [] == w && OnlyGravity(aux[..n]) + [] == OnlyGravity(aux[..n]);
      } else {
        OnlyGravityAdd(w, aux[n]);
      }
    }
  }

  lemma OnlyGravityReplaced<G>(aux: seq<Aux<G>>, remove: Option<Aux<G>>, add: Aux<G>)
    ensures OnlyGravity(Replaced(aux, remove, add)) == OnlyGravity(aux) + if add.GravityAux? then [add] else []
  {
    OnlyGravityAdd(Without(aux, remove), add);
    OnlyGravityWithout(aux, remove);
  }

  ghost predicate SameGravity<G>(a: seq<Keyframe<G>>, b: seq<Keyframe<G>>) {
    |a| == |b| && forall i :: 0 <= i < |a| ==>
      a[i].stamp == b[i].stamp && OnlyGravity(a[i].aux) == OnlyGravity(b[i].aux)
  }

  lemma AttachKeepsGravity<G>(kfs: seq<Keyframe<G>>, c: Choice, slot: string, o: Aux<G>)
    requires (c.Attach? ==> c.at < |kfs|) && !o.GravityAux?
    ensures SameGravity(AttachAt(kfs, c, slot, o), kfs)
  {
    hide Replaced, OnlyGravity;
    if c.Attach? {
      var kf := kfs[c.at];
      OnlyGravityReplaced(kf.aux, if slot in kf.nearest then Some(kf.nearest[slot].obs) else None, o);
      assert OnlyGravity(kf.aux) + [] == OnlyGravity(kf.aux);
    }
  }

  lemma {:induction false} GnssKeepsGravity<G>(maxOffset: int, x: GnssPart<G>, rs: seq<Reading>)
    ensures SameGravity(AttachAllGnss(maxOffset, x, rs).kfs, x.kfs)
    decreases |rs|
  {
    if rs != [] {
      hide Choose, AttachAt, OnlyGravity;
      GnssKeepsGravity(maxOffset, x, rs[..|rs| - 1]);
      var y := AttachAllGnss(maxOffset, x, rs[..|rs| - 1]);
      var r := rs[|rs| - 1];
      AttachKeepsGravity(y.kfs, Choose(y.kfs, r.stamp, GNSS, maxOffset), GNSS, GnssAux(r));
    }
  }

  lemma {:induction false} ImagesKeepGravity<G>(maxOffset: int, x: ImagePart<G>, ps: seq<Picture>)
    ensures SameGravity(AttachAllImages(maxOffset, x, ps).kfs, x.kfs)
    decreases |ps|
  {
    if ps != [] {
      hide Choose, AttachAt, OnlyGravity;
      ImagesKeepGravity(maxOffset, x, ps[..|ps| - 1]);
      var y := AttachAllImages(maxOffset, x, ps[..|ps| - 1]);
      var p := ps[|ps| - 1];
      var slot := ImageSlot(p.sensor);
      AttachKeepsGravity(y.kfs, Choose(y.kfs, p.stamp, slot, maxOffset), slot, PictureAux(p));
    }
  }

  lemma FinishOneKeepsGravity<G>(toFiles: bool, x: ImagePart<G>, e: (nat, string))
    requires HoldsPicture(x.kfs, e)
    ensures SameGravity(FinishOne(toFiles, x, e).kfs, x.kfs)
  {
    hide Replaced, OnlyGravity;
    var kf := x.kfs[e.0];
    var o := kf.nearest[e.1].obs;
    OnlyGravityReplaced(kf.aux, Some(o), FileAux(o.picture));
    assert OnlyGravity(kf.aux) + [] == OnlyGravity(kf.aux);
  }

  lemma {:induction false} FinishKeepsGravity<G>(
    toFiles: bool, x: ImagePart<G>, es: seq<(nat, string)>, newest: Option<(string, int)>)
    ensures SameGravity(FinishEach(toFiles, x, es, newest).kfs, x.kfs)
    decreases |es|
  {
    if es != [] {
      hide FinishOne, OnlyGravity;
      FinishKeepsGravity(toFiles, x, es[..|es| - 1], newest);
      var y := FinishEach(toFiles, x, es[..|es| - 1], newest);
      if HoldsPicture(y.kfs, es[|es| - 1]) {
        FinishOneKeepsGravity(toFiles, y, es[|es| - 1]);
      }
    }
  }

  /** What a keyframe of time `t` should hold, given the readings `hist`. */
  function Expected<G>(rule: GravityRule, sensor: string, pose: G, hist: seq<Acceleration>, t: int): seq<Aux<G>> {
    var tally := TallyOf(hist, t, rule.window);
    if sensor != "" && tally.n >= rule.minSamples then [GravityAux(Gravity(sensor, pose, t, tally))] else []
  }

  lemma WithGravityExpected<G>(rule: GravityRule, imu: Imu<G>, kf: Keyframe<G>)
    requires OnlyGravity(kf.aux) == []
    ensures
      var out := WithGravity(rule, imu, kf);
      && out.stamp == kf.stamp
      && OnlyGravity(out.aux) == Expected(rule, imu.sensor, imu.sensorPose, imu.samples, kf.stamp)
  {
    hide Replaced, TallyOf;
    var g := Gravity(imu.sensor, imu.sensorPose, kf.stamp, TallyOf(imu.samples, kf.stamp, rule.window));
    OnlyGravityReplaced(kf.aux, None, GravityAux(g));
  }

  // ----- Resolving pending keyframes -----

  /** Pending keyframes are listed oldest first. */
  ghost predicate Queued(q: seq<nat>, n: nat) {
    (forall i :: 0 <= i < |q| ==> q[i] < n) && (forall i, j :: 0 <= i < j < |q| ==> q[i] < q[j])
  }

  /** The keyframes older than `t` got their gravity, the others still wait. */
  ghost predicate ResolvedAt<G>(rule: GravityRule, x: ImuPart<G>, y: ImuPart<G>, t: int) {
    && y.imu == x.imu.(pending := y.imu.pending) && Queued(y.imu.pending, |x.kfs|)
    && |y.kfs| == |x.kfs|
    && (forall k :: 0 <= k < |x.kfs| ==> (k in y.imu.pending <==> k in x.imu.pending && t <= x.kfs[k].stamp))
    && (forall k :: 0 <= k < |x.kfs| ==>
          y.kfs[k] == if k in x.imu.pending && x.kfs[k].stamp < t then WithGravity(rule, x.imu, x.kfs[k]) else x.kfs[k])
  }

  lemma WithGravityOfSamples<G>(rule: GravityRule, imu: Imu<G>, q: seq<nat>, kf: Keyframe<G>)
    ensures WithGravity(rule, imu.(pending := q), kf) == WithGravity(rule, imu, kf)
    ensures WithGravity(rule, imu, kf).stamp == kf.stamp
  {
  }

  lemma ResolveOne<G>(rule: GravityRule, x: ImuPart<G>, x1: ImuPart<G>, y: ImuPart<G>, t: int)
    requires Queued(x.imu.pending, |x.kfs|) && x.imu.pending != [] && x.kfs[x.imu.pending[0]].stamp < t
    requires
      var q := x.imu.pending;
      x1 == ImuPart(x.kfs[q[0] := WithGravity(rule, x.imu, x.kfs[q[0]])], x.imu.(pending := q[1..]))
    requires ResolvedAt(rule, x1, y, t)
    ensures ResolvedAt(rule, x, y, t)
  {
    hide WithGravity;
    var q := x.imu.pending;
    assert q == [q[0]] + q[1..];
    assert forall i :: 0 < i < |q| ==> q[i] != q[0];
    forall k | 0 <= k < |x.kfs|
      ensures WithGravity(rule, x1.imu, x.kfs[k]) == WithGravity(rule, x.imu, x.kfs[k])
      ensures WithGravity(rule, x.imu, x.kfs[k]).stamp == x.kfs[k].stamp {
      WithGravityOfSamples(rule, x.imu, q[1..], x.kfs[k]);
    }
  }

  lemma ResolveNone<G>(rule: GravityRule, x: ImuPart<G>, t: int)
    requires Increasing(x.kfs) && Queued(x.imu.pending, |x.kfs|)
    requires x.imu.pending != [] ==> t <= x.kfs[x.imu.pending[0]].stamp
    ensures ResolvedAt(rule, x, x, t)
  {
    var q := x.imu.pending;
    forall k | k in q ensures t <= x.kfs[k].stamp {
      var i :| 0 <= i < |q| && q[i] == k;
      assert i > 0 ==> x.kfs[q[0]].stamp < x.kfs[q[i]].stamp;
    }
  }

  lemma {:induction false} ResolveMeans<G>(rule: GravityRule, x: ImuPart<G>, t: int)
    requires Increasing(x.kfs) && Queued(x.imu.pending, |x.kfs|)
    ensures ResolvedAt(rule, x, ResolveGravity(rule, x, t), t)
    decreases |x.imu.pending|
  {
    hide WithGravity, ResolvedAt;
    var q := x.imu.pending;
    if q != [] && x.kfs[q[0]].stamp < t {
      WithGravityOfSamples(rule, x.imu, q, x.kfs[q[0]]);
      var x1 := ImuPart(x.kfs[q[0] := WithGravity(rule, x.imu, x.kfs[q[0]])], x.imu.(pending := q[1..]));
      ResolveMeans(rule, x1, t);
      ResolveOne(rule, x, x1, ResolveGravity(rule, x1, t), t);
    } else {
      ResolveNone(rule, x, t);
    }
  }

  // ----- Every reachable state -----

  /** What became of the gravity of a keyframe: still waiting, or settled when `at` readings had
      arrived, from the queue (`waited`) or on arrival. `known`: its window could not have been
      forgotten then. */
  datatype Fate<G> = Waiting | Settled(at: nat, sensor: string, pose: G, waited: bool, known: bool)

  /** One keyframe and its fate. */
  ghost predicate Follows<G>(rule: GravityRule, kf: Keyframe<G>, fate: Fate<G>, hist: seq<Acceleration>) {
    match fate
    case Waiting =>
      OnlyGravity(kf.aux) == [] && forall j :: 0 <= j < |hist| ==> hist[j].stamp <= kf.stamp
    case Settled(at, sensor, pose, waited, known) =>
      && at <= |hist| && |OnlyGravity(kf.aux)| <= 1
      && (waited ==> known && at > 0 && kf.stamp < hist[at - 1].stamp)
      && (known ==> OnlyGravity(kf.aux) == Expected(rule, sensor, pose, hist[..at], kf.stamp))
      && (rule.useImu && OnlyGravity(kf.aux) == [] ==> at > 0 && kf.stamp <= hist[at - 1].stamp)
  }

  /** The readings kept: the newest one, and enough of those before it. */
  ghost predicate Kept<G>(rule: GravityRule, imu: Imu<G>, hist: seq<Acceleration>) {
    if hist == [] then imu.samples == []
    else
      var t := hist[|hist| - 1].stamp;
      && imu.samples != [] && imu.samples[|imu.samples| - 1] == hist[|hist| - 1]
      && Remembers(imu.samples, hist, t - (rule.window + GRAVITY_KEEP))
  }

  /** After readings `hist`. */
  ghost predicate GravityInvariant<G>(
    rule: GravityRule, kfs: seq<Keyframe<G>>, imu: Imu<G>, hist: seq<Acceleration>, fates: seq<Fate<G>>)
  {
    && Queued(imu.pending, |kfs|) && |fates| == |kfs|
    && Kept(rule, imu, hist)
    && (forall k :: 0 <= k < |kfs| ==> (k in imu.pending <==> fates[k].Waiting?))
    && (forall k :: 0 <= k < |kfs| ==> Follows(rule, kfs[k], fates[k], hist))
  }

  lemma FollowsSame<G>(
    rule: GravityRule, a: seq<Keyframe<G>>, b: seq<Keyframe<G>>, imu: Imu<G>, hist: seq<Acceleration>,
        fates: seq<Fate<G>>)
    requires GravityInvariant(rule, b, imu, hist, fates) && SameGravity(a, b)
    ensures GravityInvariant(rule, a, imu, hist, fates)
  {
    hide Expected, OnlyGravity, Remembers;
    forall k | 0 <= k < |a| ensures Follows(rule, a[k], fates[k], hist) {
      assert Follows(rule, b[k], fates[k], hist);
    }
  }

  /** The fate of a keyframe inserted now. */
  ghost function FateOfNew<G>(rule: GravityRule, imu: Imu<G>, hist: seq<Acceleration>, t: int): Fate<G> {
    var behind := rule.useImu && (imu.samples == [] || imu.samples[|imu.samples| - 1].stamp < t);
    if behind && !EnoughGravity(rule, imu, t) then Waiting
    else Settled(|hist|, imu.sensor, imu.sensorPose, false, hist == [] || hist[|hist| - 1].stamp - t <= GRAVITY_KEEP)
  }

  lemma NewFollows<G>(rule: GravityRule, imu: Imu<G>, hist: seq<Acceleration>, kf: Keyframe<G>)
    requires Kept(rule, imu, hist) && Timely(hist) && OnlyGravity(kf.aux) == []
    ensures Follows(rule, WithGravity(rule, imu, kf), FateOfNew(rule, imu, hist, kf.stamp), hist)
  {
    WithGravityExpected(rule, imu, kf);
    hide OnlyGravity, WithGravity;
    assert hist[..|hist|] == hist;
    if hist != [] && hist[|hist| - 1].stamp - kf.stamp <= GRAVITY_KEEP {
      TallyOfRemembered(imu.samples, hist, hist[|hist| - 1].stamp - (rule.window + GRAVITY_KEEP), kf.stamp,
          rule.window);
    }
  }

  /** An accelerometer reading: `hist` gets it, and the keyframes older than it are settled. */
  ghost function FatesAfter<G>(
    fates: seq<Fate<G>>, kfs: seq<Keyframe<G>>, a: Acceleration, n: nat, sensor: string, pose: G): (out: seq<Fate<G>>)
    ensures |out| == |fates|
  {
    seq(|fates|, k requires 0 <= k < |fates| =>
      if fates[k].Waiting? && k < |kfs| && kfs[k].stamp < a.stamp then Settled(n, sensor, pose, true, true)
      else fates[k])
  }

  lemma ResolvedFollows<G>(rule: GravityRule, imu: Imu<G>, all: seq<Acceleration>, before: int, kf: Keyframe<G>)
    requires OnlyGravity(kf.aux) == [] && all != [] && kf.stamp < all[|all| - 1].stamp
    requires Remembers(imu.samples, all, before) && before <= kf.stamp - rule.window
    ensures Follows(rule, WithGravity(rule, imu, kf), Settled(|all|, imu.sensor, imu.sensorPose, true, true), all)
  {
    WithGravityExpected(rule, imu, kf);
    hide OnlyGravity, WithGravity, Remembers;
    assert all[..|all|] == all;
    TallyOfRemembered(imu.samples, all, before, kf.stamp, rule.window);
  }

  lemma SettledFollows<G>(rule: GravityRule, hist: seq<Acceleration>, a: Acceleration, kf: Keyframe<G>, fate: Fate<G>)
    requires Follows(rule, kf, fate, hist) && (fate.Waiting? ==> a.stamp <= kf.stamp)
    ensures Follows(rule, kf, fate, hist + [a])
  {
    hide Expected, OnlyGravity;
    var all := hist + [a];
    if fate.Settled? {
      assert all[..fate.at] == hist[..fate.at];
    }
  }

  /** Readings `samples`, with `a` not yet forgotten: enough for any keyframe not older than
      the readings `hist` before it. */
  ghost predicate Enough(rule: GravityRule, samples: seq<Acceleration>, hist: seq<Acceleration>, a: Acceleration) {
    if hist == [] then samples == [a]
    else Remembers(samples, hist + [a], hist[|hist| - 1].stamp - (rule.window + GRAVITY_KEEP))
  }

  lemma EnoughFor<G>(
    rule: GravityRule, samples: seq<Acceleration>, hist: seq<Acceleration>, a: Acceleration, kf: Keyframe<G>)
    returns (before: int)
    requires Enough(rule, samples, hist, a)
    requires Follows(rule, kf, Waiting, hist)
    ensures Remembers(samples, hist + [a], before) && before <= kf.stamp - rule.window
  {
    if hist == [] {
      before := kf.stamp - rule.window;
      assert samples == (hist + [a])[0..];
    } else {
      before := hist[|hist| - 1].stamp - (rule.window + GRAVITY_KEEP);
    }
  }

  lemma ReadingFollows<G>(
    rule: GravityRule, imu: Imu<G>, hist: seq<Acceleration>, a: Acceleration, kf: Keyframe<G>, fate: Fate<G>)
    requires Follows(rule, kf, fate, hist) && Enough(rule, imu.samples, hist, a)
    ensures
      if fate.Waiting? && kf.stamp < a.stamp then
        Follows(rule, WithGravity(rule, imu, kf), Settled(|hist| + 1, imu.sensor, imu.sensorPose, true, true),
            hist + [a])
      else Follows(rule, kf, fate, hist + [a])
  {
    if fate.Waiting? && kf.stamp < a.stamp {
      var before := EnoughFor(rule, imu.samples, hist, a, kf);
      ResolvedFollows(rule, imu, hist + [a], before, kf);
    } else {
      SettledFollows(rule, hist, a, kf, fate);
    }
  }

  lemma {:induction false} NewestKept(a: seq<Acceleration>, t: int, keep: int)
    requires a != [] && a[|a| - 1].stamp == t && 0 <= keep
    ensures DropOldAccelerations(a, t, keep) != []
    ensures var s := DropOldAccelerations(a, t, keep); s[|s| - 1] == a[|a| - 1]
  {
    if t - a[0].stamp > keep {
      NewestKept(a[1..], t, keep);
    }
  }

  lemma EnoughAfter<G>(rule: GravityRule, imu: Imu<G>, hist: seq<Acceleration>, a: Acceleration)
    requires Kept(rule, imu, hist)
    ensures Enough(rule, imu.samples + [a], hist, a)
  {
    if hist != [] {
      RemembersAdded(imu.samples, hist, hist[|hist| - 1].stamp - (rule.window + GRAVITY_KEEP), a);
    }
  }

  lemma KeptAfter<G>(
    rule: GravityRule, imu: Imu<G>, samples: seq<Acceleration>, hist: seq<Acceleration>, a: Acceleration)
    requires Enough(rule, samples, hist, a) && samples != [] && samples[|samples| - 1] == a
    requires Timely(hist + [a]) && 0 <= rule.window
    requires imu.samples == DropOldAccelerations(samples, a.stamp, rule.window + GRAVITY_KEEP)
    ensures Kept(rule, imu, hist + [a])
  {
    var all, keep := hist + [a], rule.window + GRAVITY_KEEP;
    NewestKept(samples, a.stamp, keep);
    if hist == [] {
      assert samples == all[0..];
      assert Remembers(samples, all, a.stamp - keep);
      RemembersDropped(samples, all, a.stamp - keep, a.stamp, keep);
    } else {
      assert all[|hist| - 1].stamp <= all[|hist|].stamp;
      hide Remembers;
      RemembersDropped(samples, all, hist[|hist| - 1].stamp - keep, a.stamp, keep);
    }
  }

  lemma ReadingKeepsInvariant<G>(
    rule: GravityRule, x: ImuPart<G>, hist: seq<Acceleration>, fates: seq<Fate<G>>,
    t: int, sensor: string, pose: G, acc: Vec)
    requires GravityInvariant(rule, x.kfs, x.imu, hist, fates) && Increasing(x.kfs) && 0 <= rule.window
    requires x.imu.sensor == "" || x.imu.sensor == sensor
    requires Timely(hist + [Acceleration(t, acc)])
    ensures
      var a := Acceleration(t, acc);
      var y := AddGravitySample(rule, x, t, sensor, pose, acc);
      GravityInvariant(rule, y.kfs, y.imu, hist + [a], FatesAfter(fates, x.kfs, a, |hist| + 1, sensor, pose))
  {
    hide Follows, Kept, Enough, WithGravity, Timely, DropOldAccelerations;
    var a := Acceleration(t, acc);
    var imu := x.imu.(sensor := sensor, samples := x.imu.samples + [a], sensorPose := pose);
    EnoughAfter(rule, x.imu, hist, a);
    ResolveMeans(rule, ImuPart(x.kfs, imu), t);
    var r := ResolveGravity(rule, ImuPart(x.kfs, imu), t);
    var y := AddGravitySample(rule, x, t, sensor, pose, acc);
    KeptAfter(rule, y.imu, imu.samples, hist, a);
    forall k | 0 <= k < |x.kfs|
      ensures Follows(rule, r.kfs[k], FatesAfter(fates, x.kfs, a, |hist| + 1, sensor, pose)[k], hist + [a]) {
      ReadingFollows(rule, imu, hist, a, x.kfs[k], fates[k]);
    }
  }

  // ----- Whole runs -----

  /** Whether a reading is taken: the first accelerometer heard is the only one used. */
  predicate Hears<G(!new)>(cfg: Config<G>, imu: Imu<G>, o: Observation<G>) {
    UsesGravity(cfg, o) && (imu.sensor == "" || imu.sensor == o.sensor)
  }

  /** The readings taken during a run, in order, and what became of each keyframe. */
  datatype History<G> = History(hist: seq<Acceleration>, fates: seq<Fate<G>>)

  ghost function HistoryStep<G(!new)>(cfg: Config<G>, s: State<G>, h: History<G>, op: Op<G>): History<G>
  {
    match op
    case Input(KeyframeEvent(req, _)) =>
      if !Accepts(s, req) then h
      else h.(fates := h.fates + [FateOfNew(RuleOf(cfg), s.imu, h.hist, req.stamp)])
    case Input(ObservationEvent(o)) =>
      if s.finalized || !Hears(cfg, s.imu, o) then h
      else
        var a := Acceleration(o.stamp, o.acc.value);
        History(h.hist + [a], FatesAfter(h.fates, s.kfs, a, |h.hist| + 1, o.sensor, o.sensorPose))
    case _ => h
  }

  ghost function HistoryOf<G(!new)>(
    cfg: Config<G>, opt: GraphInput<G> -> GraphResult<G>, ops: seq<Op<G>>): History<G>
    decreases |ops|
  {
    if ops == [] then History([], [])
    else
      var n := |ops| - 1;
      HistoryStep(cfg, StateAfter(cfg, opt, ops[..n]), HistoryOf(cfg, opt, ops[..n]), ops[n])
  }

  /** The state agrees with the history. */
  ghost predicate Agrees<G(!new)>(cfg: Config<G>, s: State<G>, h: History<G>) {
    GravityInvariant(RuleOf(cfg), s.kfs, s.imu, h.hist, h.fates)
  }

  lemma AppendedAgrees<G(!new)>(cfg: Config<G>, s: State<G>, req: Request<G>, bias: GyroBias, h: History<G>)
    requires Agrees(cfg, s, h) && Timely(h.hist)
    ensures
      var fate := FateOfNew(RuleOf(cfg), s.imu, h.hist, req.stamp);
      Agrees(cfg, Appended(cfg, s, req, bias), h.(fates := h.fates + [fate]))
  {
    hide Kept, Follows, WithGravity, GyroRotationSince, EnoughGravity, Timely, ChainPose;
    var rule := RuleOf(cfg);
    var kf := Keyframe(req.stamp, req.frame, req.src, req.scan, [], map[], req.src, None);
    var fate := FateOfNew(rule, s.imu, h.hist, req.stamp);
    NewFollows(rule, s.imu, h.hist, kf);
    var t := Appended(cfg, s, req, bias);
    var n := |s.kfs|;
    FollowsOther(rule, WithGravity(rule, s.imu, kf), t.kfs[n], fate, h.hist);
    KeptOfSame(rule, s.imu, t.imu, h.hist);
    forall k | 0 <= k < |t.kfs| ensures k in t.imu.pending <==> (h.fates + [fate])[k].Waiting? {
      if k < n && t.imu != s.imu {
        assert t.imu.pending == s.imu.pending + [n];
      }
    }
    assert t.kfs == s.kfs + [t.kfs[n]];
  }

  lemma FollowsOther<G>(rule: GravityRule, a: Keyframe<G>, b: Keyframe<G>, fate: Fate<G>, hist: seq<Acceleration>)
    requires Follows(rule, a, fate, hist) && a.stamp == b.stamp && a.aux == b.aux
    ensures Follows(rule, b, fate, hist)
  {
  }

  lemma KeptOfSame<G>(rule: GravityRule, a: Imu<G>, b: Imu<G>, hist: seq<Acceleration>)
    requires Kept(rule, a, hist) && a.samples == b.samples
    ensures Kept(rule, b, hist)
  {
  }

  /** Trying the pending readings and images touches no gravity. */
  lemma RetryKeepsGravity<G(!new)>(cfg: Config<G>, s: State<G>)
    ensures
      var t := RetryImages(cfg, RetryGnss(cfg, s));
      SameGravity(t.kfs, s.kfs) && t.imu == s.imu && t.finalized == s.finalized
  {
    hide AttachAllGnss, AttachAllImages, OnlyGravity;
    GnssKeepsGravity(cfg.gnssMaxOffset, GnssPart(s.kfs, [], s.newData), s.pendingGnss);
    var s1 := RetryGnss(cfg, s);
    ImagesKeepGravity(cfg.imageMaxOffset, ImagePart(s1.kfs, s1.images.(pending := [])), s1.images.pending);
  }

  lemma InsertAgrees<G(!new)>(cfg: Config<G>, s: State<G>, req: Request<G>, bias: GyroBias, h: History<G>)
    requires Agrees(cfg, s, h) && Timely(h.hist)
    ensures Agrees(cfg, Insert(cfg, s, req, bias), HistoryStep(cfg, s, h, Input(KeyframeEvent(req, bias))))
  {
    hide Agrees, RetryGnss, RetryImages, Appended, FateOfNew;
    if Accepts(s, req) {
      var s1 := Logged(cfg, s, KeyframeEntry(req, bias));
      LoggedAgrees(cfg, s, KeyframeEntry(req, bias), h);
      AppendedAgrees(cfg, s1, req, bias, h);
      var s2 := Appended(cfg, s1, req, bias);
      RetryKeepsGravity(cfg, s2);
      SameAgrees(cfg, s2, Insert(cfg, s, req, bias), HistoryStep(cfg, s, h, Input(KeyframeEvent(req, bias))));
    } else {
      LoggedAgrees(cfg, s, KeyframeEntry(req, bias), h);
    }
  }

  lemma LoggedAgrees<G(!new)>(cfg: Config<G>, s: State<G>, e: LogEntry<G>, h: History<G>)
    requires Agrees(cfg, s, h)
    ensures Agrees(cfg, Logged(cfg, s, e), h)
  {
    hide GravityInvariant;
  }

  lemma SameAgrees<G(!new)>(cfg: Config<G>, s: State<G>, t: State<G>, h: History<G>)
    requires Agrees(cfg, s, h) && SameGravity(t.kfs, s.kfs) && t.imu == s.imu
    ensures Agrees(cfg, t, h)
  {
    hide GravityInvariant;
    FollowsSame(RuleOf(cfg), t.kfs, s.kfs, s.imu, h.hist, h.fates);
  }

  lemma SameAuxSameGravity<G>(a: seq<Keyframe<G>>, b: seq<Keyframe<G>>)
    requires |a| == |b| && forall i :: 0 <= i < |a| ==> a[i].stamp == b[i].stamp && a[i].aux == b[i].aux
    ensures SameGravity(a, b)
  {
  }

  lemma AddImageKeepsGravity<G(!new)>(cfg: Config<G>, s: State<G>, p: Picture)
    ensures var t := AddImage(cfg, s, p); SameGravity(t.kfs, s.kfs) && t.imu == s.imu
  {
    hide AttachAllImages, FinishEach, OnlyGravity;
    var x := ImagePart(s.kfs, s.images.(pending := s.images.pending + [p]));
    ImagesKeepGravity(cfg.imageMaxOffset, x.(im := x.im.(pending := [])), x.im.pending);
    var y := RetryImagePart(cfg.imageMaxOffset, x);
    FinishKeepsGravity(cfg.imageDir, y.(im := y.im.(unwritten := [])), y.im.unwritten, Some((p.sensor, p.stamp)));
  }

  lemma ObserveAgrees<G(!new)>(cfg: Config<G>, s: State<G>, o: Observation<G>, h: History<G>)
    requires Agrees(cfg, s, h) && Increasing(s.kfs) && 0 <= cfg.gravityWindow
    requires Timely(HistoryStep(cfg, s, h, Input(ObservationEvent(o))).hist)
    ensures Agrees(cfg, Observe(cfg, s, o), HistoryStep(cfg, s, h, Input(ObservationEvent(o))))
  {
    hide GravityInvariant, AddGravitySample, AddImage, AttachGnss, FatesAfter, Timely, SameGravity, Increasing;
    var t := Observe(cfg, s, o);
    if s.finalized {
    } else if UsesImage(cfg, o) {
      AddImageKeepsGravity(cfg, s, o.picture);
      SameAgrees(cfg, s, t, h);
    } else if UsesGnss(cfg, o) {
      var x := GnssPart(s.kfs, s.pendingGnss, s.newData);
      OneGnssKeepsGravity(cfg.gnssMaxOffset, x, o.reading);
      SameAgrees(cfg, s, t, h);
    } else if Hears(cfg, s.imu, o) {
      ReadingKeepsInvariant(RuleOf(cfg), ImuPart(s.kfs, s.imu), h.hist, h.fates, o.stamp, o.sensor, o.sensorPose,
          o.acc.value);
    } else if UsesGravity(cfg, o) {
      NotHeard(RuleOf(cfg), ImuPart(s.kfs, s.imu), o.stamp, o.sensor, o.sensorPose, o.acc.value);
    }
  }

  lemma NotHeard<G>(rule: GravityRule, x: ImuPart<G>, t: int, sensor: string, pose: G, acc: Vec)
    requires x.imu.sensor != "" && x.imu.sensor != sensor
    ensures AddGravitySample(rule, x, t, sensor, pose, acc) == x
  {
  }

  lemma OneGnssKeepsGravity<G>(maxOffset: int, x: GnssPart<G>, r: Reading)
    ensures SameGravity(AttachGnss(maxOffset, x, r).kfs, x.kfs)
  {
    hide Choose, AttachAt, OnlyGravity;
    AttachKeepsGravity(x.kfs, Choose(x.kfs, r.stamp, GNSS, maxOffset), GNSS, GnssAux(r));
  }

  lemma CommitAgrees<G(!new)>(cfg: Config<G>, s: State<G>, r: GraphResult<G>, h: History<G>)
    requires Agrees(cfg, s, h)
    ensures Agrees(cfg, Commit(cfg.m, s, r), h)
  {
    hide Agrees, CommittedPoses;
    var t := Commit(cfg.m, s, r);
    SameAuxSameGravity(t.kfs, s.kfs);
    SameAgrees(cfg, s, t, h);
  }

  lemma TimelyPrefix(a: seq<Acceleration>, b: seq<Acceleration>)
    requires Timely(b) && a <= b
    ensures Timely(a)
  {
  }

  lemma HistoryGrows<G(!new)>(cfg: Config<G>, s: State<G>, h: History<G>, op: Op<G>)
    ensures h.hist <= HistoryStep(cfg, s, h, op).hist
  {
  }

  lemma MergeAgrees<G(!new)>(cfg: Config<G>, s: State<G>, edges: seq<Edge<G>>, h: History<G>)
    requires Agrees(cfg, s, h)
    ensures Agrees(cfg, Merge(cfg, s, edges), h)
  {
  }

  /** In every reachable state, the gravity of each keyframe is what its fate says, and what
      has been forgotten is not needed any more. */
  lemma {:induction false} GravityFollowsHistory<G(!new)>(
    cfg: Config<G>, opt: GraphInput<G> -> GraphResult<G>, ops: seq<Op<G>>)
    requires 0 <= cfg.gravityWindow && Timely(HistoryOf(cfg, opt, ops).hist)
    ensures Agrees(cfg, StateAfter(cfg, opt, ops), HistoryOf(cfg, opt, ops))
    decreases |ops|
  {
    if ops != [] {
      hide Agrees, GnssInvariant, Insert, Observe, Commit, MergeAll, Snapshot, HistoryStep, Timely;
      var n := |ops| - 1;
      var s, h := StateAfter(cfg, opt, ops[..n]), HistoryOf(cfg, opt, ops[..n]);
      HistoryGrows(cfg, s, h, ops[n]);
      TimelyPrefix(h.hist, HistoryOf(cfg, opt, ops).hist);
      GravityFollowsHistory(cfg, opt, ops[..n]);
      OnlineRefinesOffline(cfg, opt, ops[..n]);
      OpAgrees(cfg, opt, DoAll(cfg, opt, Concurrent(InitialState(cfg.m), None, 0), ops[..n]), ops[n], h,
          Received(cfg, ops[..n]));
    } else {
      hide Increasing;
    }
  }

  lemma OpAgrees<G(!new)>(
    cfg: Config<G>, opt: GraphInput<G> -> GraphResult<G>, c: Concurrent<G>, op: Op<G>, h: History<G>, rs: seq<Reading>)
    requires 0 <= cfg.gravityWindow && Agrees(cfg, c.s, h) && GnssInvariant(cfg, c.s, rs)
    requires Timely(h.hist) && Timely(HistoryStep(cfg, c.s, h, op).hist)
    ensures Agrees(cfg, Do(cfg, opt, c, op).s, HistoryStep(cfg, c.s, h, op))
  {
    hide Agrees, WellSlotted, HoldsClosest, Newer, Insert, Observe, Commit, MergeAll, Snapshot, Timely, Increasing;
    match op
    case Input(KeyframeEvent(req, bias)) => InsertAgrees(cfg, c.s, req, bias, h);
    case Input(ObservationEvent(o)) => ObserveAgrees(cfg, c.s, o, h);
    case Input(LoopsEvent(edges)) => MergeAgrees(cfg, c.s, edges, h);
    case SolveBegins =>
    case SolveEnds =>
      if c.flight.Some? {
        CommitAgrees(cfg, c.s, c.flight.value, h);
      }
  }

  // ----- What it means for a keyframe -----

  lemma {:induction false} TallySame(hist: seq<Acceleration>, at: nat, t: int, window: int)
    requires 0 < at <= |hist| && Timely(hist) && 0 <= window && t <= hist[at - 1].stamp
    ensures TallyOf(hist[..at], t, window) == TallyOf(hist, t, window)
       <==> forall j :: at <= j < |hist| ==> hist[j].stamp != t
  {
    hide TallyOf;
    assert forall j :: at <= j < |hist| ==> hist[at - 1].stamp <= hist[j].stamp;
    if forall j :: at <= j < |hist| ==> hist[j].stamp != t {
      TallyOfLater(hist, at, t, window);
    } else {
      var j :| at <= j < |hist| && hist[j].stamp == t;
      assert InWindow(hist[j], t, window);
      TallyCounts(hist, at, t, window);
    }
  }

  /** No keyframe holds two gravities, and a keyframe that still waits holds none. One whose
      window was known when it was settled averages the readings received until then: all
      those ever received in its window if it was resolved from the queue. If it was settled
      on arrival, with the readings already up to its time, then so it does if and only if no
      further reading of exactly its time came. */
  lemma GravityOfKeyframe<G(!new)>(cfg: Config<G>, s: State<G>, h: History<G>, k: nat)
    requires Agrees(cfg, s, h) && Timely(h.hist) && 0 <= cfg.gravityWindow && k < |s.kfs|
    ensures |h.fates| == |s.kfs| && |OnlyGravity(s.kfs[k].aux)| <= 1
    ensures h.fates[k].Waiting? <==> k in s.imu.pending
    ensures h.fates[k].Waiting? ==> OnlyGravity(s.kfs[k].aux) == []
    ensures
      var kf, f := s.kfs[k], h.fates[k];
      f.Settled? ==>
        && f.at <= |h.hist|
        && (f.known ==> OnlyGravity(kf.aux) == Expected(RuleOf(cfg), f.sensor, f.pose, h.hist[..f.at], kf.stamp))
        && (f.waited ==> OnlyGravity(kf.aux) == Expected(RuleOf(cfg), f.sensor, f.pose, h.hist, kf.stamp))
        && (f.at > 0 && kf.stamp <= h.hist[f.at - 1].stamp ==>
              (TallyOf(h.hist[..f.at], kf.stamp, cfg.gravityWindow) == TallyOf(h.hist, kf.stamp, cfg.gravityWindow)
               <==> forall j :: f.at <= j < |h.hist| ==> h.hist[j].stamp != kf.stamp))
  {
    var kf, f := s.kfs[k], h.fates[k];
    assert Follows(RuleOf(cfg), kf, f, h.hist);
    hide OnlyGravity, Kept, TallyOf;
    if f.Settled? && f.at > 0 && kf.stamp <= h.hist[f.at - 1].stamp {
      TallySame(h.hist, f.at, kf.stamp, cfg.gravityWindow);
      if f.waited {
        assert forall j :: f.at <= j < |h.hist| ==> h.hist[f.at - 1].stamp <= h.hist[j].stamp;
      }
    }
  }

  /** No gravity is missed: a keyframe without it waits for readings, none newer than it having come, or
      too few came in its window (if they had not been forgotten when it arrived, and no reading of
      exactly its time came later). */
  lemma NoGravityMeansTooFew<G(!new)>(cfg: Config<G>, s: State<G>, h: History<G>, k: nat)
    requires Agrees(cfg, s, h) && Timely(h.hist) && 0 <= cfg.gravityWindow && k < |s.kfs|
    requires cfg.useImu && OnlyGravity(s.kfs[k].aux) == []
    ensures |h.fates| == |s.kfs|
    ensures
      var kf, f := s.kfs[k], h.fates[k];
      if k in s.imu.pending then forall j :: 0 <= j < |h.hist| ==> h.hist[j].stamp <= kf.stamp
      else
        && f.Settled?
        && (f.known && f.sensor != "" && (forall j :: f.at <= j < |h.hist| ==> h.hist[j].stamp != kf.stamp) ==>
              TallyOf(h.hist, kf.stamp, cfg.gravityWindow).n < cfg.gravityMinSamples)
  {
    assert Follows(RuleOf(cfg), s.kfs[k], h.fates[k], h.hist);
    GravityOfKeyframe(cfg, s, h, k);
    hide OnlyGravity, TallyOf;
  }
}
