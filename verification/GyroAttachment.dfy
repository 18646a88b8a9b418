/** The gyroscope rotation of each keyframe. It is attached once, when the keyframe is inserted,
    from the readings kept then; readings are forgotten, and more of them come later. */
module GyroAttachment {
  import opened Basics
  import opened Motion
  import opened GyroIntegration
  import opened MapperTypes
  import opened MapperSpec
  import opened SolveAtomicity
  import opened GnssAttachment

  /** The mapper takes a reading only if it is newer than all before. */
  ghost predicate Strict(s: seq<GyroSample>) {
    forall i, j :: 0 <= i < j < |s| ==> s[i].stamp < s[j].stamp
  }

  lemma {:induction false} SameRates<G(!new)>(
    m: Motions<G>, a: seq<GyroSample>, b: seq<GyroSample>, t0: int, t1: int, bias: Vec)
    requires a != [] && b != [] && forall t :: t0 < t <= t1 ==> RateAt(a, t, bias) == RateAt(b, t, bias)
    ensures Rotation(m, a, t0, t1, bias) == Rotation(m, b, t0, t1, bias)
    ensures Angle(m, a, t0, t1, bias) == Angle(m, b, t0, t1, bias)
    decreases t1 - t0
  {
    if t0 < t1 {
      SameRates(m, a, b, t0, t1 - 1, bias);
    }
  }

  // ----- Forgotten readings -----

  /** The readings kept start before t1, or close enough to t0; or the keyframes are too far apart anyway. */
  predicate Reaches(s: seq<GyroSample>, t0: int, t1: int, maxGap: int) {
    s != [] && (s[0].stamp < t1 || s[0].stamp - t0 <= maxGap || maxGap < t1 - t0)
  }

  lemma CutsOfSuffix(s: seq<GyroSample>, n: nat, t0: int, t1: int, c: int)
    requires n <= |s| && forall j :: 0 <= j < n ==> s[j].stamp <= t0
    ensures Cut(s[n..], t0, t1, c) <==> Cut(s, t0, t1, c)
  {
    if i :| 0 <= i < |s| && s[i].stamp == c && t0 < c {
      assert s[n..][i - n] == s[i];
    }
    if i :| 0 <= i < |s| - n && s[n..][i].stamp == c {
      assert s[n + i] == s[n..][i];
    }
  }

  lemma SameCutsSameGaps(a: seq<GyroSample>, b: seq<GyroSample>, t0: int, t1: int, maxGap: int)
    requires forall c :: Cut(a, t0, t1, c) <==> Cut(b, t0, t1, c)
    ensures NoGap(a, t0, t1, maxGap) <==> NoGap(b, t0, t1, maxGap)
  {
    hide Cut;
    assert forall x, y :: Consecutive(a, t0, t1, x, y) <==> Consecutive(b, t0, t1, x, y);
  }

  lemma RateOfSuffix(s: seq<GyroSample>, n: nat, t: int, bias: Vec)
    requires n < |s| && forall j :: 0 <= j < n ==> s[j].stamp < t
    ensures RateAt(s[n..], t, bias) == RateAt(s, t, bias)
  {
    var i, k := AtOrAfter(s, t), AtOrAfter(s[n..], t);
    assert n <= i;
    assert k < |s| - n ==> s[n..][k] == s[n + k];
    assert i < |s| ==> s[n..][i - n] == s[i];
    assert i == n + k;
  }

  /** Without readings up to t0 that were forgotten: covered, if it was, exactly when the readings
      kept reach back far enough. */
  lemma CoveredSuffix(s: seq<GyroSample>, n: nat, t0: int, t1: int, maxGap: int)
    requires 0 < n < |s| && t0 < t1 && Ordered(s) && forall j :: 0 <= j < n ==> s[j].stamp <= t0
    ensures Covered(s[n..], t0, t1, maxGap) <==> Covered(s, t0, t1, maxGap) && Reaches(s[n..], t0, t1, maxGap)
  {
    var kept := s[n..];
    forall c ensures Cut(kept, t0, t1, c) <==> Cut(s, t0, t1, c) {
      CutsOfSuffix(s, n, t0, t1, c);
    }
    SameCutsSameGaps(kept, s, t0, t1, maxGap);
    assert ReadingAfter(kept, t0) <==> ReadingAfter(s, t0) by {
      if i :| 0 <= i < |s| && t0 < s[i].stamp {
        assert kept[i - n] == s[i];
      }
      if i :| 0 <= i < |kept| && t0 < kept[i].stamp {
        assert s[n + i] == kept[i];
      }
    }
    FirstCut(kept, t0, t1);
    hide ReadingAfter;
  }

  /** The first cut after t0. */
  lemma FirstCut(s: seq<GyroSample>, t0: int, t1: int)
    requires s != [] && Ordered(s) && t0 < t1
    ensures t0 < s[0].stamp ==> Consecutive(s, t0, t1, t0, Min(s[0].stamp, t1))
  {
  }

  /** An integral over the readings kept is that over all of them, and not when they do not reach. */
  lemma IntegralOfSuffix<G(!new)>(
    m: Motions<G>, s: seq<GyroSample>, n: nat, t0: int, t1: int, bias: Vec, maxGap: int)
    requires 0 < n < |s| && t0 < t1 && Ordered(s) && forall j :: 0 <= j < n ==> s[j].stamp <= t0
    ensures Reaches(s[n..], t0, t1, maxGap) ==>
              Integral(m, s[n..], t0, t1, bias, maxGap) == Integral(m, s, t0, t1, bias, maxGap)
    ensures !Reaches(s[n..], t0, t1, maxGap) ==>
              Integral(m, s[n..], t0, t1, bias, maxGap) == None && Integral(m, s, t0, t1, bias, maxGap).Some?
  {
    CoveredSuffix(s, n, t0, t1, maxGap);
    forall t | t0 < t <= t1 ensures RateAt(s[n..], t, bias) == RateAt(s, t, bias) {
      RateOfSuffix(s, n, t, bias);
    }
    SameRates(m, s[n..], s, t0, t1, bias);
    if !Reaches(s[n..], t0, t1, maxGap) {
      FarReadingCovered(s, n, t0, t1, maxGap);
    }
  }

  lemma FarReadingCovered(s: seq<GyroSample>, n: nat, t0: int, t1: int, maxGap: int)
    requires 0 < n < |s| && t0 < t1 && Ordered(s) && forall j :: 0 <= j < n ==> s[j].stamp <= t0
    requires !Reaches(s[n..], t0, t1, maxGap)
    ensures Covered(s, t0, t1, maxGap)
  {
    assert s[n].stamp == s[n..][0].stamp;
    assert s[0].stamp <= t0;
    forall c ensures Cut(s, t0, t1, c) ==> c == t0 || c == t1 {
      if i :| 0 <= i < |s| && s[i].stamp == c && t0 < c < t1 {
        assert i >= n && s[n].stamp <= s[i].stamp;
      }
    }
    assert t0 < s[n].stamp;
  }

  // ----- Later readings -----

  lemma RateOfPrefix(a: seq<GyroSample>, b: seq<GyroSample>, t: int, bias: Vec)
    requires a <= b && a != [] && t <= a[|a| - 1].stamp
    ensures RateAt(a, t, bias) == RateAt(b, t, bias)
  {
    var i, k := AtOrAfter(a, t), AtOrAfter(b, t);
    assert i < |a| && b[i] == a[i];
    assert k < |a| && a[k] == b[k];
    assert i == k;
  }

  lemma CutsOfPrefix(a: seq<GyroSample>, b: seq<GyroSample>, t0: int, t1: int, c: int)
    requires a <= b && a != [] && Ordered(b) && t1 <= a[|a| - 1].stamp
    ensures Cut(a, t0, t1, c) <==> Cut(b, t0, t1, c)
  {
    assert b[|a| - 1] == a[|a| - 1];
    assert forall j :: |a| <= j < |b| ==> b[|a| - 1].stamp <= b[j].stamp;
    if i :| 0 <= i < |b| && b[i].stamp == c && c < t1 {
      assert a[i] == b[i];
    }
    if i :| 0 <= i < |a| && a[i].stamp == c {
      assert b[i] == a[i];
    }
  }

  /** Once a reading at or after t1 has come, no later one matters. */
  lemma IntegralIsFinal<G(!new)>(
    m: Motions<G>, a: seq<GyroSample>, b: seq<GyroSample>, t0: int, t1: int, bias: Vec, maxGap: int)
    requires a <= b && a != [] && Ordered(b) && t1 <= a[|a| - 1].stamp
    ensures Integral(m, a, t0, t1, bias, maxGap) == Integral(m, b, t0, t1, bias, maxGap)
  {
    forall c ensures Cut(a, t0, t1, c) <==> Cut(b, t0, t1, c) {
      CutsOfPrefix(a, b, t0, t1, c);
    }
    SameCutsSameGaps(a, b, t0, t1, maxGap);
    forall t | t0 < t <= t1 ensures RateAt(a, t, bias) == RateAt(b, t, bias) {
      RateOfPrefix(a, b, t, bias);
    }
    SameRates(m, a, b, t0, t1, bias);
    if t0 < t1 {
      assert t0 < a[|a| - 1].stamp && b[|a| - 1] == a[|a| - 1];
      assert a[0] == b[0];
    }
    hide NoGap;
  }

  /** More cut points leave no new gap. */
  lemma FinerHasNoGap(a: seq<GyroSample>, b: seq<GyroSample>, t0: int, t1: int, maxGap: int)
    requires t0 < t1 && NoGap(a, t0, t1, maxGap) && forall c :: Cut(a, t0, t1, c) ==> Cut(b, t0, t1, c)
    ensures NoGap(b, t0, t1, maxGap)
  {
    forall x, y | Consecutive(b, t0, t1, x, y) ensures y - x <= maxGap {
      assert t0 <= x < y <= t1;
      var x' := CutBefore(a, t0, t1, y);
      assert x' <= x;
      var y' := CutAfter(a, t0, t1, x');
      assert Consecutive(a, t0, t1, x', y') && y <= y';
    }
  }

  /** No rate turns like every other one. */
  ghost predicate Vivid<G(!new)>(m: Motions<G>) {
    forall w :: HasOther(m, w)
  }

  ghost predicate HasOther<G(!new)>(m: Motions<G>, w: Vec) {
    exists v :: m.exp(v, 1) != m.exp(w, 1)
  }

  lemma GridIsVivid()
    ensures Vivid(GridMotions())
  {
    var m := GridMotions();
    forall w: Vec ensures HasOther(m, w) {
      var v := Vec(0.0, 0.0, w.z.Floor as real + 1.0);
      assert v.z.Floor == w.z.Floor + 1;
      assert m.exp(v, 1).turn == (w.z.Floor + 1) % 4 && m.exp(w, 1).turn == w.z.Floor % 4;
    }
  }

  lemma Cancels<G(!new)>(m: Motions<G>, a: G, x: G, y: G, b: G)
    requires IsGroup(m) && m.mul(m.mul(a, x), b) == m.mul(m.mul(a, y), b)
    ensures x == y
  {
    var ax, ay := m.mul(a, x), m.mul(a, y);
    assert Associative(m, ax, b, m.inv(b)) && Associative(m, ay, b, m.inv(b)) && Inverses(m, b);
    assert Neutral(m, ax) && Neutral(m, ay);
    MinusPlus(m, a, x);
    MinusPlus(m, a, y);
  }

  /** Before that, the newest reading is only assumed to hold until t1, and another one may show
      that it did not. */
  lemma IntegralMayChange<G(!new)>(
    m: Motions<G>, a: seq<GyroSample>, t0: int, t1: int, bias: Vec, maxGap: int) returns (b: seq<GyroSample>)
    requires IsGroup(m) && Vivid(m) && Strict(a)
    requires Integral(m, a, t0, t1, bias, maxGap).Some? && a[|a| - 1].stamp < t1
    ensures a <= b && Strict(b)
    ensures
      var before, after := Integral(m, a, t0, t1, bias, maxGap), Integral(m, b, t0, t1, bias, maxGap);
      after.Some? && after.value.R != before.value.R
  {
    var newest := a[|a| - 1];
    var x := Sub(newest.w, bias);
    assert HasOther(m, x);
    var v :| m.exp(v, 1) != m.exp(x, 1);
    AfterStart(a, t0);
    var w := Vec(v.x + bias.x, v.y + bias.y, v.z + bias.z);
    ExtendedExtends(a, t1, w);
    b := Extended(a, t1, w);
    assert Sub(b[|a|].w, bias) == v;
    hide Strict, Covered, Vivid, Extends, Extended, Rotation;
    ExtendsIs(a, b, t1);
    ExtensionCovered(a, b, t0, t1, maxGap);
    ExtensionTurns(m, a, b, t0, t1, bias, v);
    var p, q := Rotation(m, a, t0, newest.stamp, bias), Rotation(m, a, newest.stamp + 1, t1, bias);
    if m.mul(m.mul(p, m.exp(x, 1)), q) == m.mul(m.mul(p, m.exp(v, 1)), q) {
      Cancels(m, p, m.exp(x, 1), m.exp(v, 1), q);
    }
  }

  lemma AfterStart(a: seq<GyroSample>, t0: int)
    requires Strict(a) && ReadingAfter(a, t0)
    ensures a != [] && t0 < a[|a| - 1].stamp
  {
  }

  /** One more reading, one tick later, and then the rate of before. */
  function Extended(a: seq<GyroSample>, t1: int, w: Vec): seq<GyroSample>
    requires a != []
  {
    var newest := a[|a| - 1];
    a + [GyroSample(newest.stamp + 1, w)] + if newest.stamp + 1 < t1 then [GyroSample(t1, newest.w)] else []
  }

  lemma ExtendedExtends(a: seq<GyroSample>, t1: int, w: Vec)
    requires Strict(a) && a != [] && a[|a| - 1].stamp < t1
    ensures Extends(a, Extended(a, t1, w), t1)
  {
    var b := Extended(a, t1, w);
    assert forall i :: 0 <= i < |a| ==> b[i] == a[i] && a[i].stamp <= a[|a| - 1].stamp;
  }

  /** The rotations with and without the extension, in three parts. */
  lemma ExtensionTurns<G(!new)>(
    m: Motions<G>, a: seq<GyroSample>, b: seq<GyroSample>, t0: int, t1: int, bias: Vec, v: Vec)
    requires IsGroup(m) && Extends(a, b, t1) && t0 < a[|a| - 1].stamp && Sub(b[|a|].w, bias) == v
    ensures
      var t := a[|a| - 1].stamp;
      var p, q := Rotation(m, a, t0, t, bias), Rotation(m, a, t + 1, t1, bias);
      && Rotation(m, a, t0, t1, bias) == m.mul(m.mul(p, m.exp(Sub(a[|a| - 1].w, bias), 1)), q)
      && Rotation(m, b, t0, t1, bias) == m.mul(m.mul(p, m.exp(v, 1)), q)
  {
    var t := a[|a| - 1].stamp;
    ExtensionRates(a, b, t1, bias);
    hide RateAt;
    SameRates(m, a, b, t0, t, bias);
    SameRates(m, a, b, t + 1, t1, bias);
    SplitInThree(m, a, t0, t, t1, bias);
    SplitInThree(m, b, t0, t, t1, bias);
  }

  lemma SplitInThree<G(!new)>(m: Motions<G>, s: seq<GyroSample>, t0: int, t: int, t1: int, bias: Vec)
    requires IsGroup(m) && s != [] && t0 <= t < t1
    ensures Rotation(m, s, t0, t1, bias) ==
      m.mul(m.mul(Rotation(m, s, t0, t, bias), m.exp(RateAt(s, t + 1, bias), 1)), Rotation(m, s, t + 1, t1, bias))
  {
    ReferenceSplits(m, s, t0, t + 1, t1, bias);
  }

  /** What the extended readings of IntegralMayChange are like. */
  ghost predicate Extends(a: seq<GyroSample>, b: seq<GyroSample>, t1: int) {
    a != [] && a <= b && |a| < |b| && Strict(b) &&
    var newest := a[|a| - 1];
    && b[|a|].stamp == newest.stamp + 1 <= t1
    && (if newest.stamp + 1 < t1 then |b| == |a| + 2 && b[|a| + 1] == GyroSample(t1, newest.w) else |b| == |a| + 1)
  }

  lemma ExtendsIs(a: seq<GyroSample>, b: seq<GyroSample>, t1: int)
    requires Extends(a, b, t1)
    ensures a <= b && Strict(b)
  {
  }

  lemma ExtensionCovered(a: seq<GyroSample>, b: seq<GyroSample>, t0: int, t1: int, maxGap: int)
    requires Extends(a, b, t1) && Covered(a, t0, t1, maxGap)
    ensures Covered(b, t0, t1, maxGap)
  {
    assert forall i :: 0 <= i < |a| ==> b[i] == a[i];
    FinerHasNoGap(a, b, t0, t1, maxGap);
  }

  /** Past the extra reading, the rate is that of before again. */
  lemma LastRates(a: seq<GyroSample>, b: seq<GyroSample>, t1: int, u: int, bias: Vec)
    requires Extends(a, b, t1) && a[|a| - 1].stamp + 1 < u <= t1
    ensures RateAt(a, u, bias) == RateAt(b, u, bias)
  {
    assert b[|a| - 1] == a[|a| - 1];
    assert AtOrAfter(a, u) == |a| && AtOrAfter(b, u) == |a| + 1;
  }

  lemma ExtensionRates(a: seq<GyroSample>, b: seq<GyroSample>, t1: int, bias: Vec)
    requires Extends(a, b, t1)
    ensures
      var t := a[|a| - 1].stamp;
      && (forall u :: u <= t ==> RateAt(a, u, bias) == RateAt(b, u, bias))
      && RateAt(a, t + 1, bias) == Sub(a[|a| - 1].w, bias) && RateAt(b, t + 1, bias) == Sub(b[|a|].w, bias)
      && (forall u :: t + 1 < u <= t1 ==> RateAt(a, u, bias) == RateAt(b, u, bias))
  {
    var t := a[|a| - 1].stamp;
    assert forall i :: 0 <= i < |a| ==> b[i] == a[i] && b[i].stamp <= b[|a| - 1].stamp;
    forall u | u <= t ensures RateAt(a, u, bias) == RateAt(b, u, bias) {
      RateOfPrefix(a, b, u, bias);
    }
    assert AtOrAfter(a, t + 1) == |a| && AtOrAfter(b, t + 1) == |a|;
    forall u | t + 1 < u <= t1 ensures RateAt(a, u, bias) == RateAt(b, u, bias) {
      LastRates(a, b, t1, u, bias);
    }
  }

  // ----- The buffer of readings -----

  /** `samples` are the readings `hist` but for the first ones, all older than `before`. */
  ghost predicate Keeps(samples: seq<GyroSample>, hist: seq<GyroSample>, before: int) {
    exists n :: 0 <= n <= |hist| && samples == hist[n..] && forall j :: 0 <= j < n ==> hist[j].stamp < before
  }

  /** The readings kept: the newest one, and enough of those before it. */
  ghost predicate Buffered(samples: seq<GyroSample>, hist: seq<GyroSample>) {
    if hist == [] then samples == []
    else
      var newest := hist[|hist| - 1];
      samples != [] && samples[|samples| - 1] == newest && Keeps(samples, hist, newest.stamp - GYRO_KEEP)
  }

  /** `kept` is `all` but for the readings in front that are older than `before`. */
  ghost predicate ForgetsOld(kept: seq<GyroSample>, all: seq<GyroSample>, before: int) {
    exists n :: 0 <= n < |all| && kept == all[n..] && before <= all[n].stamp
      && forall j :: 0 <= j < n ==> all[j].stamp < before
  }

  lemma {:induction false} DropRates(a: seq<GyroSample>, t: int, keep: int) returns (n: nat)
    requires a != [] && a[|a| - 1].stamp == t && 0 <= keep
    ensures n < |a| && DropOldRates(a, t, keep) == a[n..] && t - keep <= a[n].stamp
    ensures forall j :: 0 <= j < n ==> a[j].stamp < t - keep
  {
    if t - a[0].stamp > keep {
      var k := DropRates(a[1..], t, keep);
      n := k + 1;
      assert a[1..][k..] == a[n..];
      assert forall j :: 1 <= j < n ==> a[j] == a[1..][j - 1];
    } else {
      n := 0;
    }
  }

  lemma ForgetsAfter(all: seq<GyroSample>, t: int)
    requires all != [] && all[|all| - 1].stamp == t
    ensures ForgetsOld(DropOldRates(all, t, GYRO_KEEP), all, t - GYRO_KEEP)
  {
    var n := DropRates(all, t, GYRO_KEEP);
    hide DropOldRates;
    assert DropOldRates(all, t, GYRO_KEEP) == all[n..];
  }

  lemma DropOldRatesNext(a: seq<GyroSample>, t: int)
    requires a != []
    ensures DropOldRates(a, t, GYRO_KEEP) ==
              if t - a[0].stamp > GYRO_KEEP then DropOldRates(a[1..], t, GYRO_KEEP) else a
  {
  }

  /** A reading is taken: it is the newest of the first sensor heard. */
  predicate Takes<G(!new)>(cfg: Config<G>, gyro: Gyro<G>, o: Observation<G>) {
    && UsesGyro(cfg, o) && (gyro.sensor == "" || gyro.sensor == o.sensor)
    && (gyro.samples == [] || gyro.samples[|gyro.samples| - 1].stamp < o.stamp)
  }

  lemma KeepsIntro(hist: seq<GyroSample>, n: nat, before: int)
    requires n <= |hist| && forall j :: 0 <= j < n ==> hist[j].stamp < before
    ensures Keeps(hist[n..], hist, before)
  {
  }

  /** Of the readings `more`, the last ones of `all`, still more are forgotten. */
  lemma DroppedKeeps(all: seq<GyroSample>, k: nat, t: int)
    requires k < |all| && all[|all| - 1].stamp == t
    requires forall j :: 0 <= j < k ==> all[j].stamp < t - GYRO_KEEP
    ensures
      var kept := DropOldRates(all[k..], t, GYRO_KEEP);
      kept != [] && kept[|kept| - 1] == all[|all| - 1] && Keeps(kept, all, t - GYRO_KEEP)
  {
    var more := all[k..];
    var n := DropRates(more, t, GYRO_KEEP);
    hide DropOldRates, Keeps;
    assert more[n..] == all[k + n..];
    forall j | 0 <= j < k + n ensures all[j].stamp < t - GYRO_KEEP {
      if k <= j {
        assert all[j] == more[j - k];
      }
    }
    KeepsIntro(all, k + n, t - GYRO_KEEP);
  }

  lemma ForgottenOf(samples: seq<GyroSample>, hist: seq<GyroSample>, t: int) returns (k: nat)
    requires Buffered(samples, hist) && (samples == [] || samples[|samples| - 1].stamp < t)
    ensures k <= |hist| && samples == hist[k..] && forall j :: 0 <= j < k ==> hist[j].stamp < t - GYRO_KEEP
  {
    k := 0;
    if hist != [] {
      var before := hist[|hist| - 1].stamp - GYRO_KEEP;
      k :| 0 <= k <= |hist| && samples == hist[k..] && forall j :: 0 <= j < k ==> hist[j].stamp < before;
    }
  }

  lemma TakenIsBuffered<G>(g: Gyro<G>, hist: seq<GyroSample>, t: int, sensor: string, pose: G, w: Vec)
    requires Buffered(g.samples, hist) && (g.sensor == "" || g.sensor == sensor)
    requires g.samples == [] || g.samples[|g.samples| - 1].stamp < t
    ensures Buffered(AddGyroSample(g, t, sensor, pose, w).samples, hist + [GyroSample(t, w)])
  {
    hide DropOldRates, Keeps;
    var x := GyroSample(t, w);
    var all := hist + [x];
    var k := ForgottenOf(g.samples, hist, t);
    LastOfSuffix(hist, k, x);
    forall j | 0 <= j < k ensures all[j].stamp < t - GYRO_KEEP {
      assert all[j] == hist[j];
    }
    DroppedKeeps(all, k, t);
  }

  lemma LastOfSuffix<T>(s: seq<T>, k: nat, x: T)
    requires k <= |s|
    ensures (s + [x])[k..] == s[k..] + [x]
  {
  }

  lemma StrictMore(hist: seq<GyroSample>, samples: seq<GyroSample>, x: GyroSample)
    requires Strict(hist) && Buffered(samples, hist)
    requires samples == [] || samples[|samples| - 1].stamp < x.stamp
    ensures Strict(hist + [x])
  {
    hide Keeps;
  }

  lemma StrictIsOrdered(s: seq<GyroSample>)
    requires Strict(s)
    ensures Ordered(s)
  {
  }

  // ----- The rotation of a keyframe -----

  /** The rotation over the readings `s`, in the vehicle frame, with the sensor at `pose`. */
  ghost function RotationOver<G(!new)>(
    cfg: Config<G>, s: seq<GyroSample>, pose: G, t0: int, t1: int, b: GyroBias): Option<GyroRotation<G>>
  {
    GyroRotationSince(cfg, Gyro(s, "", pose), t0, t1, b)
  }

  /** How a keyframe was inserted: when `at` readings had been taken, those `kept` being left, with the
      sensor at `pose`, and that bias. `whole`: what had been forgotten by then does not matter. */
  datatype Turn<G> = Turn(at: nat, pose: G, bias: GyroBias, kept: seq<GyroSample>, whole: bool)

  /** Nothing was forgotten, or only readings up to t0, and the others reach back far enough. */
  predicate Suffices(samples: seq<GyroSample>, hist: seq<GyroSample>, t0: int, t1: int, maxGap: int) {
    samples == hist ||
    (hist != [] && hist[|hist| - 1].stamp - t0 <= GYRO_KEEP && Reaches(samples, t0, t1, maxGap))
  }

  lemma BufferSuffices<G(!new)>(
    cfg: Config<G>, gyro: Gyro<G>, hist: seq<GyroSample>, t0: int, t1: int, b: GyroBias)
    requires Buffered(gyro.samples, hist) && Strict(hist) && t0 < t1
    requires Suffices(gyro.samples, hist, t0, t1, cfg.gyroMaxGap)
    ensures GyroRotationSince(cfg, gyro, t0, t1, b) == RotationOver(cfg, hist, gyro.sensorPose, t0, t1, b)
  {
    StrictIsOrdered(hist);
    if gyro.samples != hist {
      var before := hist[|hist| - 1].stamp - GYRO_KEEP;
      var n :| 0 <= n <= |hist| && gyro.samples == hist[n..] && forall j :: 0 <= j < n ==> hist[j].stamp < before;
      hide Integral, Reaches;
      IntegralOfSuffix(cfg.m, hist, n, t0, t1, b.bias, cfg.gyroMaxGap);
    }
  }

  // ----- Steps that insert no keyframe -----

  ghost predicate SameTurns<G>(a: seq<Keyframe<G>>, b: seq<Keyframe<G>>) {
    |a| == |b| && forall i :: 0 <= i < |a| ==> a[i].stamp == b[i].stamp && a[i].gyro == b[i].gyro
  }

  lemma {:induction false} GnssSameTurns<G>(maxOffset: int, x: GnssPart<G>, rs: seq<Reading>)
    ensures SameTurns(AttachAllGnss(maxOffset, x, rs).kfs, x.kfs)
    decreases |rs|
  {
    if rs != [] {
      hide Choose, Replaced;
      GnssSameTurns(maxOffset, x, rs[..|rs| - 1]);
    }
  }

  lemma {:induction false} ImagesSameTurns<G>(maxOffset: int, x: ImagePart<G>, ps: seq<Picture>)
    ensures SameTurns(AttachAllImages(maxOffset, x, ps).kfs, x.kfs)
    decreases |ps|
  {
    if ps != [] {
      hide Choose, Replaced;
      ImagesSameTurns(maxOffset, x, ps[..|ps| - 1]);
    }
  }

  lemma {:induction false} FinishSameTurns<G>(
    toFiles: bool, x: ImagePart<G>, es: seq<(nat, string)>, newest: Option<(string, int)>)
    ensures SameTurns(FinishEach(toFiles, x, es, newest).kfs, x.kfs)
    decreases |es|
  {
    if es != [] {
      hide MayBeReplaced, Replaced;
      FinishSameTurns(toFiles, x, es[..|es| - 1], newest);
    }
  }

  lemma {:induction false} ResolveSameTurns<G>(rule: GravityRule, x: ImuPart<G>, t: int)
    ensures SameTurns(ResolveGravity(rule, x, t).kfs, x.kfs)
    decreases |x.imu.pending|
  {
    var q := x.imu.pending;
    if q != [] && q[0] < |x.kfs| && x.kfs[q[0]].stamp < t {
      hide Replaced, EnoughGravity;
      ResolveSameTurns(rule, ImuPart(x.kfs[q[0] := WithGravity(rule, x.imu, x.kfs[q[0]])],
          x.imu.(pending := q[1..])), t);
    }
  }

  lemma RetrySameTurns<G(!new)>(cfg: Config<G>, s: State<G>)
    ensures
      var t := RetryImages(cfg, RetryGnss(cfg, s));
      SameTurns(t.kfs, s.kfs) && t.gyro == s.gyro && t.finalized == s.finalized
  {
    hide AttachAllGnss, AttachAllImages;
    GnssSameTurns(cfg.gnssMaxOffset, GnssPart(s.kfs, [], s.newData), s.pendingGnss);
    var s1 := RetryGnss(cfg, s);
    ImagesSameTurns(cfg.imageMaxOffset, ImagePart(s1.kfs, s1.images.(pending := [])), s1.images.pending);
  }

  lemma AddImageSameTurns<G(!new)>(cfg: Config<G>, s: State<G>, p: Picture)
    ensures var t := AddImage(cfg, s, p); SameTurns(t.kfs, s.kfs) && t.gyro == s.gyro
  {
    hide AttachAllImages, FinishEach;
    var x := ImagePart(s.kfs, s.images.(pending := s.images.pending + [p]));
    ImagesSameTurns(cfg.imageMaxOffset, x.(im := x.im.(pending := [])), x.im.pending);
    var y := RetryImagePart(cfg.imageMaxOffset, x);
    FinishSameTurns(cfg.imageDir, y.(im := y.im.(unwritten := [])), y.im.unwritten, Some((p.sensor, p.stamp)));
  }

  lemma AddGnssSameTurns<G(!new)>(cfg: Config<G>, s: State<G>, r: Reading)
    ensures var t := AddGnss(cfg, s, r); SameTurns(t.kfs, s.kfs) && t.gyro == s.gyro
  {
    hide Choose, Replaced;
  }

  lemma AddImuSameTurns<G(!new)>(cfg: Config<G>, s: State<G>, o: Observation<G>)
    requires o.ImuObs?
    ensures
      var t := AddImu(cfg, s, o);
      && SameTurns(t.kfs, s.kfs)
      && t.gyro == if UsesGyro(cfg, o) then AddGyroSample(s.gyro, o.stamp, o.sensor, o.sensorPose, o.rates.value)
        else s.gyro
  {
    hide ResolveGravity, AddGyroSample;
    if UsesGravity(cfg, o) {
      var imu := if s.imu.sensor == "" then s.imu.(sensor := o.sensor) else s.imu;
      var imu1 := imu.(samples := imu.samples + [Acceleration(o.stamp, o.acc.value)], sensorPose := o.sensorPose);
      ResolveSameTurns(RuleOf(cfg), ImuPart(s.kfs, imu1), o.stamp);
    }
  }

  // ----- Whole runs -----

  /** The readings taken during a run, in order, and how each keyframe was inserted. */
  datatype TurnHistory<G> = TurnHistory(hist: seq<GyroSample>, turns: seq<Turn<G>>)

  function TurnOf<G(!new)>(
    cfg: Config<G>, s: State<G>, hist: seq<GyroSample>, req: Request<G>, bias: GyroBias): Turn<G> {
    Turn(|hist|, s.gyro.sensorPose, UsedBias(cfg, bias), s.gyro.samples,
         s.kfs != [] && Suffices(s.gyro.samples, hist, s.kfs[|s.kfs| - 1].stamp, req.stamp, cfg.gyroMaxGap))
  }

  function TurnStep<G(!new)>(cfg: Config<G>, s: State<G>, h: TurnHistory<G>, op: Op<G>): TurnHistory<G> {
    match op
    case Input(KeyframeEvent(req, bias)) =>
      if Accepts(s, req) then h.(turns := h.turns + [TurnOf(cfg, s, h.hist, req, bias)]) else h
    case Input(ObservationEvent(o)) =>
      if !s.finalized && Takes(cfg, s.gyro, o) then h.(hist := h.hist + [GyroSample(o.stamp, o.rates.value)]) else h
    case _ => h
  }

  ghost function TurnsOf<G(!new)>(
    cfg: Config<G>, opt: GraphInput<G> -> GraphResult<G>, ops: seq<Op<G>>): TurnHistory<G>
    decreases |ops|
  {
    if ops == [] then TurnHistory([], [])
    else
      var n := |ops| - 1;
      TurnStep(cfg, StateAfter(cfg, opt, ops[..n]), TurnsOf(cfg, opt, ops[..n]), ops[n])
  }

  /** Keyframe `k` has the rotation over the readings taken when it was inserted. */
  ghost predicate TurnOk<G(!new)>(
    cfg: Config<G>, kfs: seq<Keyframe<G>>, k: nat, turn: Turn<G>, hist: seq<GyroSample>)
    requires k < |kfs|
  {
    && turn.at <= |hist|
    && (k == 0 ==> kfs[0].gyro == None)
    && (k > 0 ==> kfs[k - 1].stamp < kfs[k].stamp)
    && (k > 0 ==> kfs[k].gyro == RotationOver(cfg, turn.kept, turn.pose, kfs[k - 1].stamp, kfs[k].stamp, turn.bias))
    && (k > 0 && turn.whole ==>
          kfs[k].gyro == RotationOver(cfg, hist[..turn.at], turn.pose, kfs[k - 1].stamp, kfs[k].stamp, turn.bias))
  }

  /** The state agrees with the history. */
  ghost predicate TurnsAgree<G(!new)>(cfg: Config<G>, s: State<G>, h: TurnHistory<G>) {
    && Strict(h.hist) && Buffered(s.gyro.samples, h.hist)
    && |h.turns| == |s.kfs| && forall k :: 0 <= k < |s.kfs| ==> TurnOk(cfg, s.kfs, k, h.turns[k], h.hist)
  }

  lemma SameTurnsAgree<G(!new)>(cfg: Config<G>, s: State<G>, t: State<G>, h: TurnHistory<G>)
    requires TurnsAgree(cfg, s, h) && SameTurns(t.kfs, s.kfs) && t.gyro.samples == s.gyro.samples
    ensures TurnsAgree(cfg, t, h)
  {
    hide Strict, Buffered, RotationOver;
    forall k | 0 <= k < |t.kfs| ensures TurnOk(cfg, t.kfs, k, h.turns[k], h.hist) {
      assert TurnOk(cfg, s.kfs, k, h.turns[k], h.hist);
    }
  }

  lemma NewKeyframeTurn<G(!new)>(cfg: Config<G>, s: State<G>, req: Request<G>, bias: GyroBias)
    ensures
      var kf := NewKeyframe(cfg, s, req, bias);
      && kf.stamp == req.stamp
      && kf.gyro == if s.kfs == [] then None
                    else GyroRotationSince(cfg, s.gyro, s.kfs[|s.kfs| - 1].stamp, req.stamp, UsedBias(cfg, bias))
  {
    hide EnoughGravity, GyroRotationSince, Replaced, ChainPose;
  }

  lemma AppendedAgrees<G(!new)>(cfg: Config<G>, s: State<G>, req: Request<G>, bias: GyroBias, h: TurnHistory<G>)
    requires TurnsAgree(cfg, s, h) && Accepts(s, req)
    ensures TurnsAgree(cfg, Appended(cfg, s, req, bias), h.(turns := h.turns + [TurnOf(cfg, s, h.hist, req, bias)]))
  {
    hide Strict, Buffered, RotationOver, NewKeyframe, Suffices, GyroRotationSince;
    AppendedLast(cfg, s, req, bias);
    NewKeyframeTurn(cfg, s, req, bias);
    var t := Appended(cfg, s, req, bias);
    AppendedGyro(cfg, s, req, bias);
    hide Appended;
    var n := |s.kfs|;
    var turn := TurnOf(cfg, s, h.hist, req, bias);
    assert h.hist[..|h.hist|] == h.hist;
    if n > 0 {
      SameSince(cfg, s.gyro, s.kfs[n - 1].stamp, req.stamp, turn.bias);
    }
    if turn.whole {
      BufferSuffices(cfg, s.gyro, h.hist, s.kfs[n - 1].stamp, req.stamp, turn.bias);
    }
    forall k | 0 <= k < |t.kfs| ensures TurnOk(cfg, t.kfs, k, (h.turns + [turn])[k], h.hist) {
      if k < n {
        assert TurnOk(cfg, s.kfs, k, h.turns[k], h.hist);
      }
    }
  }

  lemma SameSince<G(!new)>(cfg: Config<G>, gyro: Gyro<G>, t0: int, t1: int, b: GyroBias)
    ensures GyroRotationSince(cfg, gyro, t0, t1, b) == RotationOver(cfg, gyro.samples, gyro.sensorPose, t0, t1, b)
  {
  }

  lemma AppendedGyro<G(!new)>(cfg: Config<G>, s: State<G>, req: Request<G>, bias: GyroBias)
    ensures var t := Appended(cfg, s, req, bias); t.gyro == s.gyro && t.finalized == s.finalized
  {
  }

  lemma LoggedSame<G(!new)>(cfg: Config<G>, s: State<G>, e: LogEntry<G>)
    ensures var t := Logged(cfg, s, e); t.kfs == s.kfs && t.gyro == s.gyro && t.finalized == s.finalized
  {
  }

  lemma SameTurnsSelf<G>(kfs: seq<Keyframe<G>>)
    ensures SameTurns(kfs, kfs)
  {
  }

  lemma InsertTurnsAgree<G(!new)>(cfg: Config<G>, s: State<G>, req: Request<G>, bias: GyroBias, h: TurnHistory<G>)
    requires TurnsAgree(cfg, s, h)
    ensures TurnsAgree(cfg, Insert(cfg, s, req, bias), TurnStep(cfg, s, h, Input(KeyframeEvent(req, bias))))
  {
    hide TurnsAgree, SameTurns, RetryGnss, RetryImages, Appended, TurnOf, Logged;
    var s1 := Logged(cfg, s, KeyframeEntry(req, bias));
    LoggedSame(cfg, s, KeyframeEntry(req, bias));
    SameTurnsSelf(s.kfs);
    SameTurnsAgree(cfg, s, s1, h);
    if Accepts(s, req) {
      AppendedAgrees(cfg, s1, req, bias, h);
      SameTurnOf(cfg, s, s1, h.hist, req, bias);
      var s2 := Appended(cfg, s1, req, bias);
      RetrySameTurns(cfg, s2);
      var h1 := TurnStep(cfg, s, h, Input(KeyframeEvent(req, bias)));
      SameTurnsAgree(cfg, s2, Insert(cfg, s, req, bias), h1);
    }
  }

  lemma SameTurnOf<G(!new)>(
    cfg: Config<G>, s: State<G>, t: State<G>, hist: seq<GyroSample>, req: Request<G>, bias: GyroBias)
    requires s.kfs == t.kfs && s.gyro == t.gyro
    ensures TurnOf(cfg, s, hist, req, bias) == TurnOf(cfg, t, hist, req, bias)
  {
  }

  lemma TakenAgrees<G(!new)>(cfg: Config<G>, s: State<G>, t: State<G>, o: Observation<G>, h: TurnHistory<G>)
    requires TurnsAgree(cfg, s, h) && UsesGyro(cfg, o) && SameTurns(t.kfs, s.kfs)
    requires t.gyro == AddGyroSample(s.gyro, o.stamp, o.sensor, o.sensorPose, o.rates.value)
    ensures
      var more := h.(hist := h.hist + [GyroSample(o.stamp, o.rates.value)]);
      TurnsAgree(cfg, t, if Takes(cfg, s.gyro, o) then more else h)
  {
    if Takes(cfg, s.gyro, o) {
      hide RotationOver, Strict, Buffered, AddGyroSample;
      TakenIsBuffered(s.gyro, h.hist, o.stamp, o.sensor, o.sensorPose, o.rates.value);
      var x := GyroSample(o.stamp, o.rates.value);
      StrictMore(h.hist, s.gyro.samples, x);
      forall k | 0 <= k < |t.kfs| ensures TurnOk(cfg, t.kfs, k, h.turns[k], h.hist + [x]) {
        assert TurnOk(cfg, s.kfs, k, h.turns[k], h.hist);
        assert (h.hist + [x])[..h.turns[k].at] == h.hist[..h.turns[k].at];
      }
    } else {
      SameTurnsAgree(cfg, s, t, h);
    }
  }

  lemma ObserveTurnsAgree<G(!new)>(cfg: Config<G>, s: State<G>, o: Observation<G>, h: TurnHistory<G>)
    requires TurnsAgree(cfg, s, h)
    ensures TurnsAgree(cfg, Observe(cfg, s, o), TurnStep(cfg, s, h, Input(ObservationEvent(o))))
  {
    hide TurnsAgree, SameTurns, AddGnss, AddImage, AddImu, AddGyroSample, Logged;
    var t := Observe(cfg, s, o);
    var s1 := Logged(cfg, s, ObservationEntry(o));
    LoggedSame(cfg, s, ObservationEntry(o));
    SameTurnsSelf(s.kfs);
    if s.finalized {
    } else if UsesImage(cfg, o) {
      AddImageSameTurns(cfg, s, o.picture);
      SameTurnsAgree(cfg, s, t, h);
    } else if UsesGnss(cfg, o) {
      AddGnssSameTurns(cfg, s1, o.reading);
      SameTurnsAgree(cfg, s, t, h);
    } else if UsesGyro(cfg, o) || UsesGravity(cfg, o) {
      AddImuSameTurns(cfg, s1, o);
      if UsesGyro(cfg, o) {
        TakenAgrees(cfg, s, t, o, h);
      } else {
        SameTurnsAgree(cfg, s, t, h);
      }
    }
  }

  lemma CommitTurnsAgree<G(!new)>(cfg: Config<G>, s: State<G>, r: GraphResult<G>, h: TurnHistory<G>)
    requires TurnsAgree(cfg, s, h)
    ensures TurnsAgree(cfg, Commit(cfg.m, s, r), h)
  {
    hide TurnsAgree, CommittedPoses;
    SameTurnsAgree(cfg, s, Commit(cfg.m, s, r), h);
  }

  lemma MergeTurnsAgree<G(!new)>(cfg: Config<G>, s: State<G>, edges: seq<Edge<G>>, h: TurnHistory<G>)
    requires TurnsAgree(cfg, s, h)
    ensures TurnsAgree(cfg, Merge(cfg, s, edges), h)
  {
    hide TurnsAgree, MergeAll;
    SameTurnsAgree(cfg, s, Merge(cfg, s, edges), h);
  }

  /** In every reachable state of every concurrent run: every keyframe has the rotation over all the
      readings that had been taken when it was inserted, unless some were forgotten that it needed. */
  lemma {:induction false} GyroFollowsHistory<G(!new)>(
    cfg: Config<G>, opt: GraphInput<G> -> GraphResult<G>, ops: seq<Op<G>>)
    ensures TurnsAgree(cfg, StateAfter(cfg, opt, ops), TurnsOf(cfg, opt, ops))
    decreases |ops|
  {
    if ops != [] {
      hide TurnsAgree, Insert, Observe, Commit, Merge, Snapshot, TurnStep;
      var n := |ops| - 1;
      GyroFollowsHistory(cfg, opt, ops[..n]);
      OpTurnsAgree(cfg, opt, DoAll(cfg, opt, Concurrent(InitialState(cfg.m), None, 0), ops[..n]), ops[n],
                   TurnsOf(cfg, opt, ops[..n]));
    }
  }

  lemma OpTurnsAgree<G(!new)>(
    cfg: Config<G>, opt: GraphInput<G> -> GraphResult<G>, c: Concurrent<G>, op: Op<G>, h: TurnHistory<G>)
    requires TurnsAgree(cfg, c.s, h)
    ensures TurnsAgree(cfg, Do(cfg, opt, c, op).s, TurnStep(cfg, c.s, h, op))
  {
    hide TurnsAgree, Insert, Observe, Commit, Merge, Snapshot, Takes, TurnOf;
    match op
    case Input(KeyframeEvent(req, bias)) => InsertTurnsAgree(cfg, c.s, req, bias, h);
    case Input(ObservationEvent(o)) => ObserveTurnsAgree(cfg, c.s, o, h);
    case Input(LoopsEvent(edges)) => MergeTurnsAgree(cfg, c.s, edges, h);
    case SolveBegins =>
    case SolveEnds =>
      if c.flight.Some? {
        CommitTurnsAgree(cfg, c.s, c.flight.value, h);
      }
  }

  // ----- What it means for a keyframe -----

  /** `r` is the turn of the vehicle between t0 and t1, if readings `s` cover it, and the bias that was
      taken off them: the sensor, mounted at `rvs`, then turned by their integral. */
  ghost predicate IsTurn<G(!new)>(
    cfg: Config<G>, s: seq<GyroSample>, rvs: G, t0: int, t1: int, b: GyroBias, r: Option<GyroRotation<G>>)
  {
    var g := Integral(cfg.m, s, t0, t1, b.bias, cfg.gyroMaxGap);
    && (r.Some? <==> cfg.useGyro && g.Some?)
    && (r.Some? ==>
          && cfg.m.mul(r.value.rotation, rvs) == cfg.m.mul(rvs, g.value.R)
          && r.value.duration == t1 - t0 && r.value.angle == g.value.angle && r.value.biasSigma == b.sigma)
  }

  /** A bias that a source knows is removed: the rotation is that of the same readings without it. One
      that nobody knows is taken to be none, with the configured uncertainty. */
  lemma KnownBiasHasNoEffect<G(!new)>(
    cfg: Config<G>, gyro: Gyro<G>, t0: int, t1: int, known: GyroBias, unknown: GyroBias)
    requires known.fromSource && !unknown.fromSource
    ensures
      var biased := gyro.(samples := Biased(gyro.samples, known.bias));
      var r := GyroRotationSince(cfg, biased, t0, t1, UsedBias(cfg, known));
      var u := GyroRotationSince(cfg, gyro, t0, t1, UsedBias(cfg, unknown));
      && (r.Some? <==> u.Some?)
      && (r.Some? ==> u.value.biasSigma == cfg.gyroBiasSigma && r.value == u.value.(biasSigma := known.sigma))
  {
    hide Integral, Biased, Conjugate;
    BiasRemoved(cfg.m, gyro.samples, t0, t1, known.bias, cfg.gyroMaxGap);
  }

  lemma RotationIsTurn<G(!new)>(cfg: Config<G>, s: seq<GyroSample>, pose: G, t0: int, t1: int, b: GyroBias)
    requires IsGroup(cfg.m)
    ensures IsTurn(cfg, s, cfg.m.rot(pose), t0, t1, b, RotationOver(cfg, s, pose, t0, t1, b))
  {
    hide Covered, Conjugate;
    var g := Integral(cfg.m, s, t0, t1, b.bias, cfg.gyroMaxGap);
    if g.Some? {
      var rvs := cfg.m.rot(pose);
      ConjugateExactly(cfg.m, rvs, g.value.R, Conjugate(cfg.m, rvs, g.value.R));
    }
  }

  /** In every reachable state, the rotation of every keyframe is the turn of the vehicle since the one
      before it, by the readings kept then, and by all those taken until then if these suffice. */
  lemma AttachedIsTurn<G(!new)>(
    cfg: Config<G>, opt: GraphInput<G> -> GraphResult<G>, ops: seq<Op<G>>, k: nat)
    requires IsGroup(cfg.m) && 0 < k < |StateAfter(cfg, opt, ops).kfs|
    ensures k < |TurnsOf(cfg, opt, ops).turns|
    ensures
      var s, h := StateAfter(cfg, opt, ops), TurnsOf(cfg, opt, ops);
      var turn, t0, t1 := h.turns[k], s.kfs[k - 1].stamp, s.kfs[k].stamp;
      && turn.at <= |h.hist|
      && IsTurn(cfg, turn.kept, cfg.m.rot(turn.pose), t0, t1, turn.bias, s.kfs[k].gyro)
      && (turn.whole ==> IsTurn(cfg, h.hist[..turn.at], cfg.m.rot(turn.pose), t0, t1, turn.bias, s.kfs[k].gyro))
  {
    GyroFollowsHistory(cfg, opt, ops);
    var s, h := StateAfter(cfg, opt, ops), TurnsOf(cfg, opt, ops);
    hide StateAfter, TurnsOf, RotationOver, IsTurn, Strict, Buffered;
    var turn := h.turns[k];
    assert TurnOk(cfg, s.kfs, k, turn, h.hist);
    RotationIsTurn(cfg, turn.kept, turn.pose, s.kfs[k - 1].stamp, s.kfs[k].stamp, turn.bias);
    if turn.whole {
      RotationIsTurn(cfg, h.hist[..turn.at], turn.pose, s.kfs[k - 1].stamp, s.kfs[k].stamp, turn.bias);
    }
  }

  /** A reading at or after the time of keyframe `k` had been taken when it was inserted. */
  predicate WasPassed<G>(s: State<G>, h: TurnHistory<G>, k: nat)
    requires k < |s.kfs| && k < |h.turns| && h.turns[k].at <= |h.hist|
  {
    h.turns[k].at > 0 && s.kfs[k].stamp <= h.hist[h.turns[k].at - 1].stamp
  }

  /** Then its rotation is that over all the readings ever taken. */
  lemma RotationOverAll<G(!new)>(cfg: Config<G>, s: State<G>, h: TurnHistory<G>, k: nat)
    requires TurnsAgree(cfg, s, h) && 0 < k < |s.kfs| && h.turns[k].whole
    ensures
      var turn := h.turns[k];
      && turn.at <= |h.hist|
      && (WasPassed(s, h, k) ==>
            s.kfs[k].gyro == RotationOver(cfg, h.hist, turn.pose, s.kfs[k - 1].stamp, s.kfs[k].stamp, turn.bias))
  {
    var turn := h.turns[k];
    assert TurnOk(cfg, s.kfs, k, turn, h.hist);
    StrictIsOrdered(h.hist);
    if WasPassed(s, h, k) {
      hide Integral;
      IntegralIsFinal(cfg.m, h.hist[..turn.at], h.hist, s.kfs[k - 1].stamp, s.kfs[k].stamp, turn.bias.bias,
          cfg.gyroMaxGap);
    }
  }

  lemma ConjugateInjective<G(!new)>(m: Motions<G>, v: G, a: G, b: G)
    requires IsGroup(m) && Conjugate(m, v, a) == Conjugate(m, v, b)
    ensures a == b
  {
    Cancels(m, v, a, b, m.inv(v));
  }

  /** An attached rotation stands, whatever readings are still taken, if and only if a reading at or
      after the time of the keyframe had been taken when it was inserted. */
  lemma RotationStands<G(!new)>(cfg: Config<G>, s: State<G>, h: TurnHistory<G>, k: nat)
    requires IsGroup(cfg.m) && Vivid(cfg.m)
    requires TurnsAgree(cfg, s, h) && 0 < k < |s.kfs| && h.turns[k].whole && s.kfs[k].gyro.Some?
    ensures
      var turn := h.turns[k];
      && turn.at <= |h.hist|
      && ((forall later :: h.hist[..turn.at] <= later && Strict(later) ==>
             RotationOver(cfg, later, turn.pose, s.kfs[k - 1].stamp, s.kfs[k].stamp, turn.bias) == s.kfs[k].gyro)
          <==> WasPassed(s, h, k))
  {
    var turn, t0, t1 := h.turns[k], s.kfs[k - 1].stamp, s.kfs[k].stamp;
    assert TurnOk(cfg, s.kfs, k, turn, h.hist);
    var taken := h.hist[..turn.at];
    StrictPrefix(h.hist, turn.at);
    SomeReading(cfg, taken, turn.pose, t0, t1, turn.bias);
    if WasPassed(s, h, k) {
      forall later | taken <= later && Strict(later)
        ensures RotationOver(cfg, later, turn.pose, t0, t1, turn.bias) == s.kfs[k].gyro {
        StrictIsOrdered(later);
        hide Integral;
        IntegralIsFinal(cfg.m, taken, later, t0, t1, turn.bias.bias, cfg.gyroMaxGap);
      }
    } else {
      hide Integral;
      var later := IntegralMayChange(cfg.m, taken, t0, t1, turn.bias.bias, cfg.gyroMaxGap);
      var a := Integral(cfg.m, taken, t0, t1, turn.bias.bias, cfg.gyroMaxGap).value.R;
      var b := Integral(cfg.m, later, t0, t1, turn.bias.bias, cfg.gyroMaxGap).value.R;
      if RotationOver(cfg, later, turn.pose, t0, t1, turn.bias) == s.kfs[k].gyro {
        ConjugateInjective(cfg.m, cfg.m.rot(turn.pose), a, b);
      }
    }
  }

  lemma StrictPrefix(s: seq<GyroSample>, n: nat)
    requires Strict(s) && n <= |s|
    ensures Strict(s[..n])
  {
  }

  lemma SomeReading<G(!new)>(cfg: Config<G>, s: seq<GyroSample>, pose: G, t0: int, t1: int, b: GyroBias)
    requires RotationOver(cfg, s, pose, t0, t1, b).Some?
    ensures s != [] && Integral(cfg.m, s, t0, t1, b.bias, cfg.gyroMaxGap).Some?
  {
  }

  /** The rotations of two consecutive keyframes compose to that over all the readings between the
      first and the last of the three, if both stand and sensor pose and bias did not change. */
  lemma AttachedRotationsCompose<G(!new)>(cfg: Config<G>, s: State<G>, h: TurnHistory<G>, k: nat)
    requires IsGroup(cfg.m) && TurnsAgree(cfg, s, h) && 0 < k && k + 1 < |s.kfs|
    requires h.turns[k].whole && h.turns[k + 1].whole && h.turns[k].at <= |h.hist| && h.turns[k + 1].at <= |h.hist|
    requires WasPassed(s, h, k) && WasPassed(s, h, k + 1)
    requires h.turns[k].pose == h.turns[k + 1].pose && h.turns[k].bias == h.turns[k + 1].bias
    requires s.kfs[k].gyro.Some? && s.kfs[k + 1].gyro.Some?
    ensures h.hist != []
    ensures
      var turn, t0, t2 := h.turns[k], s.kfs[k - 1].stamp, s.kfs[k + 1].stamp;
      var a, b := s.kfs[k].gyro.value, s.kfs[k + 1].gyro.value;
      && cfg.m.mul(a.rotation, b.rotation)
         == Conjugate(cfg.m, cfg.m.rot(turn.pose), Rotation(cfg.m, h.hist, t0, t2, turn.bias.bias))
      && a.duration + b.duration == t2 - t0 && a.angle + b.angle == Angle(cfg.m, h.hist, t0, t2, turn.bias.bias)
  {
    var turn := h.turns[k];
    var t0, t1, t2 := s.kfs[k - 1].stamp, s.kfs[k].stamp, s.kfs[k + 1].stamp;
    RotationOverAll(cfg, s, h, k);
    RotationOverAll(cfg, s, h, k + 1);
    assert TurnOk(cfg, s.kfs, k, turn, h.hist) && TurnOk(cfg, s.kfs, k + 1, h.turns[k + 1], h.hist);
    hide TurnsAgree, Covered, Rotation, Angle;
    ReferenceSplits(cfg.m, h.hist, t0, t1, t2, turn.bias.bias);
    ConjugateComposes(cfg.m, cfg.m.rot(turn.pose), Rotation(cfg.m, h.hist, t0, t1, turn.bias.bias),
                      Rotation(cfg.m, h.hist, t1, t2, turn.bias.bias));
  }
}
