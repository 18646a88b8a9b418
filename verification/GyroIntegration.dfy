/** How far a gyroscope turned from t0 to t1: the loop over its readings, and what it must return.

    The reference is a product of one rotation per clock tick: at each tick the rate is
    that of the first reading at or after it or, past the newest reading, of that one. */
module GyroIntegration {
  import opened Basics
  import opened Motion

  datatype GyroSample = GyroSample(stamp: int, w: Vec)

  datatype GyroIntegral<G> = GyroIntegral(R: G, angle: real, duration: int)

  ghost predicate Ordered(s: seq<GyroSample>) {
    forall i, j :: 0 <= i < j < |s| ==> s[i].stamp <= s[j].stamp
  }

  // ----- Reference: one rotation per tick -----

  /** The first reading at or after `t` (the number of readings if none). */
  function AtOrAfter(s: seq<GyroSample>, t: int): (i: nat)
    ensures i <= |s|
    ensures forall j :: 0 <= j < i ==> s[j].stamp < t
    ensures i < |s| ==> t <= s[i].stamp
  {
    if s == [] || t <= s[0].stamp then 0 else 1 + AtOrAfter(s[1..], t)
  }

  /** The rate in force during tick `t`, without its bias. */
  function RateAt(s: seq<GyroSample>, t: int, bias: Vec): Vec
    requires s != []
  {
    var i := AtOrAfter(s, t);
    Sub(if i < |s| then s[i].w else s[|s| - 1].w, bias)
  }

  function Rotation<G(!new)>(m: Motions<G>, s: seq<GyroSample>, t0: int, t1: int, bias: Vec): G
    requires s != []
    decreases t1 - t0
  {
    if t1 <= t0 then m.one
    else m.mul(Rotation(m, s, t0, t1 - 1, bias), m.exp(RateAt(s, t1, bias), 1))
  }

  function Angle<G(!new)>(m: Motions<G>, s: seq<GyroSample>, t0: int, t1: int, bias: Vec): real
    requires s != []
    decreases t1 - t0
  {
    if t1 <= t0 then 0.0 else Angle(m, s, t0, t1 - 1, bias) + m.arc(RateAt(s, t1, bias), 1)
  }

  // ----- When the readings cover [t0, t1] -----

  /** The instants where the rate may change: t0, the stamps inside, t1. */
  ghost predicate Cut(s: seq<GyroSample>, t0: int, t1: int, c: int) {
    c == t0 || c == t1 || (t0 < c < t1 && exists i :: 0 <= i < |s| && s[i].stamp == c)
  }

  ghost predicate Consecutive(s: seq<GyroSample>, t0: int, t1: int, a: int, b: int) {
    Cut(s, t0, t1, a) && Cut(s, t0, t1, b) && a < b && forall c :: a < c < b ==> !Cut(s, t0, t1, c)
  }

  ghost predicate NoGap(s: seq<GyroSample>, t0: int, t1: int, maxGap: int) {
    forall a, b :: Consecutive(s, t0, t1, a, b) ==> b - a <= maxGap
  }

  ghost predicate ReadingAfter(s: seq<GyroSample>, t: int) {
    exists i :: 0 <= i < |s| && t < s[i].stamp
  }

  ghost predicate StartCovered(s: seq<GyroSample>, t: int, maxGap: int) {
    s != [] && (s[0].stamp <= t || s[0].stamp - t <= maxGap)
  }

  ghost predicate Covered(s: seq<GyroSample>, t0: int, t1: int, maxGap: int) {
    t0 < t1 && ReadingAfter(s, t0) && StartCovered(s, t0, maxGap) && NoGap(s, t0, t1, maxGap)
  }

  /** What an integration must return. */
  ghost function Integral<G(!new)>(
    m: Motions<G>, s: seq<GyroSample>, t0: int, t1: int, bias: Vec, maxGap: int): Option<GyroIntegral<G>>
  {
    if Covered(s, t0, t1, maxGap) then
      Some(GyroIntegral(Rotation(m, s, t0, t1, bias), Angle(m, s, t0, t1, bias), t1 - t0))
    else None
  }

  // ----- From ticks to intervals of a constant rate -----

  lemma ExpZero<G(!new)>(m: Motions<G>, w: Vec)
    requires IsGroup(m) && IsFlow(m)
    ensures m.exp(w, 0) == m.one
  {
    var e := m.exp(w, 0);
    assert Additive(m, w, 0, 0);
    assert Associative(m, m.inv(e), e, e) && Inverses(m, e) && Neutral(m, e);
  }

  lemma {:induction false} RotationOverInterval<G(!new)>(
    m: Motions<G>, s: seq<GyroSample>, t0: int, a: int, b: int, bias: Vec, w: Vec)
    requires IsGroup(m) && IsFlow(m) && s != []
    requires t0 <= a <= b && forall t :: a < t <= b ==> RateAt(s, t, bias) == w
    ensures Rotation(m, s, t0, b, bias) == m.mul(Rotation(m, s, t0, a, bias), m.exp(w, b - a))
    decreases b - a
  {
    var r := Rotation(m, s, t0, a, bias);
    if a == b {
      ExpZero(m, w);
      assert Neutral(m, r);
    } else {
      RotationOverInterval(m, s, t0, a, b - 1, bias, w);
      assert RateAt(s, b, bias) == w;
      assert Associative(m, r, m.exp(w, b - 1 - a), m.exp(w, 1)) && Additive(m, w, b - 1 - a, 1);
    }
  }

  lemma {:induction false} AngleOverInterval<G(!new)>(
    m: Motions<G>, s: seq<GyroSample>, t0: int, a: int, b: int, bias: Vec, w: Vec)
    requires IsFlow(m) && s != []
    requires t0 <= a <= b && forall t :: a < t <= b ==> RateAt(s, t, bias) == w
    ensures Angle(m, s, t0, b, bias) == Angle(m, s, t0, a, bias) + m.arc(w, b - a)
    decreases b - a
  {
    if a == b {
      assert ArcsAdd(m, w, 0, 0);
    } else {
      AngleOverInterval(m, s, t0, a, b - 1, bias, w);
      assert RateAt(s, b, bias) == w && ArcsAdd(m, w, b - 1 - a, 1);
    }
  }

  /** Both references split at any instant between t0 and t2. */
  lemma {:induction false} ReferenceSplits<G(!new)>(
    m: Motions<G>, s: seq<GyroSample>, t0: int, t1: int, t2: int, bias: Vec)
    requires IsGroup(m) && s != [] && t0 <= t1 <= t2
    ensures Rotation(m, s, t0, t2, bias) == m.mul(Rotation(m, s, t0, t1, bias), Rotation(m, s, t1, t2, bias))
    ensures Angle(m, s, t0, t2, bias) == Angle(m, s, t0, t1, bias) + Angle(m, s, t1, t2, bias)
    decreases t2 - t1
  {
    var r := Rotation(m, s, t0, t1, bias);
    if t1 == t2 {
      assert Neutral(m, r);
    } else {
      ReferenceSplits(m, s, t0, t1, t2 - 1, bias);
      assert Associative(m, r, Rotation(m, s, t1, t2 - 1, bias), m.exp(RateAt(s, t2, bias), 1));
    }
  }

  /** Between two neighbour readings, the rate is that of the later one. */
  lemma RateBetween(s: seq<GyroSample>, k: nat, t: int, bias: Vec)
    requires Ordered(s) && k < |s| && t <= s[k].stamp && (k > 0 ==> s[k - 1].stamp < t)
    ensures RateAt(s, t, bias) == Sub(s[k].w, bias)
  {
    forall j | 0 <= j < k ensures s[j].stamp < t {
      assert s[j].stamp <= s[k - 1].stamp;
    }
  }

  // ----- Cut points seen by the loop -----

  /** Nothing is cut strictly between `prev` and the next reading (or t1). */
  lemma NextCut(s: seq<GyroSample>, t0: int, t1: int, k: nat, prev: int, next: int)
    requires Ordered(s) && k <= |s| && t0 <= prev < next <= t1 && Cut(s, t0, t1, prev)
    requires forall i :: 0 <= i < k ==> s[i].stamp <= prev
    requires next == if k < |s| then Min(s[k].stamp, t1) else t1
    ensures Consecutive(s, t0, t1, prev, next)
  {
    forall i | k <= i < |s| ensures next <= s[i].stamp || t1 <= s[i].stamp {
      assert s[k].stamp <= s[i].stamp;
    }
    if next < t1 {
      assert s[k].stamp == next;
    }
  }

  /** So consecutive cut points up to `next` are those up to `prev`, and these two. */
  lemma ConsecutiveUpTo(s: seq<GyroSample>, t0: int, t1: int, prev: int, next: int, a: int, b: int)
    requires Consecutive(s, t0, t1, prev, next) && Consecutive(s, t0, t1, a, b) && b <= next
    ensures b <= prev || (a == prev && b == next)
  {
  }

  // ----- integrate_gyro -----

  /** The upper bound search of the program. */
  function FirstAfter(s: seq<GyroSample>, t: int): (i: nat)
    ensures i <= |s|
    ensures forall j :: 0 <= j < i ==> s[j].stamp <= t
    ensures i < |s| ==> t < s[i].stamp
  {
    if s == [] || t < s[0].stamp then 0 else 1 + FirstAfter(s[1..], t)
  }

  /** How far the readings before the one at `k` reach. */
  function Reached(s: seq<GyroSample>, t0: int, t1: int, k: nat): int
    requires k <= |s|
  {
    if k == 0 || s[k - 1].stamp <= t0 then t0 else Min(s[k - 1].stamp, t1)
  }

  /** No gap up to `prev`. */
  ghost predicate NoGapUpTo(s: seq<GyroSample>, t0: int, t1: int, maxGap: int, prev: int) {
    && (t0 < prev ==> 0 < maxGap)
    && forall a, b :: Consecutive(s, t0, t1, a, b) && b <= prev ==> b - a <= maxGap
  }

  /** The integral from t0 to `t`, as the loop accumulates it. */
  ghost predicate Accumulated<G(!new)>(
    m: Motions<G>, s: seq<GyroSample>, t0: int, t: int, bias: Vec, R: G, angle: real)
    requires s != []
  {
    R == Rotation(m, s, t0, t, bias) && angle == Angle(m, s, t0, t, bias)
  }

  lemma IntegrationStarts<G(!new)>(m: Motions<G>, s: seq<GyroSample>, t0: int, t1: int, bias: Vec, maxGap: int)
    requires s != [] && t0 < t1
    ensures NoGapUpTo(s, t0, t1, maxGap, t0) && Accumulated(m, s, t0, t0, bias, m.one, 0.0)
  {
  }

  /** A finished integration is the integral. */
  lemma IntegrationEnds<G(!new)>(
    m: Motions<G>, s: seq<GyroSample>, t0: int, t1: int, bias: Vec, maxGap: int, R: G, angle: real)
    requires t0 < t1 && ReadingAfter(s, t0) && StartCovered(s, t0, maxGap) && NoGapUpTo(s, t0, t1, maxGap, t1)
    requires Accumulated(m, s, t0, t1, bias, R, angle)
    ensures Integral(m, s, t0, t1, bias, maxGap) == Some(GyroIntegral(R, angle, t1 - t0))
  {
    forall a, b | Consecutive(s, t0, t1, a, b) ensures b - a <= maxGap {
      assert b <= t1;
    }
  }

  /** One iteration: from `prev` to the next reading, t1 at most. */
  lemma IntegrateStep<G(!new)>(
    m: Motions<G>, s: seq<GyroSample>, t0: int, t1: int, bias: Vec, maxGap: int, k: nat, prev: int,
    R: G, angle: real)
    requires IsGroup(m) && IsFlow(m) && Ordered(s) && s != [] && Accumulated(m, s, t0, prev, bias, R, angle)
    requires k < |s| && t0 < s[k].stamp && t0 < t1 && prev == Reached(s, t0, t1, k) < t1
    requires NoGapUpTo(s, t0, t1, maxGap, prev)
    ensures
      var next := Min(s[k].stamp, t1);
      var w := Sub(s[k].w, bias);
      && (next - prev > maxGap ==> !NoGap(s, t0, t1, maxGap))
      && next == Reached(s, t0, t1, k + 1)
      && (next - prev <= maxGap ==> NoGapUpTo(s, t0, t1, maxGap, next))
      && Accumulated(m, s, t0, next, bias, m.mul(R, m.exp(w, next - prev)), angle + m.arc(w, next - prev))
  {
    var next := Min(s[k].stamp, t1);
    var w := Sub(s[k].w, bias);
    if prev < next {
      NextCut(s, t0, t1, k, prev, next);
      forall a, b | Consecutive(s, t0, t1, a, b) && b <= next ensures b <= prev || (a == prev && b == next) {
        ConsecutiveUpTo(s, t0, t1, prev, next, a, b);
      }
    }
    forall t | prev < t <= next ensures RateAt(s, t, bias) == w {
      RateBetween(s, k, t, bias);
    }
    RotationOverInterval(m, s, t0, prev, next, bias, w);
    AngleOverInterval(m, s, t0, prev, next, bias, w);
  }

  /** After the newest reading. */
  lemma IntegrateLast<G(!new)>(
    m: Motions<G>, s: seq<GyroSample>, t0: int, t1: int, bias: Vec, maxGap: int, prev: int,
    R: G, angle: real)
    requires IsGroup(m) && IsFlow(m) && Ordered(s) && s != [] && Accumulated(m, s, t0, prev, bias, R, angle)
    requires t0 < s[|s| - 1].stamp && t0 < t1 && prev == Reached(s, t0, t1, |s|) < t1
    requires NoGapUpTo(s, t0, t1, maxGap, prev)
    ensures t1 - prev <= maxGap ==> NoGapUpTo(s, t0, t1, maxGap, t1)
    ensures
      var w := Sub(s[|s| - 1].w, bias);
      Accumulated(m, s, t0, t1, bias, m.mul(R, m.exp(w, t1 - prev)), angle + m.arc(w, t1 - prev))
  {
    var w := Sub(s[|s| - 1].w, bias);
    NextCut(s, t0, t1, |s|, prev, t1);
    forall a, b | Consecutive(s, t0, t1, a, b) ensures b <= prev || (a == prev && b == t1) {
      ConsecutiveUpTo(s, t0, t1, prev, t1, a, b);
    }
    forall t | prev < t <= t1 ensures RateAt(s, t, bias) == w {
      assert AtOrAfter(s, t) == |s|;
    }
    RotationOverInterval(m, s, t0, prev, t1, bias, w);
    AngleOverInterval(m, s, t0, prev, t1, bias, w);
  }

  /** The check before the loop: the newest reading is too far from t1. */
  lemma EndNotCovered(s: seq<GyroSample>, t0: int, t1: int, first: nat, maxGap: int)
    requires Ordered(s) && t0 < t1 && first < |s| && t0 < s[first].stamp && t1 - s[|s| - 1].stamp > maxGap
    requires forall j :: 0 <= j < first ==> s[j].stamp <= t0
    ensures !NoGap(s, t0, t1, maxGap)
  {
    var newest := s[|s| - 1].stamp;
    assert s[first].stamp <= newest;
    if newest < t1 {
      NextCut(s, t0, t1, |s|, newest, t1);
    } else {
      NextCut(s, t0, t1, first, t0, Min(s[first].stamp, t1));
    }
  }

  method IntegrateGyro<G(!new)>(
    m: Motions<G>, samples: seq<GyroSample>, t0: int, t1: int, bias: Vec, maxGap: int)
    returns (out: Option<GyroIntegral<G>>)
    requires IsGroup(m) && IsFlow(m) && Ordered(samples)
    ensures out == Integral(m, samples, t0, t1, bias, maxGap)
  {
    hide NoGap, NoGapUpTo, Accumulated;
    if samples == [] || !(t0 < t1) {
      return None;
    }
    var first := FirstAfter(samples, t0);
    if first == |samples| {
      return None;
    }
    var newest := samples[|samples| - 1];
    var coveredStart := first != 0 || samples[first].stamp - t0 <= maxGap;
    if !coveredStart || t1 - newest.stamp > maxGap {
      if coveredStart {
        EndNotCovered(samples, t0, t1, first, maxGap);
      }
      return None;
    }

    IntegrationStarts(m, samples, t0, t1, bias, maxGap);
    var R, angle, prev := m.one, 0.0, t0;
    var k := first;
    while k < |samples| && prev < t1
      invariant first <= k <= |samples| && prev == Reached(samples, t0, t1, k)
      invariant NoGapUpTo(samples, t0, t1, maxGap, prev)
      invariant Accumulated(m, samples, t0, prev, bias, R, angle)
    {
      var segEnd := Min(samples[k].stamp, t1);
      var dt := segEnd - prev;
      IntegrateStep(m, samples, t0, t1, bias, maxGap, k, prev, R, angle);
      if dt > maxGap {
        return None;
      }
      var w := Sub(samples[k].w, bias);
      R := m.mul(R, m.exp(w, dt));
      angle := angle + m.arc(w, dt);
      prev := segEnd;
      k := k + 1;
    }
    // Past the last reading, its rate goes on:
    if prev < t1 {
      IntegrateLast(m, samples, t0, t1, bias, maxGap, prev, R, angle);
      var dt := t1 - prev;
      var w := Sub(newest.w, bias);
      R := m.mul(R, m.exp(w, dt));
      angle := angle + m.arc(w, dt);
    }
    IntegrationEnds(m, samples, t0, t1, bias, maxGap, R, angle);
    out := Some(GyroIntegral(R, angle, t1 - t0));
  }

  // ----- Splitting -----

  /** Cutting at t1 adds one cut point and moves no other. */
  lemma CutsOfHalves(s: seq<GyroSample>, t0: int, t1: int, t2: int, c: int)
    requires t0 < t1 < t2
    ensures c <= t1 ==> (Cut(s, t0, t1, c) <==> Cut(s, t0, t2, c) || c == t1)
    ensures t1 <= c ==> (Cut(s, t1, t2, c) <==> Cut(s, t0, t2, c) || c == t1)
    ensures c < t0 || t2 < c ==> !Cut(s, t0, t2, c)
  {
  }

  /** Any instant of (t0, t2] lies in one interval between consecutive cut points. */
  lemma CutBefore(s: seq<GyroSample>, t0: int, t2: int, t: int) returns (a: int)
    requires t0 < t <= t2
    ensures t0 <= a < t && Cut(s, t0, t2, a) && forall c :: a < c < t ==> !Cut(s, t0, t2, c)
  {
    a := t - 1;
    while !Cut(s, t0, t2, a)
      invariant t0 <= a < t && forall c :: a < c < t ==> !Cut(s, t0, t2, c)
      decreases a - t0
    {
      a := a - 1;
    }
  }

  lemma CutAfter(s: seq<GyroSample>, t0: int, t2: int, t: int) returns (b: int)
    requires t0 <= t < t2
    ensures t < b <= t2 && Cut(s, t0, t2, b) && forall c :: t < c < b ==> !Cut(s, t0, t2, c)
  {
    b := t + 1;
    while !Cut(s, t0, t2, b)
      invariant t < b <= t2 && forall c :: t < c < b ==> !Cut(s, t0, t2, c)
      decreases t2 - b
    {
      b := b + 1;
    }
  }

  /** Consecutive cut points of a half lie within one interval of the whole. */
  lemma HalvesHaveNoGap(s: seq<GyroSample>, t0: int, t1: int, t2: int, maxGap: int)
    requires t0 < t1 < t2 && NoGap(s, t0, t2, maxGap)
    ensures NoGap(s, t0, t1, maxGap) && NoGap(s, t1, t2, maxGap)
  {
    forall a, b | Consecutive(s, t0, t1, a, b) ensures b - a <= maxGap {
      CutsOfHalves(s, t0, t1, t2, a);
      CutsOfHalves(s, t0, t1, t2, b);
      var b' := CutAfter(s, t0, t2, a);
      CutsOfHalves(s, t0, t1, t2, b');
      assert b <= b' && Consecutive(s, t0, t2, a, b');
    }
    forall a, b | Consecutive(s, t1, t2, a, b) ensures b - a <= maxGap {
      CutsOfHalves(s, t0, t1, t2, a);
      CutsOfHalves(s, t0, t1, t2, b);
      var a' := CutBefore(s, t0, t2, b);
      CutsOfHalves(s, t0, t1, t2, a');
      assert a' <= a && Consecutive(s, t0, t2, a', b);
    }
  }

  /** If [t0, t2] is covered and there is a reading after t1, both halves are, and the
      whole rotation is theirs, in order. */
  lemma GyroIntegralSplits<G(!new)>(
    m: Motions<G>, s: seq<GyroSample>, t0: int, t1: int, t2: int, bias: Vec, maxGap: int)
    requires IsGroup(m) && Ordered(s) && t0 < t1 < t2
    requires Covered(s, t0, t2, maxGap) && ReadingAfter(s, t1)
    ensures
      var whole := Integral(m, s, t0, t2, bias, maxGap);
      var a, b := Integral(m, s, t0, t1, bias, maxGap), Integral(m, s, t1, t2, bias, maxGap);
      && whole.Some? && a.Some? && b.Some?
      && whole.value.R == m.mul(a.value.R, b.value.R)
      && whole.value.angle == a.value.angle + b.value.angle
      && whole.value.duration == a.value.duration + b.value.duration
  {
    HalvesHaveNoGap(s, t0, t1, t2, maxGap);
    ReferenceSplits(m, s, t0, t1, t2, bias);
  }

  // ----- The bias -----

  /** The readings of a sensor that reads `b` when at rest. */
  function Biased(s: seq<GyroSample>, b: Vec): (out: seq<GyroSample>)
    ensures |out| == |s| && forall i :: 0 <= i < |s| ==>
      out[i] == GyroSample(s[i].stamp, Vec(s[i].w.x + b.x, s[i].w.y + b.y, s[i].w.z + b.z))
  {
    seq(|s|, i requires 0 <= i < |s| => GyroSample(s[i].stamp, Vec(s[i].w.x + b.x, s[i].w.y + b.y, s[i].w.z + b.z)))
  }

  lemma {:induction false} SameReading(s: seq<GyroSample>, r: seq<GyroSample>, t: int)
    requires |s| == |r| && forall i :: 0 <= i < |s| ==> s[i].stamp == r[i].stamp
    ensures AtOrAfter(s, t) == AtOrAfter(r, t)
  {
    if s != [] {
      SameReading(s[1..], r[1..], t);
    }
  }

  lemma {:induction false} ReferenceOfBiased<G(!new)>(m: Motions<G>, s: seq<GyroSample>, t0: int, t1: int, b: Vec)
    requires s != []
    ensures Rotation(m, Biased(s, b), t0, t1, b) == Rotation(m, s, t0, t1, Vec(0.0, 0.0, 0.0))
    ensures Angle(m, Biased(s, b), t0, t1, b) == Angle(m, s, t0, t1, Vec(0.0, 0.0, 0.0))
    decreases t1 - t0
  {
    if t0 < t1 {
      ReferenceOfBiased(m, s, t0, t1 - 1, b);
      RateOfBiased(s, t1, b);
      hide RateAt, Biased;
    }
  }

  lemma RateOfBiased(s: seq<GyroSample>, t: int, b: Vec)
    requires s != []
    ensures RateAt(Biased(s, b), t, b) == RateAt(s, t, Vec(0.0, 0.0, 0.0))
  {
    SameReading(s, Biased(s, b), t);
    hide AtOrAfter, Biased;
  }

  lemma CoveredOfStamps(s: seq<GyroSample>, r: seq<GyroSample>, t0: int, t1: int, maxGap: int)
    requires |s| == |r| && forall i :: 0 <= i < |s| ==> s[i].stamp == r[i].stamp
    requires Covered(s, t0, t1, maxGap)
    ensures Covered(r, t0, t1, maxGap)
  {
    forall c ensures Cut(s, t0, t1, c) == Cut(r, t0, t1, c) {
      if i :| 0 <= i < |s| && s[i].stamp == c {
        assert r[i].stamp == c;
      }
      if i :| 0 <= i < |r| && r[i].stamp == c {
        assert s[i].stamp == c;
      }
    }
    hide Cut;
    var i :| 0 <= i < |s| && t0 < s[i].stamp;
    assert t0 < r[i].stamp;
    forall a, b | Consecutive(r, t0, t1, a, b) ensures b - a <= maxGap {
      assert Consecutive(s, t0, t1, a, b);
    }
  }

  /** A constant bias, when known, changes nothing. */
  lemma BiasRemoved<G(!new)>(m: Motions<G>, s: seq<GyroSample>, t0: int, t1: int, b: Vec, maxGap: int)
    ensures Integral(m, Biased(s, b), t0, t1, b, maxGap) == Integral(m, s, t0, t1, Vec(0.0, 0.0, 0.0), maxGap)
  {
    hide Covered, Rotation, Angle;
    if Covered(s, t0, t1, maxGap) {
      CoveredOfStamps(s, Biased(s, b), t0, t1, maxGap);
    }
    if Covered(Biased(s, b), t0, t1, maxGap) {
      CoveredOfStamps(Biased(s, b), s, t0, t1, maxGap);
    }
    if s != [] {
      ReferenceOfBiased(m, s, t0, t1, b);
    } else {
      assert Biased(s, b) == s;
      NoReadingsCoverNothing(t0, t1, maxGap);
    }
  }

  lemma NoReadingsCoverNothing(t0: int, t1: int, maxGap: int)
    ensures !Covered([], t0, t1, maxGap)
  {
  }

  /** From the frame of a sensor to that of the vehicle. */
  function Conjugate<G(!new)>(m: Motions<G>, rvs: G, r: G): G {
    m.mul(m.mul(rvs, r), m.inv(rvs))
  }

  /** Turning by `r` in the vehicle frame and then looking from the sensor is looking from the sensor and
      then turning by what it measured; and no other `r` does that. */
  lemma ConjugateExactly<G(!new)>(m: Motions<G>, rvs: G, measured: G, r: G)
    requires IsGroup(m)
    ensures m.mul(r, rvs) == m.mul(rvs, measured) <==> r == Conjugate(m, rvs, measured)
  {
    var x := m.mul(rvs, measured);
    assert Associative(m, x, m.inv(rvs), rvs) && Inverses(m, rvs) && Neutral(m, x);
    assert Associative(m, r, rvs, m.inv(rvs)) && Neutral(m, r);
  }

  lemma ConjugateComposes<G(!new)>(m: Motions<G>, v: G, a: G, b: G)
    requires IsGroup(m)
    ensures Conjugate(m, v, m.mul(a, b)) == m.mul(Conjugate(m, v, a), Conjugate(m, v, b))
  {
    var va, i := m.mul(v, a), m.inv(v);
    assert Associative(m, va, i, m.mul(m.mul(v, b), i));
    assert Associative(m, i, m.mul(v, b), i);
    MinusPlus(m, v, b);
    assert Associative(m, va, b, i) && Associative(m, v, a, b);
  }

  /** So over the same readings, and with the sensor at one pose, rotations in the vehicle frame compose
      too. GyroAttachment says when those attached to keyframes do. */
  lemma VehicleRotationsCompose<G(!new)>(
    m: Motions<G>, s: seq<GyroSample>, v: G, t0: int, t1: int, t2: int, bias: Vec, maxGap: int)
    requires IsGroup(m) && Ordered(s) && t0 < t1 < t2
    requires Covered(s, t0, t2, maxGap) && ReadingAfter(s, t1)
    ensures
      var whole := Integral(m, s, t0, t2, bias, maxGap);
      var a, b := Integral(m, s, t0, t1, bias, maxGap), Integral(m, s, t1, t2, bias, maxGap);
      && whole.Some? && a.Some? && b.Some?
      && Conjugate(m, v, whole.value.R) == m.mul(Conjugate(m, v, a.value.R), Conjugate(m, v, b.value.R))
  {
    GyroIntegralSplits(m, s, t0, t1, t2, bias, maxGap);
    ConjugateComposes(m, v, Rotation(m, s, t0, t1, bias), Rotation(m, s, t1, t2, bias));
  }
}
