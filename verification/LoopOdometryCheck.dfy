/** Whether a loop fits the poses of the front end between both of its keyframes. */
module LoopOdometryCheck {
  import opened Basics
  import opened Motion

  datatype Limits = Limits(maxXyz: real, maxXyzPerM: real, maxAng: real, maxAngPerM: real)

  datatype Check = Check(distance: real, xyzError: real, angError: real, accepted: bool)

  /** The length of a chain of poses. */
  function Travelled<G(!new)>(m: Motions<G>, chain: seq<G>): (d: real)
  {
    if |chain| < 2 then 0.0
    else Travelled(m, chain[..|chain| - 1]) + m.dist(chain[|chain| - 1], chain[|chain| - 2])
  }

  /** The chain as it is compared: only its two ends and its length matter. */
  function CheckEnds<G(!new)>(m: Motions<G>, first: G, last: G, distance: real, loop: G, p: Limits): Check {
    var err := Minus(m, Minus(m, last, first), loop);
    var xyz, ang := m.tnorm(err), m.ang(err);
    Check(distance, xyz, ang,
          xyz <= p.maxXyz + p.maxXyzPerM * distance && ang <= p.maxAng + p.maxAngPerM * distance)
  }

  /** The loop in the direction from the older to the newer keyframe. */
  function Forward<G(!new)>(m: Motions<G>, from: nat, to: nat, rel: G): G {
    if from < to then rel else Minus(m, m.one, rel)
  }

  /** The check of one loop edge against a whole trajectory. */
  function CheckLoop<G(!new)>(m: Motions<G>, poses: seq<G>, from: nat, to: nat, rel: G, p: Limits): Check
    requires from < |poses| && to < |poses|
  {
    var first, last := Min(from, to), Max(from, to);
    CheckEnds(m, poses[first], poses[last], Travelled(m, poses[first..last + 1]), Forward(m, from, to, rel), p)
  }

  method CheckLoopAgainstOdometry<G(!new)>(
    m: Motions<G>, poses: seq<G>, from: nat, to: nat, rel: G, p: Limits) returns (out: Check)
    requires from < |poses| && to < |poses|
    ensures out == CheckLoop(m, poses, from, to, rel, p)
    ensures IsGroup(m) ==> forall d :: Misses(m, poses, from, to, rel, d) ==>
      (out.accepted <==> Within(m, d, PathLength(m, poses, Min(from, to), Max(from, to)), p))
  {
    var distance := 0.0;
    var first, last := Min(from, to), Max(from, to);
    var i := first + 1;
    while i <= last
      invariant first + 1 <= i <= last + 1
      invariant distance == Travelled(m, poses[first..i])
    {
      assert poses[first..i + 1][..i - first] == poses[first..i];
      distance := distance + m.dist(poses[i], poses[i - 1]);
      i := i + 1;
    }
    var loopFirstToLast := if from < to then rel else Minus(m, m.one, rel);
    var odoRel := Minus(m, poses[last], poses[first]);
    var err := Minus(m, odoRel, loopFirstToLast);
    var xyzError, angError := m.tnorm(err), m.ang(err);
    var maxXyz := p.maxXyz + p.maxXyzPerM * distance;
    var maxAng := p.maxAng + p.maxAngPerM * distance;
    out := Check(distance, xyzError, angError, xyzError <= maxXyz && angError <= maxAng);
    VerdictIsExact(m, poses, from, to, rel, p);
  }

  // ----- What makes the check well defined -----

  /** An edge stated the other way round, with the inverse pose, gives the same result. */
  lemma ReversedEdge<G(!new)>(m: Motions<G>, poses: seq<G>, from: nat, to: nat, rel: G, p: Limits)
    requires IsGroup(m) && from < |poses| && to < |poses| && from != to
    ensures CheckLoop(m, poses, to, from, m.inv(rel), p) == CheckLoop(m, poses, from, to, rel, p)
  {
    InvInv(m, rel);
    assert Neutral(m, rel) && Neutral(m, m.inv(rel));
  }

  function Moved<G(!new)>(m: Motions<G>, g: G, poses: seq<G>): (out: seq<G>)
    ensures |out| == |poses| && forall i :: 0 <= i < |poses| ==> out[i] == m.mul(g, poses[i])
  {
    seq(|poses|, i requires 0 <= i < |poses| => m.mul(g, poses[i]))
  }

  lemma {:induction false} TravelledMoved<G(!new)>(m: Motions<G>, g: G, a: seq<G>, b: seq<G>)
    requires IsMetric(m) && |a| == |b| && forall i :: 0 <= i < |a| ==> b[i] == m.mul(g, a[i])
    ensures Travelled(m, b) == Travelled(m, a)
  {
    if |a| >= 2 {
      TravelledMoved(m, g, a[..|a| - 1], b[..|a| - 1]);
      assert LeftInvariant(m, g, a[|a| - 1], a[|a| - 2]);
    }
  }

  /** A rigid motion of the whole trajectory changes nothing. */
  lemma RigidMotion<G(!new)>(m: Motions<G>, g: G, poses: seq<G>, from: nat, to: nat, rel: G, p: Limits)
    requires IsGroup(m) && IsMetric(m) && from < |poses| && to < |poses|
    ensures CheckLoop(m, Moved(m, g, poses), from, to, rel, p) == CheckLoop(m, poses, from, to, rel, p)
  {
    var first, last := Min(from, to), Max(from, to);
    TravelledMoved(m, g, poses[first..last + 1], Moved(m, g, poses)[first..last + 1]);
    MinusLeftInvariant(m, g, poses[last], poses[first]);
  }

  lemma SliceOfSlice<T>(s: seq<T>, a: nat, b: nat, i: nat, j: nat)
    requires a <= i <= j <= b <= |s|
    ensures s[a..b][i - a..j - a] == s[i..j]
  {
    forall k | 0 <= k < j - i ensures s[a..b][i - a..j - a][k] == s[i..j][k] {
      assert s[a..b][i - a + k] == s[i + k];
    }
  }

  /** The mapper only passes the poses between both keyframes. */
  lemma CutOutWindow<G(!new)>(m: Motions<G>, poses: seq<G>, a: nat, b: nat, from: nat, to: nat, rel: G, p: Limits)
    requires a <= from < b <= |poses| && a <= to < b
    ensures CheckLoop(m, poses[a..b], from - a, to - a, rel, p) == CheckLoop(m, poses, from, to, rel, p)
  {
    var first, last := Min(from, to), Max(from, to);
    SliceOfSlice(poses, a, b, first, last + 1);
  }

  /** Distance adds over consecutive spans. */
  lemma {:induction false} DistanceAdds<G(!new)>(m: Motions<G>, poses: seq<G>, i: nat, j: nat, k: nat)
    requires i <= j <= k < |poses|
    ensures Travelled(m, poses[i..k + 1]) == Travelled(m, poses[i..j + 1]) + Travelled(m, poses[j..k + 1])
  {
    if j < k {
      DistanceAdds(m, poses, i, j, k - 1);
      assert poses[i..k + 1][..k - i] == poses[i..k] && poses[j..k + 1][..k - j] == poses[j..k];
    }
  }

  lemma {:induction false} TravelledNonNegative<G(!new)>(m: Motions<G>, chain: seq<G>)
    requires IsMetric(m)
    ensures Travelled(m, chain) >= 0.0
  {
    if |chain| >= 2 {
      TravelledNonNegative(m, chain[..|chain| - 1]);
    }
  }

  lemma LimitNonNegative(a: real, b: real, d: real)
    requires a >= 0.0 && b >= 0.0 && d >= 0.0
    ensures 0.0 <= a + b * d
  {
  }

  /** A loop equal to the odometry has no error and is accepted, whatever the direction. */
  lemma OdometryItselfAccepted<G(!new)>(m: Motions<G>, poses: seq<G>, from: nat, to: nat, p: Limits)
    requires IsGroup(m) && IsMetric(m) && from < |poses| && to < |poses|
    requires p.maxXyz >= 0.0 && p.maxXyzPerM >= 0.0 && p.maxAng >= 0.0 && p.maxAngPerM >= 0.0
    ensures
      var c := CheckLoop(m, poses, from, to, Minus(m, poses[to], poses[from]), p);
      c.accepted && c.xyzError == 0.0 && c.angError == 0.0
  {
    var first, last := Min(from, to), Max(from, to);
    var odo := Minus(m, poses[last], poses[first]);
    var d := Travelled(m, poses[first..last + 1]);
    TravelledNonNegative(m, poses[first..last + 1]);
    LimitNonNegative(p.maxXyz, p.maxXyzPerM, d);
    LimitNonNegative(p.maxAng, p.maxAngPerM, d);
    if from >= to {
      InvMul(m, m.inv(poses[from]), poses[to]);
      InvInv(m, poses[from]);
      assert Neutral(m, m.inv(Minus(m, poses[to], poses[from])));
    }
    MinusSelf(m, odo);
  }

  // ----- Exactly which loops are accepted -----

  /** The sum of the distances between neighbours, from pose `i` to pose `j`. */
  function PathLength<G(!new)>(m: Motions<G>, poses: seq<G>, i: nat, j: nat): real
    requires j < |poses|
    decreases j
  {
    if j <= i then 0.0 else PathLength(m, poses, i, j - 1) + m.dist(poses[j], poses[j - 1])
  }

  lemma {:induction false} TravelledIsPathLength<G(!new)>(m: Motions<G>, poses: seq<G>, i: nat, j: nat)
    requires i <= j < |poses|
    ensures Travelled(m, poses[i..j + 1]) == PathLength(m, poses, i, j)
    decreases j
  {
    if i < j {
      TravelledIsPathLength(m, poses, i, j - 1);
      assert poses[i..j + 1][..j - i] == poses[i..j];
    }
  }

  /** `rel`, read from the older to the newer pose, misses the motion between both by `d`. */
  ghost predicate Misses<G(!new)>(m: Motions<G>, poses: seq<G>, from: nat, to: nat, rel: G, d: G)
    requires from < |poses| && to < |poses|
  {
    var forward := if from < to then rel else m.inv(rel);
    m.mul(poses[Min(from, to)], m.mul(forward, d)) == poses[Max(from, to)]
  }

  /** Both limits, on a miss of `d` over a path of that length. */
  predicate Within<G(!new)>(m: Motions<G>, d: G, length: real, p: Limits) {
    m.tnorm(d) <= p.maxXyz + p.maxXyzPerM * length && m.ang(d) <= p.maxAng + p.maxAngPerM * length
  }

  lemma ErrorIsMiss<G(!new)>(m: Motions<G>, poses: seq<G>, from: nat, to: nat, rel: G, d: G)
    requires IsGroup(m) && from < |poses| && to < |poses| && Misses(m, poses, from, to, rel, d)
    ensures
      Minus(m, Minus(m, poses[Max(from, to)], poses[Min(from, to)]), Forward(m, from, to, rel)) == d
  {
    var forward := if from < to then rel else m.inv(rel);
    assert Neutral(m, m.inv(rel));
    MinusPlus(m, poses[Min(from, to)], m.mul(forward, d));
    MinusPlus(m, forward, d);
  }

  /** A loop that misses the odometry by `d`, stated in either direction, is accepted if and only if
      `d` is within both limits; and errors and distance are those of `d` and of the path. */
  lemma AcceptedExactlyWithin<G(!new)>(m: Motions<G>, poses: seq<G>, from: nat, to: nat, rel: G, p: Limits, d: G)
    requires IsGroup(m) && from < |poses| && to < |poses| && Misses(m, poses, from, to, rel, d)
    ensures
      var c := CheckLoop(m, poses, from, to, rel, p);
      var length := PathLength(m, poses, Min(from, to), Max(from, to));
      && (c.accepted <==>
            m.tnorm(d) <= p.maxXyz + p.maxXyzPerM * length && m.ang(d) <= p.maxAng + p.maxAngPerM * length)
      && c.xyzError == m.tnorm(d) && c.angError == m.ang(d) && c.distance == length
  {
    hide IsGroup, Misses, Travelled, PathLength;
    TravelledIsPathLength(m, poses, Min(from, to), Max(from, to));
    ErrorIsMiss(m, poses, from, to, rel, d);
  }

  lemma VerdictIsExact<G(!new)>(m: Motions<G>, poses: seq<G>, from: nat, to: nat, rel: G, p: Limits)
    requires from < |poses| && to < |poses|
    ensures IsGroup(m) ==> forall d :: Misses(m, poses, from, to, rel, d) ==>
      (CheckLoop(m, poses, from, to, rel, p).accepted <==>
        Within(m, d, PathLength(m, poses, Min(from, to), Max(from, to)), p))
  {
    hide IsGroup, Misses, PathLength, CheckLoop;
    if IsGroup(m) {
      forall d | Misses(m, poses, from, to, rel, d)
        ensures CheckLoop(m, poses, from, to, rel, p).accepted <==>
          Within(m, d, PathLength(m, poses, Min(from, to), Max(from, to)), p) {
        AcceptedExactlyWithin(m, poses, from, to, rel, p, d);
      }
    }
  }

  /** There is such a `d` for every loop. */
  lemma EveryLoopMissesBySome<G(!new)>(m: Motions<G>, poses: seq<G>, from: nat, to: nat, rel: G) returns (d: G)
    requires IsGroup(m) && from < |poses| && to < |poses|
    ensures Misses(m, poses, from, to, rel, d)
  {
    var first, last := Min(from, to), Max(from, to);
    var forward := if from < to then rel else m.inv(rel);
    var odo := Minus(m, poses[last], poses[first]);
    d := Minus(m, odo, forward);
    PlusMinus(m, odo, forward);
    PlusMinus(m, poses[last], poses[first]);
  }
}
