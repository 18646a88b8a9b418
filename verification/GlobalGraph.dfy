/** The chain of keyframes: initial guesses, and the edges of the pose graph built on it. */
module GlobalGraph {
  import opened Basics
  import opened Motion
  import opened MapperTypes

  // ----- Re-chaining the initial guesses of a saved graph (offline) -----

  /** Keyframe `cur` chained onto the rebuilt `prev`; `savedPrev` and `cur` hold the saved guesses. */
  function ChainGuess<G(!new)>(
    m: Motions<G>, prev: GraphKeyframe<G>, savedPrev: GraphKeyframe<G>, cur: GraphKeyframe<G>): G
  {
    if cur.frame == prev.frame then Plus(m, prev.guess, Minus(m, cur.src, prev.src))
    else Plus(m, prev.guess, Minus(m, cur.guess, savedPrev.guess))
  }

  function Rechained<G(!new)>(m: Motions<G>, kfs: seq<GraphKeyframe<G>>): (out: seq<GraphKeyframe<G>>)
    ensures |out| == |kfs|
  {
    if |kfs| <= 1 then kfs
    else
      var n := |kfs| - 1;
      var out := Rechained(m, kfs[..n]);
      out + [kfs[n].(guess := ChainGuess(m, out[n - 1], kfs[n - 1], kfs[n]))]
  }

  method RechainInPlace<G(!new)>(m: Motions<G>, kfs: array<GraphKeyframe<G>>)
    modifies kfs
    ensures kfs[..] == Rechained(m, old(kfs[..]))
  {
    ghost var was := kfs[..];
    var saved := kfs[..];
    var i := 1;
    if kfs.Length == 0 {
      return;
    }
    assert kfs[..1] == was[..1];
    while i < kfs.Length
      invariant 1 <= i <= kfs.Length
      invariant kfs[..i] == Rechained(m, was[..i])
      invariant kfs[i..] == was[i..]
    {
      var prev, cur := kfs[i - 1], kfs[i];
      assert cur == was[i] && prev == kfs[..i][i - 1] && was[..i + 1][..i] == was[..i];
      if cur.frame == prev.frame {
        kfs[i] := cur.(guess := Plus(m, prev.guess, Minus(m, cur.src, prev.src)));
      } else {
        kfs[i] := cur.(guess := Plus(m, prev.guess, Minus(m, saved[i].guess, saved[i - 1].guess)));
      }
      assert kfs[..i + 1] == kfs[..i] + [kfs[i]];
      i := i + 1;
    }
    assert was[..i] == was;
  }

  lemma {:induction false} RechainedPrefix<G(!new)>(m: Motions<G>, kfs: seq<GraphKeyframe<G>>, n: nat)
    requires n <= |kfs|
    ensures Rechained(m, kfs)[..n] == Rechained(m, kfs[..n])
  {
    if n < |kfs| && |kfs| > 1 {
      RechainedPrefix(m, kfs[..|kfs| - 1], n);
      assert kfs[..|kfs| - 1][..n] == kfs[..n];
    } else {
      assert kfs[..n] == if n == 0 then [] else kfs;
    }
  }

  /** Each keyframe is chained onto the rebuilt one before it. */
  lemma RechainedStep<G(!new)>(m: Motions<G>, kfs: seq<GraphKeyframe<G>>, i: nat)
    requires 0 < i < |kfs|
    ensures
      var out := Rechained(m, kfs);
      out[i] == kfs[i].(guess := ChainGuess(m, out[i - 1], kfs[i - 1], kfs[i]))
  {
    hide ChainGuess;
    RechainedPrefix(m, kfs, i + 1);
    RechainedPrefix(m, kfs, i);
    var out := Rechained(m, kfs);
    assert out[i] == out[..i + 1][i] && out[i - 1] == out[..i][i - 1];
    assert kfs[..i + 1][..i] == kfs[..i];
  }

  /** Only guesses change, the first one does not, and each of the others continues the one
      before it: with the front end increment, or as saved where the source frame changes. */
  lemma RechainedAt<G(!new)>(m: Motions<G>, kfs: seq<GraphKeyframe<G>>, i: nat)
    requires IsGroup(m) && i < |kfs|
    ensures
      var out := Rechained(m, kfs);
      && out[i] == kfs[i].(guess := out[i].guess)
      && (i == 0 ==> out[0] == kfs[0])
      && (i > 0 ==>
            Minus(m, out[i].guess, out[i - 1].guess) ==
            if kfs[i].frame == kfs[i - 1].frame then Minus(m, kfs[i].src, kfs[i - 1].src)
            else Minus(m, kfs[i].guess, kfs[i - 1].guess))
  {
    var out := Rechained(m, kfs);
    if i > 0 {
      RechainedStep(m, kfs, i);
      RechainedFields(m, kfs, i - 1);
      hide Rechained, IsGroup;
      var p := out[i - 1].guess;
      MinusPlus(m, p, Minus(m, kfs[i].src, kfs[i - 1].src));
      MinusPlus(m, p, Minus(m, kfs[i].guess, kfs[i - 1].guess));
    } else {
      RechainedPrefix(m, kfs, 1);
      assert out[0] == out[..1][0] && kfs[..1][0] == kfs[0];
    }
  }

  lemma {:induction false} RechainedFields<G(!new)>(m: Motions<G>, kfs: seq<GraphKeyframe<G>>, i: nat)
    requires i < |kfs|
    ensures Rechained(m, kfs)[i] == kfs[i].(guess := Rechained(m, kfs)[i].guess)
    decreases |kfs|
  {
    if i < |kfs| - 1 {
      RechainedFields(m, kfs[..|kfs| - 1], i);
    }
  }

  /** Over any run of keyframes of one source frame, guesses differ as the front end says. */
  lemma {:induction false} RechainedTelescopes<G(!new)>(m: Motions<G>, kfs: seq<GraphKeyframe<G>>, i: nat, j: nat)
    requires IsGroup(m) && i <= j < |kfs|
    requires forall k :: i < k <= j ==> kfs[k].frame == kfs[k - 1].frame
    ensures
      var out := Rechained(m, kfs);
      Minus(m, out[j].guess, out[i].guess) == Minus(m, kfs[j].src, kfs[i].src)
  {
    var out := Rechained(m, kfs);
    if i == j {
      MinusSelf(m, out[j].guess);
      MinusSelf(m, kfs[j].src);
    } else {
      RechainedTelescopes(m, kfs, i, j - 1);
      RechainedAt(m, kfs, j);
      MinusTelescopes(m, out[i].guess, out[j - 1].guess, out[j].guess);
      MinusTelescopes(m, kfs[i].src, kfs[j - 1].src, kfs[j].src);
    }
  }

  /** Re-chaining twice changes nothing more. */
  lemma RechainedIdempotent<G(!new)>(m: Motions<G>, kfs: seq<GraphKeyframe<G>>)
    requires IsGroup(m)
    ensures Rechained(m, Rechained(m, kfs)) == Rechained(m, kfs)
  {
    forall i | 0 <= i < |kfs| ensures Rechained(m, Rechained(m, kfs))[i] == Rechained(m, kfs)[i] {
      SameAgain(m, kfs, i);
    }
  }

  lemma {:induction false} SameAgain<G(!new)>(m: Motions<G>, kfs: seq<GraphKeyframe<G>>, i: nat)
    requires IsGroup(m) && i < |kfs|
    ensures Rechained(m, Rechained(m, kfs))[i] == Rechained(m, kfs)[i]
  {
    hide Rechained;
    var out := Rechained(m, kfs);
    var again := Rechained(m, out);
    RechainedAt(m, kfs, i);
    RechainedAt(m, out, i);
    if i > 0 {
      SameAgain(m, kfs, i - 1);
      RechainedAt(m, kfs, i - 1);
      PlusMinus(m, again[i].guess, again[i - 1].guess);
      PlusMinus(m, out[i].guess, out[i - 1].guess);
    }
  }

  // ----- Edges of the graph -----

  datatype Factor<G> = Factor(a: nat, b: nat, rel: G, weak: bool)

  method AddOdometryFactors<G(!new)>(m: Motions<G>, kfs: seq<GraphKeyframe<G>>) returns (fg: seq<Factor<G>>)
    ensures |fg| == if kfs == [] then 0 else |kfs| - 1
    ensures forall i :: 0 <= i < |fg| ==> fg[i] == OdometryFactor(m, kfs, i + 1)
    ensures IsGroup(m) ==> IsOdometry(m, kfs, fg)
  {
    fg := [];
    var i := 1;
    while i < |kfs|
      invariant 1 <= i && (i == 1 || i <= |kfs|) && |fg| == i - 1
      invariant forall k :: 0 <= k < |fg| ==> fg[k] == OdometryFactor(m, kfs, k + 1)
    {
      var prev, cur := kfs[i - 1], kfs[i];
      if prev.frame == cur.frame {
        fg := fg + [Factor(i - 1, i, Minus(m, cur.src, prev.src), false)];
      } else {
        fg := fg + [Factor(i - 1, i, Minus(m, cur.guess, prev.guess), true)];
      }
      i := i + 1;
    }
    if IsGroup(m) {
      FactorsAreOdometry(m, kfs, fg);
    }
  }

  lemma FactorsAreOdometry<G(!new)>(m: Motions<G>, kfs: seq<GraphKeyframe<G>>, fg: seq<Factor<G>>)
    requires IsGroup(m) && |fg| == (if kfs == [] then 0 else |kfs| - 1)
    requires forall i :: 0 <= i < |fg| ==> fg[i] == OdometryFactor(m, kfs, i + 1)
    ensures IsOdometry(m, kfs, fg)
  {
    forall i | 0 <= i < |fg|
      ensures m.mul(if fg[i].weak then kfs[i].guess else kfs[i].src, fg[i].rel)
           == (if fg[i].weak then kfs[i + 1].guess else kfs[i + 1].src) {
      PlusMinus(m, kfs[i + 1].src, kfs[i].src);
      PlusMinus(m, kfs[i + 1].guess, kfs[i].guess);
    }
  }

  function OdometryFactor<G(!new)>(m: Motions<G>, kfs: seq<GraphKeyframe<G>>, i: nat): Factor<G>
    requires 0 < i < |kfs|
  {
    var same := kfs[i - 1].frame == kfs[i].frame;
    Factor(i - 1, i,
           if same then Minus(m, kfs[i].src, kfs[i - 1].src) else Minus(m, kfs[i].guess, kfs[i - 1].guess),
           !same)
  }

  /** Edges `fg` join neighbours, weakly exactly across source frames; within one, they carry the motion
      of the front end, whatever the guesses, and across two, that between the guesses. */
  ghost predicate IsOdometry<G(!new)>(m: Motions<G>, kfs: seq<GraphKeyframe<G>>, fg: seq<Factor<G>>) {
    && |fg| + 1 == |kfs| + (if kfs == [] then 1 else 0)
    && forall i {:trigger fg[i]} :: 0 <= i < |fg| ==>
         && fg[i].a == i && fg[i].b == i + 1
         && (fg[i].weak <==> kfs[i].frame != kfs[i + 1].frame)
         && m.mul(if fg[i].weak then kfs[i].guess else kfs[i].src, fg[i].rel)
            == (if fg[i].weak then kfs[i + 1].guess else kfs[i + 1].src)
  }

  /** The loops the graph uses: those between two different existing keyframes, in order. */
  function LoopFactors<G>(n: nat, loops: seq<Edge<G>>): seq<Factor<G>> {
    if loops == [] then []
    else
      var e := loops[|loops| - 1];
      LoopFactors(n, loops[..|loops| - 1]) +
      if e.from < n && e.to < n && e.from != e.to then [Factor(e.from, e.to, e.rel, false)] else []
  }

  method AddLoopFactors<G>(n: nat, loops: seq<Edge<G>>) returns (fg: seq<Factor<G>>)
    ensures fg == LoopFactors(n, loops)
  {
    fg := [];
    var i := 0;
    while i < |loops|
      invariant 0 <= i <= |loops| && fg == LoopFactors(n, loops[..i])
    {
      var lc := loops[i];
      assert loops[..i + 1][..i] == loops[..i];
      i := i + 1;
      if lc.from >= n || lc.to >= n || lc.from == lc.to {
        continue;
      }
      fg := fg + [Factor(lc.from, lc.to, lc.rel, false)];
    }
    assert loops[..i] == loops;
  }

  /** Every edge of the odometry chain has zero residual at re-chained guesses. */
  lemma RechainedHasNoResidual<G(!new)>(m: Motions<G>, kfs: seq<GraphKeyframe<G>>, i: nat)
    requires IsGroup(m) && 0 < i < |kfs|
    ensures
      var out := Rechained(m, kfs);
      var f := OdometryFactor(m, out, i);
      Minus(m, out[f.b].guess, out[f.a].guess) == f.rel
  {
    RechainedAt(m, kfs, i);
    RechainedAt(m, kfs, i - 1);
  }

  /** The graph leaves out no loop between two different existing keyframes. */
  lemma {:induction false} UsableLoopsAllUsed<G>(n: nat, loops: seq<Edge<G>>)
    requires forall i :: 0 <= i < |loops| ==> loops[i].from < n && loops[i].to < n && loops[i].from != loops[i].to
    ensures |LoopFactors(n, loops)| == |loops|
    ensures forall i :: 0 <= i < |loops| ==>
        LoopFactors(n, loops)[i] == Factor(loops[i].from, loops[i].to, loops[i].rel, false)
  {
    if loops != [] {
      UsableLoopsAllUsed(n, loops[..|loops| - 1]);
    }
  }

  /** All edges in the graph are between two different existing keyframes. */
  lemma {:induction false} OnlyUsableLoops<G>(n: nat, loops: seq<Edge<G>>)
    ensures forall f :: f in LoopFactors(n, loops) ==> f.a < n && f.b < n && f.a != f.b && !f.weak
  {
    if loops != [] {
      OnlyUsableLoops(n, loops[..|loops| - 1]);
    }
  }

  // ----- What the odometry edges say -----

  /** All keyframes from `i` to `j` have one source frame. */
  ghost predicate OneFrame<G>(kfs: seq<GraphKeyframe<G>>, i: nat, j: nat)
    requires j < |kfs|
  {
    forall k :: i < k <= j ==> kfs[k].frame == kfs[k - 1].frame
  }

  /** The edges from keyframe `i` to `j`, one after the other. */
  function Composed<G(!new)>(m: Motions<G>, fg: seq<Factor<G>>, i: nat, j: nat): G
    requires j <= |fg|
    decreases j
  {
    if j <= i then m.one else m.mul(Composed(m, fg, i, j - 1), fg[j - 1].rel)
  }

  /** Over a span of one source frame, the edges compose to the motion of the front end. */
  lemma {:induction false} OdometryComposes<G(!new)>(
    m: Motions<G>, kfs: seq<GraphKeyframe<G>>, fg: seq<Factor<G>>, i: nat, j: nat)
    requires IsGroup(m) && IsOdometry(m, kfs, fg) && i <= j < |kfs| && OneFrame(kfs, i, j)
    ensures m.mul(kfs[i].src, Composed(m, fg, i, j)) == kfs[j].src
    decreases j
  {
    if i == j {
      assert Neutral(m, kfs[i].src);
    } else {
      OdometryComposes(m, kfs, fg, i, j - 1);
      assert kfs[j].frame == kfs[j - 1].frame && !fg[j - 1].weak;
      assert Associative(m, kfs[i].src, Composed(m, fg, i, j - 1), fg[j - 1].rel);
    }
  }

  /** And they do not depend on any guess, nor on what was optimized before. */
  lemma OdometryIgnoresGuesses<G(!new)>(
    m: Motions<G>, a: seq<GraphKeyframe<G>>, b: seq<GraphKeyframe<G>>, fa: seq<Factor<G>>, fb: seq<Factor<G>>, i: nat)
    requires IsGroup(m) && IsOdometry(m, a, fa) && IsOdometry(m, b, fb) && |a| == |b| && i + 1 < |a|
    requires forall k :: 0 <= k < |a| ==> a[k].frame == b[k].frame && a[k].src == b[k].src
    requires a[i].frame == a[i + 1].frame
    ensures fa[i] == fb[i]
  {
    MinusUnique(m, a[i + 1].src, a[i].src, fa[i].rel);
    MinusUnique(m, b[i + 1].src, b[i].src, fb[i].rel);
  }

  /** An edge within one frame has no residual exactly when the guesses keep the motion of the front end. */
  lemma ResidualTellsMotion<G(!new)>(m: Motions<G>, kfs: seq<GraphKeyframe<G>>, fg: seq<Factor<G>>, i: nat)
    requires IsGroup(m) && IsOdometry(m, kfs, fg) && i + 1 < |kfs| && kfs[i].frame == kfs[i + 1].frame
    ensures m.mul(kfs[i].guess, fg[i].rel) == kfs[i + 1].guess
       <==> Minus(m, kfs[i + 1].guess, kfs[i].guess) == Minus(m, kfs[i + 1].src, kfs[i].src)
  {
    MinusUnique(m, kfs[i + 1].src, kfs[i].src, fg[i].rel);
    MinusPlus(m, kfs[i].guess, fg[i].rel);
    PlusMinus(m, kfs[i + 1].guess, kfs[i].guess);
  }
}
