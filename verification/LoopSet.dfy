/** The loops of the map over whole runs, and why the result of a scan does not depend on the
    order in which the detector reports them. */
module LoopSet {
  import opened Basics
  import opened Motion
  import opened LoopOdometryCheck
  import opened MapperTypes
  import opened MapperSpec
  import opened SolveAtomicity
  import opened GlobalGraph

  // ----- What a merge does, edge by edge -----

  ghost predicate DistinctPairs<G>(es: seq<Edge<G>>) {
    forall i, j :: 0 <= i < j < |es| ==> PairOf(es[i]) != PairOf(es[j])
  }

  function PairsOf<G>(es: seq<Edge<G>>): (ps: set<(nat, nat)>) {
    set i | 0 <= i < |es| :: PairOf(es[i])
  }

  /** An edge becomes a loop. */
  ghost predicate Merges<G(!new)>(cfg: Config<G>, kfs: seq<Keyframe<G>>, pairs: set<(nat, nat)>, e: Edge<G>) {
    InRange(|kfs|, e) && PairOf(e) !in pairs && !RejectedByOdometry(cfg, kfs, e)
  }

  /** An edge is off the odometry. */
  ghost predicate Rejects<G(!new)>(cfg: Config<G>, kfs: seq<Keyframe<G>>, pairs: set<(nat, nat)>, e: Edge<G>) {
    InRange(|kfs|, e) && PairOf(e) !in pairs && RejectedByOdometry(cfg, kfs, e)
  }

  ghost function Merging<G(!new)>(
    cfg: Config<G>, kfs: seq<Keyframe<G>>, pairs: set<(nat, nat)>, es: seq<Edge<G>>): seq<Edge<G>>
  {
    if es == [] then []
    else
      var n := |es| - 1;
      Merging(cfg, kfs, pairs, es[..n]) + if Merges(cfg, kfs, pairs, es[n]) then [es[n]] else []
  }

  ghost function Rejecting<G(!new)>(
    cfg: Config<G>, kfs: seq<Keyframe<G>>, pairs: set<(nat, nat)>, es: seq<Edge<G>>): seq<Edge<G>>
  {
    if es == [] then []
    else
      var n := |es| - 1;
      Rejecting(cfg, kfs, pairs, es[..n]) + if Rejects(cfg, kfs, pairs, es[n]) then [es[n]] else []
  }

  lemma PairsAdd<G>(es: seq<Edge<G>>, e: Edge<G>)
    ensures PairsOf(es + [e]) == PairsOf(es) + {PairOf(e)}
  {
    var all := es + [e];
    assert forall i :: 0 <= i < |es| ==> all[i] == es[i];
    assert all[|es|] == e;
  }

  lemma {:induction false} MergingIsPart<G(!new)>(
    cfg: Config<G>, kfs: seq<Keyframe<G>>, pairs: set<(nat, nat)>, es: seq<Edge<G>>)
    ensures PairsOf(Merging(cfg, kfs, pairs, es)) <= PairsOf(es)
    ensures PairsOf(Rejecting(cfg, kfs, pairs, es)) <= PairsOf(es)
  {
    if es != [] {
      hide Merges, Rejects;
      var n := |es| - 1;
      MergingIsPart(cfg, kfs, pairs, es[..n]);
      PairsAdd(es[..n], es[n]);
      PairsAdd(Merging(cfg, kfs, pairs, es[..n]), es[n]);
      PairsAdd(Rejecting(cfg, kfs, pairs, es[..n]), es[n]);
      assert es == es[..n] + [es[n]];
    }
  }

  /** Merging edges of distinct pairs filters them: which ones become loops, and which ones are
      rejected, depends on each edge alone. */
  lemma {:induction false} MergeIsFilter<G(!new)>(
    cfg: Config<G>, kfs: seq<Keyframe<G>>, x: Loops<G>, es: seq<Edge<G>>)
    requires DistinctPairs(es)
    ensures
      var y := MergeAll(cfg, kfs, x, es);
      && y.edges == x.edges + Merging(cfg, kfs, x.pairs, es)
      && y.pairs == x.pairs + PairsOf(Merging(cfg, kfs, x.pairs, es))
      && y.rejected == x.rejected + PairsOf(Rejecting(cfg, kfs, x.pairs, es))
    decreases |es|
  {
    if es != [] {
      hide RejectedByOdometry, PairsOf;
      var n := |es| - 1;
      MergeIsFilter(cfg, kfs, x, es[..n]);
      var was := Merging(cfg, kfs, x.pairs, es[..n]);
      MergingIsPart(cfg, kfs, x.pairs, es[..n]);
      LastPairIsNew(es);
      PairsAdd(was, es[n]);
      PairsAdd(Rejecting(cfg, kfs, x.pairs, es[..n]), es[n]);
      assert (x.edges + was) + [es[n]] == x.edges + (was + [es[n]]);
      assert was + [] == was && Rejecting(cfg, kfs, x.pairs, es[..n]) + [] == Rejecting(cfg, kfs, x.pairs, es[..n]);
    } else {
      assert x.edges + [] == x.edges;
    }
  }

  lemma LastPairIsNew<G>(es: seq<Edge<G>>)
    requires DistinctPairs(es) && es != []
    ensures PairOf(es[|es| - 1]) !in PairsOf(es[..|es| - 1])
  {
  }

  /** A pair is never both merged and rejected, if the detector leaves out the pairs it was told
      to and reports each pair once. */
  lemma MergedAndRejectedDisjoint<G(!new)>(cfg: Config<G>, kfs: seq<Keyframe<G>>, x: Loops<G>, es: seq<Edge<G>>)
    requires DistinctPairs(es) && PairsOf(es) !! x.pairs && PairsOf(es) !! x.rejected
    requires x.pairs !! x.rejected
    ensures var y := MergeAll(cfg, kfs, x, es); y.pairs !! y.rejected
  {
    hide PairsOf, MergeAll;
    MergeIsFilter(cfg, kfs, x, es);
    MergingIsPart(cfg, kfs, x.pairs, es);
    PartsDisjoint(cfg, kfs, x.pairs, es);
  }

  lemma {:induction false} PartsDisjoint<G(!new)>(
    cfg: Config<G>, kfs: seq<Keyframe<G>>, pairs: set<(nat, nat)>, es: seq<Edge<G>>)
    requires DistinctPairs(es)
    ensures PairsOf(Merging(cfg, kfs, pairs, es)) !! PairsOf(Rejecting(cfg, kfs, pairs, es))
  {
    if es != [] {
      hide RejectedByOdometry, PairsOf;
      var n := |es| - 1;
      PartsDisjoint(cfg, kfs, pairs, es[..n]);
      MergingIsPart(cfg, kfs, pairs, es[..n]);
      LastPairIsNew(es);
      PairsAdd(Merging(cfg, kfs, pairs, es[..n]), es[n]);
      PairsAdd(Rejecting(cfg, kfs, pairs, es[..n]), es[n]);
      assert Merging(cfg, kfs, pairs, es[..n]) + [] == Merging(cfg, kfs, pairs, es[..n]);
      assert Rejecting(cfg, kfs, pairs, es[..n]) + [] == Rejecting(cfg, kfs, pairs, es[..n]);
    } else {
      assert PairsOf<G>([]) == {};
    }
  }

  lemma {:induction false} MergeAppends<G(!new)>(cfg: Config<G>, kfs: seq<Keyframe<G>>, x: Loops<G>, es: seq<Edge<G>>)
    ensures x.edges <= MergeAll(cfg, kfs, x, es).edges
    decreases |es|
  {
    if es != [] {
      hide InRange, RejectedByOdometry;
      MergeAppends(cfg, kfs, x, es[..|es| - 1]);
    }
  }

  // ----- Every reachable state -----

  /** The set of pairs is that of the loops, no pair twice, all between two different existing
      keyframes, and none off the odometry if that is checked. */
  ghost predicate LoopInvariant<G(!new)>(cfg: Config<G>, kfs: seq<Keyframe<G>>, x: Loops<G>) {
    && x.pairs == PairsOf(x.edges) && DistinctPairs(x.edges)
    && (forall i :: 0 <= i < |x.edges| ==> InRange(|kfs|, x.edges[i]) && !RejectedByOdometry(cfg, kfs, x.edges[i]))
  }

  /** What the odometry check looks at only ever grows. */
  ghost predicate SameOrigin<G>(a: seq<Keyframe<G>>, b: seq<Keyframe<G>>) {
    |a| <= |b| && forall i :: 0 <= i < |a| ==> a[i].frame == b[i].frame && a[i].src == b[i].src
  }

  /** The verdict of the odometry on a loop never changes. */
  lemma SameVerdict<G(!new)>(cfg: Config<G>, a: seq<Keyframe<G>>, b: seq<Keyframe<G>>, e: Edge<G>)
    requires SameOrigin(a, b) && InRange(|a|, e)
    ensures RejectedByOdometry(cfg, a, e) == RejectedByOdometry(cfg, b, e)
  {
    hide CheckLoop;
    var (first, last) := PairOf(e);
    assert OneChain(a, first, last) == OneChain(b, first, last);
    assert Sources(a) == Sources(b)[0..|a|];
    CutOutWindow(cfg.m, Sources(b), 0, |a|, e.from, e.to, e.rel, cfg.limits);
  }

  lemma InvariantOverMoreKeyframes<G(!new)>(cfg: Config<G>, a: seq<Keyframe<G>>, b: seq<Keyframe<G>>, x: Loops<G>)
    requires SameOrigin(a, b) && LoopInvariant(cfg, a, x)
    ensures LoopInvariant(cfg, b, x)
  {
    forall i | 0 <= i < |x.edges| ensures InRange(|b|, x.edges[i]) && !RejectedByOdometry(cfg, b, x.edges[i]) {
      SameVerdict(cfg, a, b, x.edges[i]);
    }
  }

  lemma MergeOneKeepsInvariant<G(!new)>(cfg: Config<G>, kfs: seq<Keyframe<G>>, x: Loops<G>, e: Edge<G>)
    requires LoopInvariant(cfg, kfs, x)
    ensures LoopInvariant(cfg, kfs, MergeOne(cfg, kfs, x, e))
  {
    hide RejectedByOdometry;
    PairsAdd(x.edges, e);
  }

  lemma {:induction false} MergeKeepsInvariant<G(!new)>(
    cfg: Config<G>, kfs: seq<Keyframe<G>>, x: Loops<G>, es: seq<Edge<G>>)
    requires LoopInvariant(cfg, kfs, x)
    ensures LoopInvariant(cfg, kfs, MergeAll(cfg, kfs, x, es))
    decreases |es|
  {
    if es != [] {
      hide MergeOne, LoopInvariant;
      MergeKeepsInvariant(cfg, kfs, x, es[..|es| - 1]);
      MergeOneKeepsInvariant(cfg, kfs, MergeAll(cfg, kfs, x, es[..|es| - 1]), es[|es| - 1]);
    }
  }

  lemma StepKeepsOrigin<G(!new)>(cfg: Config<G>, s: State<G>, ev: Event<G>)
    ensures SameOrigin(s.kfs, Step(cfg, s, ev).kfs)
    ensures !ev.LoopsEvent? ==> Step(cfg, s, ev).loops == s.loops
  {
    hide Insert, Observe;
    match ev
    case KeyframeEvent(req, bias) => InsertKeepsOrigin(cfg, s, req, bias);
    case ObservationEvent(o) =>
      ObserveOver(cfg, s, o, Poses(s.kfs), s.geo);
      ObserveKeepsLoops(cfg, s, o);
    case LoopsEvent(edges) =>
  }

  lemma InsertKeepsOrigin<G(!new)>(cfg: Config<G>, s: State<G>, req: Request<G>, bias: GyroBias)
    ensures SameOrigin(s.kfs, Insert(cfg, s, req, bias).kfs) && Insert(cfg, s, req, bias).loops == s.loops
  {
    hide Appended, RetryGnss, RetryImages;
    var s1 := Logged(cfg, s, KeyframeEntry(req, bias));
    RetryKeepsLoops(cfg, Appended(cfg, s1, req, bias));
    AppendKeepsLoops(cfg, s1, req, bias);
    if Accepts(s, req) {
      var _ := InsertedKeyframe(cfg, s, req, bias);
    }
  }

  lemma ObserveKeepsLoops<G(!new)>(cfg: Config<G>, s: State<G>, o: Observation<G>)
    ensures Observe(cfg, s, o).loops == s.loops
  {
    hide AttachGnss, AddGravitySample, AddGyroSample, RetryImagePart, FinishPart;
  }

  lemma RetryKeepsLoops<G(!new)>(cfg: Config<G>, s: State<G>)
    ensures RetryImages(cfg, RetryGnss(cfg, s)).loops == s.loops
  {
  }

  lemma AppendKeepsLoops<G(!new)>(cfg: Config<G>, s: State<G>, req: Request<G>, bias: GyroBias)
    ensures Appended(cfg, s, req, bias).loops == s.loops
  {
  }

  lemma OpKeepsInvariant<G(!new)>(
    cfg: Config<G>, opt: GraphInput<G> -> GraphResult<G>, c: Concurrent<G>, op: Op<G>)
    requires LoopInvariant(cfg, c.s.kfs, c.s.loops)
    ensures var s := Do(cfg, opt, c, op).s; LoopInvariant(cfg, s.kfs, s.loops)
    ensures SameOrigin(c.s.kfs, Do(cfg, opt, c, op).s.kfs)
  {
    hide LoopInvariant, Insert, Observe, MergeAll, CommittedPoses, Snapshot;
    var s := Do(cfg, opt, c, op).s;
    if op.Input? {
      StepKeepsOrigin(cfg, c.s, op.ev);
      if op.ev.LoopsEvent? {
        MergeKeepsInvariant(cfg, c.s.kfs, c.s.loops, op.ev.edges);
      }
    }
    InvariantOverMoreKeyframes(cfg, c.s.kfs, s.kfs, s.loops) by {
      if !(op.Input? && op.ev.LoopsEvent?) {
        assert s.loops == c.s.loops;
      }
    }
  }

  /** Whatever the detector reports: in every reachable state. As the odometry is checked in the
      present state, each stored loop passes the check in all later states too. */
  lemma {:induction false} LoopsConsistent<G(!new)>(
    cfg: Config<G>, opt: GraphInput<G> -> GraphResult<G>, ops: seq<Op<G>>)
    ensures var s := StateAfter(cfg, opt, ops); LoopInvariant(cfg, s.kfs, s.loops)
    decreases |ops|
  {
    if ops != [] {
      hide LoopInvariant, Do;
      LoopsConsistent(cfg, opt, ops[..|ops| - 1]);
      OpKeepsInvariant(cfg, opt, DoAll(cfg, opt, Concurrent(InitialState(cfg.m), None, 0), ops[..|ops| - 1]),
          ops[|ops| - 1]);
    }
  }

  /** So each stored loop whose span stays in one front end chain passes the odometry check of the
      whole trajectory, and the graph of any snapshot has one edge for each loop, in order. */
  lemma StoredLoops<G(!new)>(
    cfg: Config<G>, opt: GraphInput<G> -> GraphResult<G>, ops: seq<Op<G>>, i: nat)
    requires i < |StateAfter(cfg, opt, ops).loops.edges|
    ensures
      var s := StateAfter(cfg, opt, ops);
      var e := s.loops.edges[i];
      && InRange(|s.kfs|, e)
      && (cfg.odometryCheck && OneChain(s.kfs, PairOf(e).0, PairOf(e).1) ==>
            CheckLoop(cfg.m, Sources(s.kfs), e.from, e.to, e.rel, cfg.limits).accepted)
      && |LoopFactors(|s.kfs|, s.loops.edges)| == |s.loops.edges|
      && LoopFactors(|s.kfs|, s.loops.edges)[i] == Factor(e.from, e.to, e.rel, false)
  {
    LoopsConsistent(cfg, opt, ops);
    var s := StateAfter(cfg, opt, ops);
    hide StateAfter, CheckLoop, LoopFactors;
    assert InRange(|s.kfs|, s.loops.edges[i]) && !RejectedByOdometry(cfg, s.kfs, s.loops.edges[i]);
    UsableLoopsAllUsed(|s.kfs|, s.loops.edges);
  }

  // ----- The order of the edges -----

  /** The sort key: both indices, the lower one first. */
  predicate Before<G>(a: Edge<G>, b: Edge<G>) {
    PairOf(a).0 < PairOf(b).0 || (PairOf(a).0 == PairOf(b).0 && PairOf(a).1 < PairOf(b).1)
  }

  /** What a sort guarantees. */
  ghost predicate Sorted<G>(es: seq<Edge<G>>) {
    forall i, j :: 0 <= i < j < |es| ==> !Before(es[j], es[i])
  }

  ghost predicate SortOf<G>(out: seq<Edge<G>>, es: seq<Edge<G>>) {
    Sorted(out) && multiset(out) == multiset(es)
  }

  lemma DistinctCounts<G>(es: seq<Edge<G>>, i: nat, j: nat)
    requires i < j < |es| && es[i] == es[j]
    ensures multiset(es)[es[i]] >= 2
  {
    assert es == es[..j] + [es[j]] + es[j + 1..];
    assert es[..j][i] == es[i];
    assert es[i] in multiset(es[..j]);
  }

  lemma DistinctPairsOfMultiset<G>(a: seq<Edge<G>>, b: seq<Edge<G>>)
    requires DistinctPairs(a) && multiset(a) == multiset(b)
    ensures DistinctPairs(b)
  {
    forall i, j | 0 <= i < j < |b| ensures PairOf(b[i]) != PairOf(b[j]) {
      assert b[i] in multiset(b) && b[j] in multiset(b);
      assert b[i] in multiset(a) && b[j] in multiset(a);
      if b[i] == b[j] {
        DistinctCounts(b, i, j);
        NoDuplicatesCount(a, b[i]);
      } else {
        var k :| 0 <= k < |a| && a[k] == b[i];
        var l :| 0 <= l < |a| && a[l] == b[j];
        assert k < l || l < k;
      }
    }
  }

  lemma {:induction false} NoDuplicatesCount<G>(es: seq<Edge<G>>, e: Edge<G>)
    requires DistinctPairs(es)
    ensures multiset(es)[e] <= 1
  {
    if es != [] {
      var n := |es| - 1;
      NoDuplicatesCount(es[..n], e);
      assert es == es[..n] + [es[n]];
      if e == es[n] {
        assert e !in es[..n];
        assert e !in multiset(es[..n]);
      }
    }
  }

  /** The sort key orders edges of distinct pairs totally: there is one way to sort them. */
  lemma {:induction false} SortedUnique<G>(a: seq<Edge<G>>, b: seq<Edge<G>>)
    requires Sorted(a) && Sorted(b) && multiset(a) == multiset(b) && DistinctPairs(a)
    ensures a == b
    decreases |a|
  {
    if a == [] {
      assert |multiset(a)| == |multiset(b)|;
    } else {
      assert |multiset(a)| == |multiset(b)|;
      LastIsLargest(a, b);
      WithoutLast(a, b);
      hide PairOf, Before;
      SortedUnique(a[..|a| - 1], b[..|b| - 1]);
      assert a == a[..|a| - 1] + [a[|a| - 1]] && b == b[..|b| - 1] + [b[|b| - 1]];
    }
  }

  lemma WithoutLast<T>(a: seq<T>, b: seq<T>)
    requires a != [] && b != [] && multiset(a) == multiset(b) && a[|a| - 1] == b[|b| - 1]
    ensures multiset(a[..|a| - 1]) == multiset(b[..|b| - 1])
  {
    assert a == a[..|a| - 1] + [a[|a| - 1]] && b == b[..|b| - 1] + [b[|b| - 1]];
    assert multiset(a[..|a| - 1]) == multiset(a) - multiset([a[|a| - 1]]);
    assert multiset(b[..|b| - 1]) == multiset(b) - multiset([b[|b| - 1]]);
  }

  lemma LastIsLargest<G>(a: seq<Edge<G>>, b: seq<Edge<G>>)
    requires Sorted(a) && Sorted(b) && multiset(a) == multiset(b) && DistinctPairs(a) && a != [] && |a| == |b|
    ensures a[|a| - 1] == b[|b| - 1]
  {
    var u, v := a[|a| - 1], b[|b| - 1];
    assert u in multiset(a) && v in multiset(b);
    assert u in multiset(b) && v in multiset(a);
    var i :| 0 <= i < |b| && b[i] == u;
    var j :| 0 <= j < |a| && a[j] == v;
    assert !Before(v, u) && !Before(u, v);
  }

  /** However the detector threads were scheduled, and whatever sort is used: the same loops,
      in the same order, and the same pairs merged and rejected. */
  lemma OrderDoesNotMatter<G(!new)>(
    cfg: Config<G>, s: State<G>, es: seq<Edge<G>>, fs: seq<Edge<G>>, a: seq<Edge<G>>, b: seq<Edge<G>>)
    requires multiset(es) == multiset(fs) && DistinctPairs(es)
    requires SortOf(a, es) && SortOf(b, fs)
    ensures Merge(cfg, s, a) == Merge(cfg, s, b)
  {
    DistinctPairsOfMultiset(es, a);
    SortedUnique(a, b);
  }

  /** With a pair reported twice, it does: the first of both wins, and a sort may leave either first. */
  lemma OrderMattersForTwins<G(!new)>(cfg: Config<G>, s: State<G>, x: G, y: G)
    requires x != y && |s.kfs| == 2 && s.loops == Loops([], {}, {}) && !cfg.odometryCheck
    ensures
      var a, b := [Edge(0, 1, x), Edge(0, 1, y)], [Edge(0, 1, y), Edge(0, 1, x)];
      SortOf(a, a) && SortOf(b, a) && Merge(cfg, s, a) != Merge(cfg, s, b)
  {
    var e, f := Edge(0, 1, x), Edge(0, 1, y);
    assert SortOf([e, f], [e, f]) && SortOf([f, e], [e, f]);
    hide AgainstOdometry, MergeAll, SortOf;
    MergeTwo(cfg, s.kfs, s.loops, e, f);
    MergeTwo(cfg, s.kfs, s.loops, f, e);
    FirstWins(cfg, s.kfs, s.loops, e, f);
    FirstWins(cfg, s.kfs, s.loops, f, e);
    assert [e][0] != [f][0];
  }

  lemma FirstWins<G(!new)>(cfg: Config<G>, kfs: seq<Keyframe<G>>, x: Loops<G>, e: Edge<G>, f: Edge<G>)
    requires InRange(|kfs|, e) && PairOf(e) == PairOf(f) && x == Loops([], {}, {}) && !cfg.odometryCheck
    ensures MergeOne(cfg, kfs, MergeOne(cfg, kfs, x, e), f).edges == [e]
  {
    hide AgainstOdometry;
  }

  lemma MergeTwo<G(!new)>(cfg: Config<G>, kfs: seq<Keyframe<G>>, x: Loops<G>, e: Edge<G>, f: Edge<G>)
    ensures MergeAll(cfg, kfs, x, [e, f]) == MergeOne(cfg, kfs, MergeOne(cfg, kfs, x, e), f)
  {
    hide MergeOne;
    assert [e, f][..1] == [e] && [e][..0] == [];
    assert MergeAll(cfg, kfs, x, [e]) == MergeOne(cfg, kfs, x, e);
  }

  /** Of two edges of one pair, the order does not matter if and only if they are the same, or the pair
      is ignored anyway, or both are off the odometry, or one is and the pair was rejected before. */
  lemma TwinsCommute<G(!new)>(cfg: Config<G>, kfs: seq<Keyframe<G>>, x: Loops<G>, e: Edge<G>, f: Edge<G>)
    requires PairOf(e) == PairOf(f)
    ensures MergeAll(cfg, kfs, x, [e, f]) == MergeAll(cfg, kfs, x, [f, e]) <==>
      || e == f || !InRange(|kfs|, e) || PairOf(e) in x.pairs
      || (RejectedByOdometry(cfg, kfs, e) && RejectedByOdometry(cfg, kfs, f))
      || (RejectedByOdometry(cfg, kfs, e) != RejectedByOdometry(cfg, kfs, f) && PairOf(e) in x.rejected)
  {
    hide AgainstOdometry, MergeAll;
    MergeTwo(cfg, kfs, x, e, f);
    MergeTwo(cfg, kfs, x, f, e);
    SamePairSameRange(|kfs|, e, f);
    if InRange(|kfs|, e) && PairOf(e) !in x.pairs {
      hide RejectedByOdometry, PairOf;
      assert (x.edges + [e])[|x.edges|] == e && (x.edges + [f])[|x.edges|] == f;
    }
  }

  lemma SamePairSameRange<G>(n: nat, e: Edge<G>, f: Edge<G>)
    requires PairOf(e) == PairOf(f)
    ensures InRange(n, e) == InRange(n, f)
  {
  }

  // ----- Exactly which edges become loops -----

  /** What the front end says of edge `e`: it misses by `d`, over a path of one chain. */
  ghost predicate MissesBy<G(!new)>(cfg: Config<G>, kfs: seq<Keyframe<G>>, e: Edge<G>, d: G)
    requires InRange(|kfs|, e)
  {
    Misses(cfg.m, Sources(kfs), e.from, e.to, e.rel, d)
  }

  /** With the check on, an edge within one chain becomes a loop if and only if its pair is new and it
      misses the odometry by no more than both limits allow; if it misses by more, its pair is
      rejected. An edge across chains, or any without the check, becomes one if its pair is new. */
  lemma MergesExactly<G(!new)>(cfg: Config<G>, kfs: seq<Keyframe<G>>, x: Loops<G>, e: Edge<G>, d: G)
    requires IsGroup(cfg.m)
    requires e.from != e.to && e.from < |kfs| && e.to < |kfs| && MissesBy(cfg, kfs, e, d)
    ensures
      var pair := (Min(e.from, e.to), Max(e.from, e.to));
      var y := MergeOne(cfg, kfs, x, e);
      var checked := cfg.odometryCheck && forall i :: pair.0 < i <= pair.1 ==> kfs[i].frame == kfs[i - 1].frame;
      var fits := Within(cfg.m, d, PathLength(cfg.m, Sources(kfs), pair.0, pair.1), cfg.limits);
      && (y.edges == x.edges + [e] <==> pair !in x.pairs && (checked ==> fits))
      && (y.edges == x.edges <==> pair in x.pairs || (checked && !fits))
      && (pair !in x.pairs && checked && !fits ==> y.rejected == x.rejected + {pair} && y.pairs == x.pairs)
      && (pair !in x.pairs && (checked ==> fits) ==> y.pairs == x.pairs + {pair} && y.rejected == x.rejected)
  {
    RejectedExactly(cfg, kfs, e, d);
    hide RejectedByOdometry, Within, PathLength, MissesBy, IsGroup;
    assert PairOf(e) == (Min(e.from, e.to), Max(e.from, e.to));
    assert |x.edges + [e]| != |x.edges|;
  }

  lemma RejectedExactly<G(!new)>(cfg: Config<G>, kfs: seq<Keyframe<G>>, e: Edge<G>, d: G)
    requires IsGroup(cfg.m) && InRange(|kfs|, e) && MissesBy(cfg, kfs, e, d)
    ensures
      var i, j := Min(e.from, e.to), Max(e.from, e.to);
      RejectedByOdometry(cfg, kfs, e) <==>
        && cfg.odometryCheck && (forall k :: i < k <= j ==> kfs[k].frame == kfs[k - 1].frame)
        && !Within(cfg.m, d, PathLength(cfg.m, Sources(kfs), i, j), cfg.limits)
  {
    hide CheckLoop, PathLength, Misses, IsGroup, Within;
    VerdictIsExact(cfg.m, Sources(kfs), e.from, e.to, e.rel, cfg.limits);
    assert PairOf(e) == (Min(e.from, e.to), Max(e.from, e.to));
  }

  /** Edges that are no loops at all are ignored. */
  lemma NoLoopIgnored<G(!new)>(cfg: Config<G>, kfs: seq<Keyframe<G>>, x: Loops<G>, e: Edge<G>)
    requires e.from == e.to || |kfs| <= e.from || |kfs| <= e.to
    ensures MergeOne(cfg, kfs, x, e) == x
  {
  }

  /** So with the check on, in every reachable state: a stored loop within one chain misses the odometry
      by no more than both limits allow. */
  lemma StoredLoopsWithinLimits<G(!new)>(
    cfg: Config<G>, opt: GraphInput<G> -> GraphResult<G>, ops: seq<Op<G>>, i: nat, d: G)
    requires IsGroup(cfg.m) && cfg.odometryCheck && i < |StateAfter(cfg, opt, ops).loops.edges|
    ensures
      var s := StateAfter(cfg, opt, ops);
      var e := s.loops.edges[i];
      && InRange(|s.kfs|, e)
      && (MissesBy(cfg, s.kfs, e, d) && OneChain(s.kfs, Min(e.from, e.to), Max(e.from, e.to)) ==>
            Within(cfg.m, d, PathLength(cfg.m, Sources(s.kfs), Min(e.from, e.to), Max(e.from, e.to)), cfg.limits))
  {
    StoredLoops(cfg, opt, ops, i);
    var s := StateAfter(cfg, opt, ops);
    var e := s.loops.edges[i];
    assert InRange(|s.kfs|, e) && !RejectedByOdometry(cfg, s.kfs, e);
    hide StateAfter, RejectedByOdometry, Within, PathLength, IsGroup, MissesBy;
    if MissesBy(cfg, s.kfs, e, d) {
      RejectedExactly(cfg, s.kfs, e, d);
    }
  }
}
