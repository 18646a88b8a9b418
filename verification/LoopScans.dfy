/** Which keyframe pairs the loop closure scans look at. Incremental scans only look at pairs
    with a keyframe newer than the last scan; still no pair is ever missed, although scans may
    return early and the detector may throw. */
module LoopScans {
  import opened Basics
  import opened Motion
  import opened MapperTypes
  import opened MapperSpec
  import opened SolveAtomicity
  import opened LoopSet

  // ----- One scan -----

  datatype ScanParams = ScanParams(incremental: bool, fullEveryN: nat, minNew: nat)

  /** The counters kept between scans, under the scan lock. */
  datatype Counters = Counters(kfCount: nat, snapshotSize: nat, incrementalScans: nat, scans: nat)

  /** What the detector is asked: the pairs of the first `n` keyframes but for the excluded ones;
      in an incremental scan, only those with a keyframe from `firstNew` on. */
  datatype Query = Query(n: nat, firstNew: Option<nat>, excluded: set<(nat, nat)>)

  predicate Offers(q: Query, p: (nat, nat)) {
    p.0 < p.1 < q.n && (q.firstNew.Some? ==> q.firstNew.value <= p.1) && p !in q.excluded
  }

  /** Up to the detector call; None is an early return. */
  function BeginScan<G>(par: ScanParams, s: State<G>, k: Counters, force: bool): (Counters, Option<Query>) {
    var full := force || !par.incremental || (par.fullEveryN > 0 && k.incrementalScans >= par.fullEveryN);
    var n := |s.kfs|;
    if !force && n < k.kfCount + par.minNew then (k, None)
    else if n < 2 then (k.(kfCount := n), None)
    else
      var excluded := s.loops.pairs + s.loops.rejected;
      if full then (k.(kfCount := n, incrementalScans := 0), Some(Query(n, None, excluded)))
      else (k.(kfCount := n, incrementalScans := k.incrementalScans + 1),
          Some(Query(n, Some(k.snapshotSize), excluded)))
  }

  /** After a scan whose detector did not throw. */
  function EndScan(k: Counters, q: Query): Counters {
    k.(snapshotSize := q.n, scans := k.scans + 1)
  }

  /** The detector is asked exactly when there are two keyframes and the scan is forced or enough are
      new; and a forced scan, or one that is not incremental, asks for every pair neither closed nor
      rejected. */
  lemma ForcedScanRuns<G>(par: ScanParams, s: State<G>, k: Counters, force: bool)
    ensures
      var q := BeginScan(par, s, k, force).1;
      && (q.Some? <==> 2 <= |s.kfs| && (force || k.kfCount + par.minNew <= |s.kfs|))
      && (q.Some? && (force || !par.incremental) ==> forall i: nat, j: nat ::
           Offers(q.value, (i, j)) <==> i < j < |s.kfs| && (i, j) !in s.loops.pairs && (i, j) !in s.loops.rejected)
  {
  }

  // ----- Scans within a concurrent run -----

  /** `scan` is the running one: the scan lock allows one at a time. `done` lists the queries of
      the completed ones. */
  datatype Scanning<G> = Scanning(c: Concurrent<G>, k: Counters, scan: Option<Query>, done: seq<Query>)

  /** `edges`: what the detector reports, sorted. */
  datatype ScanOp<G> = Other(op: Op<G>) | ScanBegins(force: bool) | ScanThrows | ScanReturns(edges: seq<Edge<G>>)

  ghost function DoScan<G(!new)>(
    cfg: Config<G>, par: ScanParams, opt: GraphInput<G> -> GraphResult<G>, x: Scanning<G>, op: ScanOp<G>): Scanning<G>
  {
    match op
    case Other(o) =>
      // Loops only come from scans:
      if o.Input? && o.ev.LoopsEvent? then x else x.(c := Do(cfg, opt, x.c, o))
    case ScanBegins(force) =>
      if x.scan.Some? then x
      else
        var (k, q) := BeginScan(par, x.c.s, x.k, force);
        x.(k := k, scan := q)
    case ScanThrows => x.(scan := None)
    case ScanReturns(edges) =>
      if x.scan.None? then x
      else Scanning(Do(cfg, opt, x.c, Input(LoopsEvent(edges))), EndScan(x.k, x.scan.value), None,
          x.done + [x.scan.value])
  }

  ghost function DoScans<G(!new)>(
    cfg: Config<G>, par: ScanParams, opt: GraphInput<G> -> GraphResult<G>, ops: seq<ScanOp<G>>): Scanning<G>
  {
    if ops == [] then Scanning(Concurrent(InitialState(cfg.m), None, 0), Counters(0, 0, 0, 0), None, [])
    else DoScan(cfg, par, opt, DoScans(cfg, par, opt, ops[..|ops| - 1]), ops[|ops| - 1])
  }

  // ----- No pair is missed -----

  ghost predicate WasOffered(done: seq<Query>, p: (nat, nat)) {
    exists i :: 0 <= i < |done| && Offers(done[i], p)
  }

  function Excluded<G>(x: Loops<G>): set<(nat, nat)> {
    x.pairs + x.rejected
  }

  ghost predicate NoneMissed(done: seq<Query>, excluded: set<(nat, nat)>, n: nat) {
    forall i: nat, j: nat :: i < j < n ==> (i, j) in excluded || WasOffered(done, (i, j))
  }

  /** Every pair of the keyframes of the last completed scan was looked at in some completed
      scan, unless it is closed or rejected; and full scans come as often as they should. */
  ghost predicate ScanInvariant<G>(par: ScanParams, x: Scanning<G>) {
    && x.k.snapshotSize <= x.k.kfCount <= |x.c.s.kfs|
    && NoneMissed(x.done, Excluded(x.c.s.loops), x.k.snapshotSize)
    && x.k.scans == |x.done|
    && (par.fullEveryN > 0 ==> x.k.incrementalScans <= par.fullEveryN)
    && (x.scan.Some? ==>
          var q := x.scan.value;
          && q.n == x.k.kfCount && q.excluded <= Excluded(x.c.s.loops)
          && (q.firstNew.Some? ==> q.firstNew.value == x.k.snapshotSize))
  }

  ghost predicate Grows<G>(s: State<G>, t: State<G>) {
    |s.kfs| <= |t.kfs| && Excluded(s.loops) <= Excluded(t.loops)
  }

  lemma {:induction false} MergeGrows<G(!new)>(cfg: Config<G>, kfs: seq<Keyframe<G>>, x: Loops<G>, es: seq<Edge<G>>)
    ensures x.pairs <= MergeAll(cfg, kfs, x, es).pairs && x.rejected <= MergeAll(cfg, kfs, x, es).rejected
    decreases |es|
  {
    if es != [] {
      hide InRange, RejectedByOdometry;
      MergeGrows(cfg, kfs, x, es[..|es| - 1]);
    }
  }

  lemma DoGrows<G(!new)>(cfg: Config<G>, opt: GraphInput<G> -> GraphResult<G>, c: Concurrent<G>, op: Op<G>)
    ensures Grows(c.s, Do(cfg, opt, c, op).s)
    ensures !(op.Input? && op.ev.LoopsEvent?) ==> Do(cfg, opt, c, op).s.loops == c.s.loops
  {
    hide Insert, Observe, MergeAll, CommittedPoses, Snapshot;
    if op.Input? {
      StepKeepsOrigin(cfg, c.s, op.ev);
      if op.ev.LoopsEvent? {
        MergeGrows(cfg, c.s.kfs, c.s.loops, op.ev.edges);
      }
    }
  }

  lemma NoneMissedAfter(done: seq<Query>, excluded: set<(nat, nat)>, n: nat, q: Query, more: set<(nat, nat)>)
    requires NoneMissed(done, excluded, n) && n <= q.n
    requires q.excluded <= more && excluded <= more && (q.firstNew.Some? ==> q.firstNew.value == n)
    ensures NoneMissed(done + [q], more, q.n)
  {
    var all := done + [q];
    forall i: nat, j: nat | i < j < q.n && (i, j) !in more ensures WasOffered(all, (i, j)) {
      if q.firstNew.Some? && j < n {
        assert WasOffered(done, (i, j));
        var d :| 0 <= d < |done| && Offers(done[d], (i, j));
        assert Offers(all[d], (i, j));
      } else {
        assert Offers(all[|done|], (i, j));
      }
    }
  }

  lemma OpKeepsScans<G(!new)>(
    cfg: Config<G>, par: ScanParams, opt: GraphInput<G> -> GraphResult<G>, x: Scanning<G>, op: ScanOp<G>)
    requires ScanInvariant(par, x)
    ensures ScanInvariant(par, DoScan(cfg, par, opt, x, op))
  {
    hide Do, WasOffered;
    match op
    case Other(o) => DoGrows(cfg, opt, x.c, o);
    case ScanBegins(_) =>
    case ScanThrows =>
    case ScanReturns(edges) =>
      DoGrows(cfg, opt, x.c, Input(LoopsEvent(edges)));
      if x.scan.Some? {
        hide NoneMissed;
        NoneMissedAfter(x.done, Excluded(x.c.s.loops), x.k.snapshotSize, x.scan.value,
                        Excluded(Do(cfg, opt, x.c, Input(LoopsEvent(edges))).s.loops));
      }
  }

  lemma {:induction false} ScansMissNoPair<G(!new)>(
    cfg: Config<G>, par: ScanParams, opt: GraphInput<G> -> GraphResult<G>, ops: seq<ScanOp<G>>)
    ensures ScanInvariant(par, DoScans(cfg, par, opt, ops))
  {
    if ops != [] {
      hide ScanInvariant, DoScan;
      ScansMissNoPair(cfg, par, opt, ops[..|ops| - 1]);
      OpKeepsScans(cfg, par, opt, DoScans(cfg, par, opt, ops[..|ops| - 1]), ops[|ops| - 1]);
    }
  }

  // ----- The detector's part -----

  /** The detector reports no pair it was told to leave out, and each pair once. */
  ghost predicate Honest<G>(q: Query, edges: seq<Edge<G>>) {
    DistinctPairs(edges) && forall i :: 0 <= i < |edges| ==> PairOf(edges[i]) !in q.excluded
  }

  ghost predicate AllHonest<G(!new)>(
    cfg: Config<G>, par: ScanParams, opt: GraphInput<G> -> GraphResult<G>, ops: seq<ScanOp<G>>)
  {
    forall n :: 0 <= n < |ops| && ops[n].ScanReturns? ==>
      var x := DoScans(cfg, par, opt, ops[..n]);
      x.scan.Some? ==> Honest(x.scan.value, ops[n].edges)
  }

  /** Nothing changes the loops while a scan runs. */
  ghost predicate Undisturbed<G>(x: Scanning<G>) {
    && x.c.s.loops.pairs !! x.c.s.loops.rejected
    && (x.scan.Some? ==> x.scan.value.excluded == Excluded(x.c.s.loops))
  }

  lemma OpKeepsDisjoint<G(!new)>(
    cfg: Config<G>, par: ScanParams, opt: GraphInput<G> -> GraphResult<G>, x: Scanning<G>, op: ScanOp<G>)
    requires Undisturbed(x)
    requires op.ScanReturns? && x.scan.Some? ==> Honest(x.scan.value, op.edges)
    ensures Undisturbed(DoScan(cfg, par, opt, x, op))
  {
    hide Insert, Observe, MergeAll, Commit, Snapshot;
    match op
    case Other(o) => DoGrows(cfg, opt, x.c, o);
    case ScanBegins(_) =>
    case ScanThrows =>
    case ScanReturns(edges) =>
      if x.scan.Some? {
        hide PairOf;
        MergedAndRejectedDisjoint(cfg, x.c.s.kfs, x.c.s.loops, edges);
      }
  }

  /** With such a detector, no pair is ever both a loop and rejected. */
  lemma {:induction false} LoopsNeverRejected<G(!new)>(
    cfg: Config<G>, par: ScanParams, opt: GraphInput<G> -> GraphResult<G>, ops: seq<ScanOp<G>>)
    requires AllHonest(cfg, par, opt, ops)
    ensures Undisturbed(DoScans(cfg, par, opt, ops))
  {
    if ops != [] {
      hide Undisturbed, DoScan, Honest;
      var n := |ops| - 1;
      assert AllHonest(cfg, par, opt, ops[..n]) by {
        forall k | 0 <= k < n && ops[..n][k].ScanReturns?
          ensures
            var x := DoScans(cfg, par, opt, ops[..n][..k]);
            x.scan.Some? ==> Honest(x.scan.value, ops[..n][k].edges) {
          assert ops[..n][..k] == ops[..k];
        }
      }
      LoopsNeverRejected(cfg, par, opt, ops[..n]);
      OpKeepsDisjoint(cfg, par, opt, DoScans(cfg, par, opt, ops[..n]), ops[n]);
    }
  }

  /** The operations of a run with scans, as one of the concurrent runs that the other theorems
      are about: a scan is the merge that ends it. */
  ghost function RunOf<G(!new)>(
    cfg: Config<G>, par: ScanParams, opt: GraphInput<G> -> GraphResult<G>, ops: seq<ScanOp<G>>): seq<Op<G>>
  {
    if ops == [] then []
    else
      var n := |ops| - 1;
      RunOf(cfg, par, opt, ops[..n]) + RunOfOne(DoScans(cfg, par, opt, ops[..n]), ops[n])
  }

  function RunOfOne<G>(x: Scanning<G>, op: ScanOp<G>): seq<Op<G>> {
    match op
    case Other(o) => if o.Input? && o.ev.LoopsEvent? then [] else [o]
    case ScanReturns(edges) => if x.scan.None? then [] else [Input(LoopsEvent(edges))]
    case _ => []
  }

  lemma DoAllAdd<G(!new)>(
    cfg: Config<G>, opt: GraphInput<G> -> GraphResult<G>, c: Concurrent<G>, ops: seq<Op<G>>, op: Op<G>)
    ensures DoAll(cfg, opt, c, ops + [op]) == Do(cfg, opt, DoAll(cfg, opt, c, ops), op)
  {
    assert (ops + [op])[..|ops|] == ops;
  }

  lemma {:induction false} ScansAreRuns<G(!new)>(
    cfg: Config<G>, par: ScanParams, opt: GraphInput<G> -> GraphResult<G>, ops: seq<ScanOp<G>>)
    ensures DoScans(cfg, par, opt, ops).c
         == DoAll(cfg, opt, Concurrent(InitialState(cfg.m), None, 0), RunOf(cfg, par, opt, ops))
  {
    if ops == [] {
      assert RunOf(cfg, par, opt, ops) == [];
    } else {
      hide DoScan, DoAll;
      var n := |ops| - 1;
      var x := DoScans(cfg, par, opt, ops[..n]);
      ScansAreRuns(cfg, par, opt, ops[..n]);
      ScanIsRun(cfg, par, opt, Concurrent(InitialState(cfg.m), None, 0), x, RunOf(cfg, par, opt, ops[..n]), ops[n]);
    }
  }

  lemma ScanIsRun<G(!new)>(
    cfg: Config<G>, par: ScanParams, opt: GraphInput<G> -> GraphResult<G>,
    start: Concurrent<G>, x: Scanning<G>, before: seq<Op<G>>, op: ScanOp<G>)
    requires x.c == DoAll(cfg, opt, start, before)
    ensures DoScan(cfg, par, opt, x, op).c == DoAll(cfg, opt, start, before + RunOfOne(x, op))
  {
    hide Do, DoAll, BeginScan;
    assert before + [] == before;
    match op
    case Other(o) => DoAllAdd(cfg, opt, start, before, o);
    case ScanReturns(edges) => DoAllAdd(cfg, opt, start, before, Input(LoopsEvent(edges)));
    case _ =>
  }
}
