/** The flag and the condition variable between those who change the graph and the thread that
    optimizes it, one atomic load or store at a time. */
module OptimizerWakeup {
  import opened Basics

  /** What a producer stores. New keyframes and loops, and the request to stop, are followed by a
      notify; a GNSS reading attached late is not. */
  datatype Kind = Loud | Silent | Stop

  datatype ProducerPc = Away | ToStore(kind: Kind) | ToLock | ToUnlock | ToNotify

  /** `recent`: it stored, with a notify to follow, after the optimizer last saw nothing to do. */
  datatype Producer = Producer(pc: ProducerPc, recent: bool)

  datatype OptimizerPc =
    | CheckExit
    | LockToWait | LoadExit(timedOut: bool) | LoadData(timedOut: bool) | AboutToSleep | Asleep
      | LockAgain(timedOut: bool)
    | UnlockAfterWait
    | CheckExitAgain | Exchange | TakeSnapshot | Solve
    | LockForPeriod | LookForPeriod(timedOut: bool) | AsleepForPeriod | LockPeriodAgain(timedOut: bool) | UnlockPeriod
    | Gone

  datatype Owner = Nobody | TheOptimizer | OneProducer(p: nat)

  /** `present` is what the graph is made of: keyframes, loops and attached GNSS readings; `seen`
      what was in some snapshot. `silent`: a store without notify came after the optimizer last
      saw nothing to do. */
  datatype State = State(
    newData: bool, exit: bool,
    present: set<nat>, seen: set<nat>,
    mutex: Owner,
    pc: OptimizerPc, silent: bool,
    producers: seq<Producer>)

  datatype Act =
    | OptimizerMoves
    | OptimizerWakes(timedOut: bool)   // a timeout, or for no reason
    | Changes(p: nat, kind: Kind, added: set<nat>, removed: set<nat>)
    | StoresEarly(p: nat)              // a reading attached while a keyframe is inserted
    | ProducerMoves(p: nat)
    | OtherSnapshot                    // a solve of the caller

  // ----- Steps -----

  function NothingRecent(ps: seq<Producer>): (out: seq<Producer>)
    ensures |out| == |ps| && forall i :: 0 <= i < |ps| ==> out[i] == ps[i].(recent := false)
  {
    seq(|ps|, i requires 0 <= i < |ps| => ps[i].(recent := false))
  }

  function OptimizerStep(s: State): State {
    match s.pc
    case CheckExit => s.(pc := if s.exit then Gone else LockToWait)
    case LockToWait => if s.mutex == Nobody then s.(mutex := TheOptimizer, pc := LoadExit(false)) else s
    case LoadExit(last) =>
      // The look that may find nothing begins here:
      s.(pc := if s.exit then UnlockAfterWait else LoadData(last),
         silent := false,
         producers := NothingRecent(s.producers))
    case LoadData(last) => s.(pc := if s.newData || last then UnlockAfterWait else AboutToSleep)
    case AboutToSleep => s.(mutex := Nobody, pc := Asleep)
    case Asleep => s
    case LockAgain(last) => if s.mutex == Nobody then s.(mutex := TheOptimizer, pc := LoadExit(last)) else s
    case UnlockAfterWait => s.(mutex := Nobody, pc := CheckExitAgain)
    case CheckExitAgain => s.(pc := if s.exit then Gone else Exchange)
    case Exchange => s.(newData := false, pc := if s.newData then TakeSnapshot else CheckExit)
    case TakeSnapshot => s.(seen := s.seen + s.present, pc := Solve)
    case Solve => s.(pc := LockForPeriod)
    case LockForPeriod => if s.mutex == Nobody then s.(mutex := TheOptimizer, pc := LookForPeriod(false)) else s
    case LookForPeriod(last) =>
      if s.exit || last then s.(pc := UnlockPeriod) else s.(mutex := Nobody, pc := AsleepForPeriod)
    case AsleepForPeriod => s
    case LockPeriodAgain(last) => if s.mutex == Nobody then s.(mutex := TheOptimizer, pc := LookForPeriod(last)) else s
    case UnlockPeriod => s.(mutex := Nobody, pc := CheckExit)
    case Gone => s
  }

  function Wake(pc: OptimizerPc, timedOut: bool): OptimizerPc {
    if pc.Asleep? then LockAgain(timedOut) else if pc.AsleepForPeriod? then LockPeriodAgain(timedOut) else pc
  }

  function Put(s: State, p: nat, x: Producer): State
    requires p < |s.producers|
  {
    s.(producers := s.producers[p := x])
  }

  function Store(s: State, kind: Kind): State {
    match kind
    case Loud => s.(newData := true)
    case Silent => s.(newData := true, silent := true)
    case Stop => s.(exit := true)
  }

  function ProducerStep(s: State, p: nat): State
    requires p < |s.producers|
  {
    var x := s.producers[p];
    match x.pc
    case Away => s
    case ToStore(kind) =>
      if kind == Silent then Put(Store(s, kind), p, x.(pc := Away)) else Put(Store(s, kind), p, Producer(ToLock, true))
    case ToLock => if s.mutex == Nobody then Put(s, p, x.(pc := ToUnlock)).(mutex := OneProducer(p)) else s
    case ToUnlock => Put(s, p, x.(pc := ToNotify)).(mutex := Nobody)
    case ToNotify => Put(s, p, x.(pc := Away)).(pc := Wake(s.pc, false))
  }

  function Do(s: State, a: Act): State {
    match a
    case OptimizerMoves => OptimizerStep(s)
    case OptimizerWakes(timedOut) => s.(pc := Wake(s.pc, timedOut))
    case Changes(p, kind, added, removed) =>
      if p < |s.producers| && s.producers[p].pc.Away? then
        Put(s, p, s.producers[p].(pc := ToStore(kind)))
          .(present := if kind == Stop then s.present else s.present - removed + added,
            seen := if kind == Stop then s.seen else s.seen - added)
      else s
    case StoresEarly(p) =>
      if p < |s.producers| && s.producers[p].pc == ToStore(Loud) then Store(s, Silent) else s
    case ProducerMoves(p) => if p < |s.producers| then ProducerStep(s, p) else s
    case OtherSnapshot => s.(seen := s.seen + s.present)
  }

  function Start(n: nat): State {
    State(false, false, {}, {}, Nobody, CheckExit, false, seq(n, i => Producer(Away, false)))
  }

  function Run(s: State, acts: seq<Act>): State {
    if acts == [] then s else Do(Run(s, acts[..|acts| - 1]), acts[|acts| - 1])
  }

  // ----- The invariant -----

  predicate Holds(pc: OptimizerPc) {
    pc.LoadExit? || pc.LoadData? || pc.AboutToSleep? || pc.UnlockAfterWait? || pc.LookForPeriod? || pc.UnlockPeriod?
  }

  predicate OwesNotify(pc: ProducerPc) {
    pc.ToLock? || pc.ToUnlock? || pc.ToNotify?
  }

  ghost predicate StoresSoon(s: State) {
    exists p :: 0 <= p < |s.producers| && s.producers[p].pc.ToStore? && s.producers[p].pc.kind != Stop
  }

  /** Nothing the graph should see is forgotten. */
  ghost predicate NothingLost(s: State) {
    s.present <= s.seen || s.newData || StoresSoon(s) || s.pc.TakeSnapshot?
  }

  /** From the look that found nothing until it is asleep, no recent producer gets past the mutex. */
  ghost predicate ProducerInvariant(s: State, p: nat)
    requires p < |s.producers|
  {
    var x := s.producers[p];
    && (s.mutex == OneProducer(p) <==> x.pc.ToUnlock?)
    && (x.recent && (s.pc.LoadData? || s.pc.AboutToSleep?) ==> x.pc.ToLock?)
    && (x.recent && s.pc.Asleep? ==> OwesNotify(x.pc))
  }

  ghost predicate SomeRecent(s: State) {
    exists p :: 0 <= p < |s.producers| && s.producers[p].recent
  }

  /** Something was stored after the optimizer last looked exactly if someone known stored it. */
  ghost predicate Accounted(s: State) {
    && (s.pc.LoadData? && s.exit ==> s.silent || SomeRecent(s))
    && (s.pc.LoadData? && (s.silent || SomeRecent(s)) ==> s.newData || s.exit)
    && (s.pc.AboutToSleep? || s.pc.Asleep? ==> (s.newData || s.exit <==> s.silent || SomeRecent(s)))
  }

  ghost predicate Invariant(s: State) {
    && NothingLost(s)
    && (s.mutex == TheOptimizer <==> Holds(s.pc))
    && (forall p :: 0 <= p < |s.producers| ==> ProducerInvariant(s, p))
    && Accounted(s)
  }

  /** Producers other than those that changed still count. */
  lemma StillSome(a: State, b: State, p: nat)
    requires p < |a.producers| == |b.producers| && b.producers == a.producers[p := b.producers[p]]
    ensures SomeRecent(a) && (a.producers[p].recent ==> b.producers[p].recent) ==> SomeRecent(b)
    ensures b.producers[p].recent ==> SomeRecent(b)
    ensures SomeRecent(b) ==> SomeRecent(a) || (b.producers[p].recent && !a.producers[p].recent)
    ensures StoresSoon(a) && !StoresSoon(b) ==> a.producers[p].pc.ToStore? && a.producers[p].pc.kind != Stop
  {
    if SomeRecent(a) && (a.producers[p].recent ==> b.producers[p].recent) {
      var q :| 0 <= q < |a.producers| && a.producers[q].recent;
      assert b.producers[q].recent;
    }
    if SomeRecent(b) {
      var q :| 0 <= q < |b.producers| && b.producers[q].recent;
      if q != p {
        assert a.producers[q] == b.producers[q];
      }
    }
    if StoresSoon(a) {
      var q :| 0 <= q < |a.producers| && a.producers[q].pc.ToStore? && a.producers[q].pc.kind != Stop;
      if q != p {
        assert b.producers[q] == a.producers[q];
      }
    }
  }

  lemma SameProducers(a: State, b: State)
    requires |b.producers| == |a.producers| && forall p :: 0 <= p < |a.producers| ==>
        b.producers[p].pc == a.producers[p].pc
    ensures StoresSoon(a) == StoresSoon(b)
    ensures a.producers == b.producers ==> SomeRecent(a) == SomeRecent(b)
  {
    if StoresSoon(a) {
      var q :| 0 <= q < |a.producers| && a.producers[q].pc.ToStore? && a.producers[q].pc.kind != Stop;
      assert b.producers[q].pc == a.producers[q].pc;
    }
    if StoresSoon(b) {
      var q :| 0 <= q < |b.producers| && b.producers[q].pc.ToStore? && b.producers[q].pc.kind != Stop;
      assert b.producers[q].pc == a.producers[q].pc;
    }
  }

  lemma OptimizerKeeps(s: State)
    requires Invariant(s)
    ensures Invariant(OptimizerStep(s))
  {
    hide StoresSoon, SomeRecent;
    var t := OptimizerStep(s);
    OptimizerLeavesProducers(s);
    SameProducers(s, t);
    if s.pc.LoadExit? {
      NoneRecent(t);
    }
    OptimizerKeepsRest(s);
    forall p | 0 <= p < |t.producers| ensures ProducerInvariant(t, p) {
      OptimizerKeepsProducer(s, p);
    }
  }

  lemma NoneRecent(s: State)
    requires forall p :: 0 <= p < |s.producers| ==> !s.producers[p].recent
    ensures !SomeRecent(s)
  {
  }

  lemma OptimizerLeavesProducers(s: State)
    ensures
      var t := OptimizerStep(s);
      && |t.producers| == |s.producers| && (!s.pc.LoadExit? ==> t.producers == s.producers)
      && forall p :: 0 <= p < |s.producers| ==>
           t.producers[p].pc == s.producers[p].pc
               && (t.producers[p].recent ==> s.producers[p].recent && !s.pc.LoadExit?)
  {
  }

  lemma OptimizerKeepsProducer(s: State, p: nat)
    requires p < |s.producers| == |OptimizerStep(s).producers|
    requires ProducerInvariant(s, p) && (s.mutex == TheOptimizer <==> Holds(s.pc))
    ensures ProducerInvariant(OptimizerStep(s), p)
  {
    OptimizerLeavesProducers(s);
  }

  lemma OptimizerKeepsRest(s: State)
    requires NothingLost(s) && Accounted(s)
    requires s.mutex == TheOptimizer <==> Holds(s.pc)
    requires StoresSoon(OptimizerStep(s)) == StoresSoon(s)
    requires OptimizerStep(s).producers == s.producers ==> SomeRecent(OptimizerStep(s)) == SomeRecent(s)
    requires s.pc.LoadExit? ==> !SomeRecent(OptimizerStep(s))
    ensures var t := OptimizerStep(s); NothingLost(t) && Accounted(t) && (t.mutex == TheOptimizer <==> Holds(t.pc))
  {
    hide StoresSoon, SomeRecent;
    OptimizerLeavesProducers(s);
  }

  lemma ProducerKeeps(s: State, p: nat)
    requires Invariant(s) && p < |s.producers|
    ensures Invariant(ProducerStep(s, p))
  {
    hide StoresSoon, SomeRecent;
    var t := ProducerStep(s, p);
    ProducerLeavesOthers(s, p);
    StillSome(s, t, p);
    assert ProducerInvariant(s, p);
    ProducerKeepsRest(s, p);
    forall q | 0 <= q < |t.producers| ensures ProducerInvariant(t, q) {
      ProducerKeepsProducer(s, p, q);
    }
  }

  lemma ProducerLeavesOthers(s: State, p: nat)
    requires p < |s.producers|
    ensures
      var t := ProducerStep(s, p);
      && |t.producers| == |s.producers| && t.producers == s.producers[p := t.producers[p]]
      && (s.producers[p].recent ==> t.producers[p].recent)
  {
  }

  lemma ProducerKeepsProducer(s: State, p: nat, q: nat)
    requires p < |s.producers| && q < |s.producers| == |ProducerStep(s, p).producers|
    requires ProducerInvariant(s, p) && ProducerInvariant(s, q) && (s.mutex == TheOptimizer <==> Holds(s.pc))
    ensures ProducerInvariant(ProducerStep(s, p), q)
  {
    if p == q {
      ProducerKeepsItself(s, p);
    } else {
      ProducerKeepsOther(s, p, q);
    }
  }

  lemma ProducerKeepsItself(s: State, p: nat)
    requires p < |s.producers| == |ProducerStep(s, p).producers|
    requires ProducerInvariant(s, p) && (s.mutex == TheOptimizer <==> Holds(s.pc))
    ensures ProducerInvariant(ProducerStep(s, p), p)
  {
  }

  lemma ProducerKeepsOther(s: State, p: nat, q: nat)
    requires p < |s.producers| && q < |s.producers| == |ProducerStep(s, p).producers| && p != q
    requires ProducerInvariant(s, p) && ProducerInvariant(s, q)
    ensures ProducerInvariant(ProducerStep(s, p), q)
  {
  }

  lemma ProducerKeepsRest(s: State, p: nat)
    requires p < |s.producers| == |ProducerStep(s, p).producers|
    requires NothingLost(s) && Accounted(s) && ProducerInvariant(s, p)
    requires s.mutex == TheOptimizer <==> Holds(s.pc)
    requires SomeRecent(s) ==> SomeRecent(ProducerStep(s, p))
    requires ProducerStep(s, p).producers[p].recent ==> SomeRecent(ProducerStep(s, p))
    requires SomeRecent(ProducerStep(s, p)) ==>
               SomeRecent(s) || (ProducerStep(s, p).producers[p].recent && !s.producers[p].recent)
    requires StoresSoon(s) && !StoresSoon(ProducerStep(s, p)) ==>
        s.producers[p].pc.ToStore? && s.producers[p].pc.kind != Stop
    ensures var t := ProducerStep(s, p); NothingLost(t) && Accounted(t) && (t.mutex == TheOptimizer <==> Holds(t.pc))
  {
    hide StoresSoon, SomeRecent;
  }

  lemma ChangeKeeps(s: State, p: nat, kind: Kind, added: set<nat>, removed: set<nat>)
    requires Invariant(s)
    ensures Invariant(Do(s, Changes(p, kind, added, removed)))
  {
    var t := Do(s, Changes(p, kind, added, removed));
    if t != s {
      StillSome(s, t, p);
      if kind != Stop {
        assert t.producers[p].pc.ToStore? && t.producers[p].pc.kind != Stop;
        assert StoresSoon(t);
      }
      hide StoresSoon, SomeRecent;
      forall q | 0 <= q < |t.producers| ensures ProducerInvariant(t, q) {
        assert ProducerInvariant(s, q);
      }
    }
  }

  lemma EarlyStoreKeeps(s: State, p: nat)
    requires Invariant(s)
    ensures Invariant(Do(s, StoresEarly(p)))
  {
    var t := Do(s, StoresEarly(p));
    assert t.producers == s.producers;
    forall q | 0 <= q < |t.producers| ensures ProducerInvariant(t, q) {
      assert ProducerInvariant(s, q);
    }
  }

  lemma StepKeepsInvariant(s: State, a: Act)
    requires Invariant(s)
    ensures Invariant(Do(s, a))
  {
    hide OptimizerStep, ProducerStep;
    match a
    case OptimizerMoves => OptimizerKeeps(s);
    case ProducerMoves(p) =>
      if p < |s.producers| {
        ProducerKeeps(s, p);
      }
    case Changes(p, kind, added, removed) => ChangeKeeps(s, p, kind, added, removed);
    case StoresEarly(p) => EarlyStoreKeeps(s, p);
    case _ =>
      var t := Do(s, a);
      SameProducers(s, t);
      hide StoresSoon, SomeRecent;
      forall q | 0 <= q < |t.producers| ensures ProducerInvariant(t, q) {
        assert ProducerInvariant(s, q);
      }
  }

  lemma {:induction false} AlwaysInvariant(n: nat, acts: seq<Act>)
    ensures Invariant(Run(Start(n), acts))
  {
    if acts != [] {
      hide Invariant, Do;
      AlwaysInvariant(n, acts[..|acts| - 1]);
      StepKeepsInvariant(Run(Start(n), acts[..|acts| - 1]), acts[|acts| - 1]);
    }
  }

  // ----- What it gives -----

  /** In every reachable state: if some keyframe, loop or attached reading is in no snapshot
      taken so far, the flag is set, or a producer is between its change and its store, or the
      optimizer is between its exchange and its snapshot. */
  lemma NoDataLost(n: nat, acts: seq<Act>)
    ensures
      var s := Run(Start(n), acts);
      (exists x :: x in s.present && x !in s.seen) ==>
        || s.newData
        || (exists p :: 0 <= p < |s.producers| && s.producers[p].pc.ToStore? && s.producers[p].pc.kind != Stop)
        || s.pc.TakeSnapshot?
  {
    AlwaysInvariant(n, acts);
  }

  /** No notify is lost: every producer that stored, with a notify to follow, since the optimizer
      looked and went to sleep still owes that notify. */
  lemma NoNotifyLost(n: nat, acts: seq<Act>, p: nat)
    ensures
      var s := Run(Start(n), acts);
      s.pc.Asleep? && p < |s.producers| && s.producers[p].recent ==> OwesNotify(s.producers[p].pc)
  {
    AlwaysInvariant(n, acts);
    hide Run;
    var s := Run(Start(n), acts);
    if p < |s.producers| {
      assert ProducerInvariant(s, p);
    }
  }

  /** Asleep, there is something to do exactly if a notify is on its way, or a GNSS reading attached
      late set the flag, which the optimizer sees at its next timeout. */
  lemma AsleepWithDataIsWoken(n: nat, acts: seq<Act>)
    ensures
      var s := Run(Start(n), acts);
      s.pc.Asleep? ==>
        (s.newData || s.exit <==>
           s.silent || exists p :: 0 <= p < |s.producers| && s.producers[p].recent && OwesNotify(s.producers[p].pc))
  {
    AlwaysInvariant(n, acts);
    hide Run;
    var s := Run(Start(n), acts);
    if s.pc.Asleep? && SomeRecent(s) {
      var p :| 0 <= p < |s.producers| && s.producers[p].recent;
      assert ProducerInvariant(s, p);
    }
  }

  lemma RunAdd(s: State, acts: seq<Act>, a: Act)
    ensures Run(s, acts + [a]) == Do(Run(s, acts), a)
  {
    assert (acts + [a])[..|acts|] == acts;
  }

  /** The optimizer looks, finds nothing, and sleeps. */
  lemma FallsAsleep() returns (acts: seq<Act>)
    ensures Run(Start(1), acts) == Start(1).(pc := Asleep)
  {
    acts := [OptimizerMoves];
    var s := Start(1);
    assert Run(s, []) == s;
    RunAdd(s, [], OptimizerMoves);
    assert [] + acts == acts;
    hide Run;
    assert NothingRecent(s.producers) == s.producers;
    RunAdd(s, acts, OptimizerMoves);
    RunAdd(s, acts + [OptimizerMoves], OptimizerMoves);
    RunAdd(s, acts + [OptimizerMoves] + [OptimizerMoves], OptimizerMoves);
    RunAdd(s, acts + [OptimizerMoves] + [OptimizerMoves] + [OptimizerMoves], OptimizerMoves);
    acts := acts + [OptimizerMoves] + [OptimizerMoves] + [OptimizerMoves] + [OptimizerMoves];
  }

  /** It does happen with late readings: nobody owes a notify. */
  lemma LateReadingDoesNotNotify() returns (acts: seq<Act>)
    ensures
      var s := Run(Start(1), acts);
      s.pc.Asleep? && s.newData && 1 in s.present && 1 !in s.seen && s.producers == Start(1).producers
  {
    var before := FallsAsleep();
    hide Run;
    acts := before + [Changes(0, Silent, {1}, {})] + [ProducerMoves(0)];
    RunAdd(Start(1), before, Changes(0, Silent, {1}, {}));
    RunAdd(Start(1), before + [Changes(0, Silent, {1}, {})], ProducerMoves(0));
  }
}
