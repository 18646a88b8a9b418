/** The handshake between the loop closure thread and those who wait until it is idle, one
    atomic load or store at a time. */
module LoopIdle {
  import opened Basics

  /** The thread: its loop, and its exit from it. */
  datatype ThreadPc =
    | CheckExit | WaitRequest | CheckExitAgain
    | SetBusy | Exchange | TakeSnapshot | Scan
    | LockIdle | ClearBusy | UnlockIdle | NotifyIdle
    | LockLast | ClearBusyLast | ClearRunning | UnlockLast | NotifyLast | Gone

  /** A waiter: `timedOut` when this is its last look. */
  datatype WaiterPc =
    | Away
    | LockMutex(timedOut: bool)
    | LoadRunning(timedOut: bool) | LoadForce(timedOut: bool) | LoadBusy(timedOut: bool)
    | SeenIdle | SeenNotIdle(timedOut: bool)
    | Asleep
    | Returned(idle: bool)

  /** `since`: the requests made before the call. `stopped`: the thread was seen not running. */
  datatype Waiter = Waiter(pc: WaiterPc, since: nat, stopped: bool)

  datatype Owner = Nobody | TheThread | OneWaiter(w: nat)

  /** A scan that is over: `requests` were made before its snapshot. `threw`: it did not complete. */
  datatype ScanRecord = ScanRecord(forced: bool, requests: nat, threw: bool)

  /** The atomics and the thread. `requests` counts the stores to `force` and `consumed` those
      before the last exchange that found it set; both only serve to state the theorems. */
  datatype Shared = Shared(
    running: bool, exit: bool, force: bool, busy: bool,
    pc: ThreadPc, forced: bool, atSnapshot: nat,
    requests: nat, consumed: nat, scans: seq<ScanRecord>)

  datatype State = State(h: Shared, mutex: Owner, waiters: seq<Waiter>)

  /** `choice` decides whether the detector throws. A wait of the thread ends with a request or
      with its period, so it may end at any time; so may that of a waiter (WakesUp). */
  datatype Act = ThreadMoves(choice: bool) | Request | Exit | Call(w: nat) | WaiterMoves(w: nat)
      | WakesUp(w: nat, timedOut: bool)

  // ----- Steps -----

  /** The thread, when no mutex stops it. */
  function ThreadNext(h: Shared, choice: bool): Shared {
    match h.pc
    case CheckExit => h.(pc := if h.exit then LockLast else WaitRequest)
    case WaitRequest => h.(pc := CheckExitAgain)
    case CheckExitAgain => h.(pc := if h.exit then LockLast else SetBusy)
    case SetBusy => h.(busy := true, pc := Exchange)
    case Exchange =>
      h.(forced := h.force, force := false, consumed := if h.force then h.requests else h.consumed, pc := TakeSnapshot)
    case TakeSnapshot => h.(atSnapshot := h.requests, pc := Scan)
    case Scan => h.(scans := h.scans + [ScanRecord(h.forced, h.atSnapshot, choice)], pc := LockIdle)
    case LockIdle => h.(pc := ClearBusy)
    case ClearBusy => h.(busy := false, pc := UnlockIdle)
    case UnlockIdle => h.(pc := NotifyIdle)
    case NotifyIdle => h.(pc := CheckExit)
    case LockLast => h.(pc := ClearBusyLast)
    case ClearBusyLast => h.(busy := false, pc := ClearRunning)
    case ClearRunning => h.(running := false, pc := UnlockLast)
    case UnlockLast => h.(pc := NotifyLast)
    case NotifyLast => h.(pc := Gone)
    case Gone => h
  }

  predicate Locking(pc: ThreadPc) {
    pc.LockIdle? || pc.LockLast?
  }

  predicate Unlocking(pc: ThreadPc) {
    pc.UnlockIdle? || pc.UnlockLast?
  }

  predicate Notifying(pc: ThreadPc) {
    pc.NotifyIdle? || pc.NotifyLast?
  }

  function Woken(w: Waiter): Waiter {
    if w.pc == Asleep then w.(pc := LockMutex(false)) else w
  }

  function NotifyAll(ws: seq<Waiter>): (out: seq<Waiter>)
    ensures |out| == |ws| && forall i :: 0 <= i < |ws| ==> out[i] == Woken(ws[i])
  {
    seq(|ws|, i requires 0 <= i < |ws| => Woken(ws[i]))
  }

  function ThreadStep(s: State, choice: bool): State {
    if Locking(s.h.pc) && s.mutex != Nobody then s
    else
      State(ThreadNext(s.h, choice),
            if Locking(s.h.pc) then TheThread else if Unlocking(s.h.pc) then Nobody else s.mutex,
            if Notifying(s.h.pc) then NotifyAll(s.waiters) else s.waiters)
  }

  /** A waiter, when no mutex stops it. */
  function WaiterNext(h: Shared, x: Waiter): Waiter {
    match x.pc
    case LockMutex(last) => x.(pc := LoadRunning(last))
    case LoadRunning(last) => if h.running then x.(pc := LoadForce(last)) else x.(pc := SeenIdle, stopped := true)
    case LoadForce(last) => x.(pc := if h.force then SeenNotIdle(last) else LoadBusy(last))
    case LoadBusy(last) => x.(pc := if h.busy then SeenNotIdle(last) else SeenIdle)
    case SeenNotIdle(last) => x.(pc := if last then Returned(false) else Asleep)
    case SeenIdle => x.(pc := Returned(true))
    case _ => x
  }

  function WaiterStep(s: State, w: nat): State
    requires w < |s.waiters|
  {
    var x := s.waiters[w];
    if x.pc.LockMutex? && s.mutex != Nobody then s
    else
      s.(waiters := s.waiters[w := WaiterNext(s.h, x)],
         mutex := if x.pc.LockMutex? then OneWaiter(w)
                  else if x.pc.SeenIdle? || x.pc.SeenNotIdle? then Nobody
                  else s.mutex)
  }

  function Do(s: State, a: Act): State {
    match a
    case ThreadMoves(choice) => ThreadStep(s, choice)
    case Request => s.(h := s.h.(force := true, requests := s.h.requests + 1))
    case Exit => s.(h := s.h.(exit := true))
    case Call(w) =>
      if w < |s.waiters| && (s.waiters[w].pc.Away? || s.waiters[w].pc.Returned?) then
        s.(waiters := s.waiters[w := Waiter(LockMutex(false), s.h.requests, false)])
      else s
    case WaiterMoves(w) => if w < |s.waiters| then WaiterStep(s, w) else s
    case WakesUp(w, timedOut) =>
      if w < |s.waiters| && s.waiters[w].pc == Asleep then
        s.(waiters := s.waiters[w := s.waiters[w].(pc := LockMutex(timedOut))])
      else s
  }

  /** The thread about to enter its loop, with `n` possible waiters. */
  function Start(n: nat): State {
    State(Shared(true, false, false, false, CheckExit, false, 0, 0, 0, []), Nobody, seq(n, i => Waiter(Away, 0, false)))
  }

  function Run(s: State, acts: seq<Act>): State {
    if acts == [] then s else Do(Run(s, acts[..|acts| - 1]), acts[|acts| - 1])
  }

  // ----- The invariant -----

  /** What the waiters wait for. */
  predicate Idle(h: Shared) {
    !h.running || (!h.force && !h.busy)
  }

  predicate ThreadHolds(pc: ThreadPc) {
    pc.ClearBusy? || pc.UnlockIdle? || pc.ClearBusyLast? || pc.ClearRunning? || pc.UnlockLast?
  }

  predicate WaiterHolds(pc: WaiterPc) {
    pc.LoadRunning? || pc.LoadForce? || pc.LoadBusy? || pc.SeenIdle? || pc.SeenNotIdle?
  }

  /** The thread changed what the waiters look at, and will notify them. */
  predicate OwesNotify(pc: ThreadPc) {
    pc.UnlockIdle? || pc.NotifyIdle? || pc.ClearRunning? || pc.UnlockLast? || pc.NotifyLast?
  }

  ghost predicate Served(scans: seq<ScanRecord>, requests: nat) {
    exists i :: 0 <= i < |scans| && scans[i].forced && requests <= scans[i].requests
  }

  /** The forced scan under way serves the requests consumed. */
  predicate UnderWay(h: Shared) {
    h.forced && (h.pc.TakeSnapshot? || h.pc.Scan?)
  }

  ghost predicate ThreadInvariant(h: Shared) {
    && (h.busy <==> h.pc.Exchange? || h.pc.TakeSnapshot? || h.pc.Scan? || h.pc.LockIdle? || h.pc.ClearBusy?)
    && (h.running <==> !(h.pc.UnlockLast? || h.pc.NotifyLast? || h.pc.Gone?))
    && h.consumed <= h.requests && (!h.force ==> h.consumed == h.requests)
    && (h.consumed > 0 ==> Served(h.scans, h.consumed) || UnderWay(h))
    && (h.forced && h.pc.Scan? ==> h.consumed <= h.atSnapshot)
  }

  ghost predicate Covered(h: Shared, since: nat) {
    since == 0 || Served(h.scans, since) || (UnderWay(h) && since <= h.consumed)
  }

  ghost predicate WaiterInvariant(h: Shared, holds: bool, x: Waiter) {
    && (holds <==> WaiterHolds(x.pc))
    && x.since <= h.requests
    && (x.pc.LoadForce? || x.pc.LoadBusy? ==> h.running)
    && (x.pc.LoadBusy? ==> Covered(h, x.since))
    && (x.pc.SeenNotIdle? ==> !Idle(h))
    && (x.pc.Asleep? ==> !Idle(h) || OwesNotify(h.pc))
    && (x.pc.SeenIdle? || x.pc == Returned(true) ==> x.stopped || x.since == 0 || Served(h.scans, x.since))
    && (x.stopped ==> !h.running)
  }

  ghost predicate Invariant(s: State) {
    && ThreadInvariant(s.h)
    && (s.mutex == TheThread <==> ThreadHolds(s.h.pc))
    && (forall w :: 0 <= w < |s.waiters| ==> WaiterInvariant(s.h, s.mutex == OneWaiter(w), s.waiters[w]))
  }

  lemma ServedMore(a: seq<ScanRecord>, b: seq<ScanRecord>, m: nat, n: nat)
    requires Served(a, n) && a <= b && m <= n
    ensures Served(b, m)
  {
    var i :| 0 <= i < |a| && a[i].forced && n <= a[i].requests;
    assert b[i] == a[i];
  }

  lemma ScanServes(h: Shared, choice: bool, n: nat)
    requires ThreadInvariant(h) && h.pc.Scan? && h.forced && n <= h.consumed
    ensures Served(ThreadNext(h, choice).scans, n)
  {
    var t := ThreadNext(h, choice);
    assert t.scans[|h.scans|] == ScanRecord(true, h.atSnapshot, choice);
  }

  lemma ThreadKeepsItself(h: Shared, choice: bool)
    requires ThreadInvariant(h)
    ensures ThreadInvariant(ThreadNext(h, choice))
  {
    hide Served;
    if Served(h.scans, h.consumed) {
      ServedMore(h.scans, ThreadNext(h, choice).scans, h.consumed, h.consumed);
    }
    if h.pc.Scan? && h.forced {
      ScanServes(h, choice, h.consumed);
    }
  }

  lemma CoveredStays(h: Shared, choice: bool, since: nat)
    requires ThreadInvariant(h) && Covered(h, since)
    ensures Covered(ThreadNext(h, choice), since)
  {
    hide Served;
    if Served(h.scans, since) {
      ServedMore(h.scans, ThreadNext(h, choice).scans, since, since);
    } else if since > 0 && h.pc.Scan? {
      ScanServes(h, choice, since);
    }
  }

  lemma ThreadKeepsWaiter(h: Shared, choice: bool, holds: bool, x: Waiter)
    requires ThreadInvariant(h) && WaiterInvariant(h, holds, x) && !(ThreadHolds(h.pc) && holds)
    ensures WaiterInvariant(ThreadNext(h, choice), holds, if Notifying(h.pc) then Woken(x) else x)
  {
    hide Served, Covered;
    if x.pc.LoadBusy? {
      CoveredStays(h, choice, x.since);
    }
    if Served(h.scans, x.since) {
      ServedMore(h.scans, ThreadNext(h, choice).scans, x.since, x.since);
    }
  }

  lemma WaiterKeepsItself(h: Shared, x: Waiter)
    requires ThreadInvariant(h) && WaiterInvariant(h, WaiterHolds(x.pc), x)
    ensures WaiterInvariant(h, WaiterHolds(WaiterNext(h, x).pc), WaiterNext(h, x))
  {
    hide Served;
    if x.pc.LoadForce? && !h.force && Served(h.scans, h.consumed) {
      ServedMore(h.scans, h.scans, x.since, h.consumed);
    }
  }

  lemma ThreadStepKeepsInvariant(s: State, choice: bool)
    requires Invariant(s)
    ensures Invariant(ThreadStep(s, choice))
  {
    if !(Locking(s.h.pc) && s.mutex != Nobody) {
      ThreadKeepsItself(s.h, choice);
      var t := ThreadStep(s, choice);
      assert t.mutex == TheThread <==> ThreadHolds(t.h.pc);
      forall w | 0 <= w < |t.waiters| ensures WaiterInvariant(t.h, t.mutex == OneWaiter(w), t.waiters[w]) {
        ThreadKeepsWaiter(s.h, choice, s.mutex == OneWaiter(w), s.waiters[w]);
        hide ThreadNext, WaiterInvariant, ThreadInvariant;
      }
    }
  }

  lemma WaiterStepKeepsInvariant(s: State, w: nat)
    requires Invariant(s) && w < |s.waiters|
    ensures Invariant(WaiterStep(s, w))
  {
    var x := s.waiters[w];
    assert WaiterInvariant(s.h, s.mutex == OneWaiter(w), x);
    WaiterKeepsItself(s.h, x);
    hide ThreadInvariant, Served;
  }

  lemma RequestKeepsInvariant(s: State)
    requires Invariant(s)
    ensures Invariant(Do(s, Request))
  {
    hide Served;
  }

  lemma StepKeepsInvariant(s: State, a: Act)
    requires Invariant(s)
    ensures Invariant(Do(s, a))
  {
    hide ThreadStep, WaiterStep, Served;
    match a
    case ThreadMoves(choice) => ThreadStepKeepsInvariant(s, choice);
    case Request => RequestKeepsInvariant(s);
    case Exit =>
    case Call(w) =>
    case WaiterMoves(w) =>
      if w < |s.waiters| {
        WaiterStepKeepsInvariant(s, w);
      }
    case WakesUp(w, _) =>
  }

  lemma {:induction false} AlwaysInvariant(n: nat, acts: seq<Act>)
    ensures Invariant(Run(Start(n), acts))
  {
    if acts != [] {
      hide Invariant, Do;
      AlwaysInvariant(n, acts[..|acts| - 1]);
      StepKeepsInvariant(Run(Start(n), acts[..|acts| - 1]), acts[|acts| - 1]);
    }
  }

  lemma {:induction false} CountStays(n: nat, acts: seq<Act>)
    ensures |Run(Start(n), acts).waiters| == n
  {
    if acts != [] {
      hide ThreadNext, WaiterNext;
      CountStays(n, acts[..|acts| - 1]);
    }
  }

  // ----- What it gives -----

  /** Over all interleavings: when a wait yields true while the thread is running, a forced scan
      is over whose snapshot was taken after every request made before the wait was called. It
      completed, unless the detector threw. */
  lemma NeverIdleTooEarly(n: nat, acts: seq<Act>, w: nat)
    requires w < n
    ensures
      var s := Run(Start(n), acts);
      && |s.waiters| == n
      && (s.waiters[w].pc == Returned(true) && s.waiters[w].since > 0 && s.h.running ==>
            exists i :: 0 <= i < |s.h.scans| && s.h.scans[i].forced && s.waiters[w].since <= s.h.scans[i].requests)
  {
    AlwaysInvariant(n, acts);
    CountStays(n, acts);
    hide Run;
    var s := Run(Start(n), acts);
    assert WaiterInvariant(s.h, s.mutex == OneWaiter(w), s.waiters[w]);
  }

  /** Every step that makes the mapper idle is one of the thread, holds the idle mutex, and is
      followed by a notify (OwedNotifyIsGiven). */
  lemma BecomingIdleIsNotified(n: nat, acts: seq<Act>, a: Act)
    ensures
      var s, t := Run(Start(n), acts), Do(Run(Start(n), acts), a);
      !Idle(s.h) && Idle(t.h) ==>
        a.ThreadMoves? && s.mutex == TheThread && t.mutex == TheThread && OwesNotify(t.h.pc)
  {
    AlwaysInvariant(n, acts);
    hide Run, Served, WaiterInvariant;
  }

  /** The thread keeps owing the notify, changing nothing that others look at but to stop, until
      it notifies all; then nobody sleeps. */
  lemma OwedNotifyIsGiven(s: State, choice: bool)
    requires OwesNotify(s.h.pc)
    ensures
      var t := ThreadStep(s, choice);
      if Notifying(s.h.pc) then forall w :: 0 <= w < |t.waiters| ==> !t.waiters[w].pc.Asleep?
      else OwesNotify(t.h.pc) && t.h.force == s.h.force && t.h.busy == s.h.busy && t.waiters == s.waiters
  {
  }

  /** The steps of the thread until the notify it owes is given. */
  function Rank(pc: ThreadPc): nat {
    if pc.ClearRunning? then 3
    else if pc.UnlockIdle? || pc.UnlockLast? then 2
    else if Notifying(pc) then 1
    else 0
  }

  function ThreadMovesIn(acts: seq<Act>): nat {
    if acts == [] then 0 else (if acts[0].ThreadMoves? then 1 else 0) + ThreadMovesIn(acts[1..])
  }

  /** The `k`-th act of `more` notifies all, and leaves nobody asleep. */
  ghost predicate NotifiesAt(s: State, more: seq<Act>, k: nat) {
    && 0 < k <= |more| && more[k - 1].ThreadMoves? && Notifying(Run(s, more[..k - 1]).h.pc)
    && var t := Run(s, more[..k]); forall w :: 0 <= w < |t.waiters| ==> !t.waiters[w].pc.Asleep?
  }

  lemma {:induction false} RunFront(s: State, a: Act, rest: seq<Act>)
    ensures Run(s, [a] + rest) == Run(Do(s, a), rest)
  {
    hide Do;
    var all := [a] + rest;
    if rest == [] {
      assert all == [a] && all[..0] == [];
      assert Run(s, []) == s;
    } else {
      RunFront(s, a, rest[..|rest| - 1]);
      assert all[..|all| - 1] == [a] + rest[..|rest| - 1];
    }
  }

  /** While the thread owes a notify, its own steps bring it nearer and no one else delays it. */
  lemma OwingStep(s: State, a: Act)
    requires OwesNotify(s.h.pc) && !(a.ThreadMoves? && Notifying(s.h.pc))
    ensures OwesNotify(Do(s, a).h.pc)
    ensures Rank(Do(s, a).h.pc) == Rank(s.h.pc) - if a.ThreadMoves? then 1 else 0
  {
  }

  lemma NotifiesLater(s: State, more: seq<Act>, k: nat)
    requires more != [] && NotifiesAt(Do(s, more[0]), more[1..], k)
    ensures NotifiesAt(s, more, k + 1)
  {
    hide Do, Run;
    var a, rest := more[0], more[1..];
    RunFront(s, a, rest[..k - 1]);
    RunFront(s, a, rest[..k]);
    assert more[..k] == [a] + rest[..k - 1] && more[..k + 1] == [a] + rest[..k];
  }

  lemma {:induction false} NotifyWithin(s: State, more: seq<Act>) returns (k: nat)
    requires OwesNotify(s.h.pc) && Rank(s.h.pc) <= ThreadMovesIn(more)
    ensures NotifiesAt(s, more, k)
    decreases |more|
  {
    var a := more[0];
    if a.ThreadMoves? && Notifying(s.h.pc) {
      k := 1;
      OwedNotifyIsGiven(s, a.choice);
      hide ThreadStep;
      assert more[..1] == [a] && more[..0] == [] && [a][..0] == [];
      assert Run(s, [a]) == Do(s, a);
    } else {
      OwingStep(s, a);
      hide Do, Run;
      var j := NotifyWithin(Do(s, a), more[1..]);
      NotifiesLater(s, more, j);
      k := j + 1;
    }
  }

  /** So every step that makes the mapper idle is followed by a notify: in any continuation in which
      the thread takes three more steps, whatever everyone else does, one of them notifies all, and
      then nobody sleeps. */
  lemma IdleIsNotified(n: nat, acts: seq<Act>, a: Act, more: seq<Act>) returns (k: nat)
    requires 3 <= ThreadMovesIn(more)
    ensures
      var s, t := Run(Start(n), acts), Do(Run(Start(n), acts), a);
      !Idle(s.h) && Idle(t.h) ==> NotifiesAt(t, more, k)
  {
    k := 0;
    var s := Run(Start(n), acts);
    if !Idle(s.h) && Idle(Do(s, a).h) {
      BecomingIdleIsNotified(n, acts, a);
      hide Run, Do, NotifiesAt;
      k := NotifyWithin(Do(s, a), more);
    }
  }

  /** Whether the last wait of waiter `w`, within its last call, ended with its time. */
  function TimedOut(n: nat, acts: seq<Act>, w: nat): bool {
    if acts == [] then false
    else
      var k := |acts| - 1;
      var s := Run(Start(n), acts[..k]);
      match acts[k]
      case Call(v) =>
        if v == w && w < |s.waiters| && (s.waiters[w].pc.Away? || s.waiters[w].pc.Returned?) then false
        else TimedOut(n, acts[..k], w)
      case WakesUp(v, timedOut) =>
        if v == w && w < |s.waiters| && s.waiters[w].pc == Asleep then timedOut else TimedOut(n, acts[..k], w)
      case _ => TimedOut(n, acts[..k], w)
  }

  /** The last look, or what it gave. */
  predicate LastLook(pc: WaiterPc) {
    match pc
    case LockMutex(last) => last
    case LoadRunning(last) => last
    case LoadForce(last) => last
    case LoadBusy(last) => last
    case SeenNotIdle(last) => last
    case Returned(idle) => !idle
    case _ => false
  }

  lemma {:induction false} LastLookTimedOut(n: nat, acts: seq<Act>, w: nat)
    requires w < n
    ensures |Run(Start(n), acts).waiters| == n
    ensures LastLook(Run(Start(n), acts).waiters[w].pc) ==> TimedOut(n, acts, w)
  {
    CountStays(n, acts);
    if acts != [] {
      hide ThreadNext;
      LastLookTimedOut(n, acts[..|acts| - 1], w);
    }
  }

  /** Over all interleavings: a wait yields false only after its time, and only if at that step, with
      the idle mutex held, the mapper is not idle. */
  lemma FalseOnlyAfterTimeout(n: nat, acts: seq<Act>, a: Act, w: nat)
    requires w < n
    ensures
      var s, t := Run(Start(n), acts), Run(Start(n), acts + [a]);
      && |s.waiters| == n && |t.waiters| == n
      && (t.waiters[w].pc == Returned(false) ==> TimedOut(n, acts + [a], w))
      && (t.waiters[w].pc == Returned(false) && s.waiters[w].pc != Returned(false) ==>
            !Idle(s.h) && s.mutex == OneWaiter(w))
  {
    LastLookTimedOut(n, acts + [a], w);
    AlwaysInvariant(n, acts);
    CountStays(n, acts);
    assert (acts + [a])[..|acts|] == acts;
    hide ThreadNext, TimedOut;
    var s := Run(Start(n), acts);
    assert WaiterInvariant(s.h, s.mutex == OneWaiter(w), s.waiters[w]);
  }

  /** No lost wakeup: nobody sleeps while the mapper is idle, but for a notify on its way. */
  lemma NoLostWakeup(n: nat, acts: seq<Act>, w: nat)
    requires w < n
    ensures
      var s := Run(Start(n), acts);
      |s.waiters| == n && (s.waiters[w].pc.Asleep? && Idle(s.h) ==> OwesNotify(s.h.pc))
  {
    AlwaysInvariant(n, acts);
    CountStays(n, acts);
    hide Run;
    var s := Run(Start(n), acts);
    assert WaiterInvariant(s.h, s.mutex == OneWaiter(w), s.waiters[w]);
  }
}
