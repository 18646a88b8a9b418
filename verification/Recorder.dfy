/** The recorder: callers queue entries, one thread writes them to the file. Each critical
    section, and each write outside of them, is one step. */
module Recorder {
  import opened Basics

  /** The writer thread: waiting for an entry, writing one, about to count it, about to give up
      after an error, or finished. */
  datatype Writer<E> = Waiting | Writing(e: E) | Counting | GivingUp(e: E) | Finished

  /** `file` lists the complete entries in the file and `accepted` those taken from callers. */
  datatype State<E> = State(
    queue: seq<E>, written: nat, closing: bool, failed: bool, writer: Writer<E>,
    file: seq<E>, accepted: seq<E>)

  datatype Act<E> = Record(entry: Option<E>) | Close | TakeNext | Write(fails: bool) | Count | GiveUp

  // ----- Steps -----

  function Recording<E>(s: State<E>, entry: Option<E>): State<E> {
    if entry.None? || s.closing || s.failed then s
    else s.(queue := s.queue + [entry.value], accepted := s.accepted + [entry.value])
  }

  function Closing<E>(s: State<E>): State<E> {
    s.(closing := true)
  }

  function Taking<E>(s: State<E>): State<E> {
    if !s.writer.Waiting? || (!s.closing && s.queue == []) then s
    else if s.queue == [] then s.(writer := Finished)
    else s.(writer := Writing(s.queue[0]), queue := s.queue[1..])
  }

  function WritingEntry<E>(s: State<E>, fails: bool): State<E> {
    if !s.writer.Writing? then s
    else if fails then s.(writer := GivingUp(s.writer.e))
    else s.(writer := Counting, file := s.file + [s.writer.e])
  }

  function CountingEntry<E>(s: State<E>): State<E> {
    if s.writer.Counting? then s.(writer := Waiting, written := s.written + 1) else s
  }

  function GivingUpEntry<E>(s: State<E>): State<E> {
    if s.writer.GivingUp? then s.(writer := Finished, failed := true, queue := []) else s
  }

  function Do<E>(s: State<E>, a: Act<E>): State<E> {
    match a
    case Record(entry) => Recording(s, entry)
    case Close => Closing(s)
    case TakeNext => Taking(s)
    case Write(fails) => WritingEntry(s, fails)
    case Count => CountingEntry(s)
    case GiveUp => GivingUpEntry(s)
  }

  function Empty<E>(): State<E> {
    State([], 0, false, false, Waiting, [], [])
  }

  function Run<E>(acts: seq<Act<E>>): State<E> {
    if acts == [] then Empty() else Do(Run(acts[..|acts| - 1]), acts[|acts| - 1])
  }

  // ----- Nothing is lost or reordered -----

  function InFlight<E>(w: Writer<E>): seq<E> {
    match w
    case Writing(e) => [e]
    case GivingUp(e) => [e]
    case _ => []
  }

  ghost predicate Invariant<E>(s: State<E>) {
    && (if s.failed then s.file <= s.accepted else s.accepted == s.file + InFlight(s.writer) + s.queue)
    && |s.file| == s.written + (if s.writer.Counting? then 1 else 0)
    && (s.failed ==> s.writer.Finished?)
    && (s.writer.Finished? && !s.failed ==> s.closing && s.queue == [])
  }

  lemma StepKeepsInvariant<E>(s: State<E>, a: Act<E>)
    requires Invariant(s)
    ensures Invariant(Do(s, a))
  {
    match a
    case Record(entry) =>
      if entry.Some? && !s.closing && !s.failed {
        assert s.accepted + [entry.value] == s.file + InFlight(s.writer) + (s.queue + [entry.value]);
      }
    case TakeNext =>
      if s.writer.Waiting? && s.queue != [] {
        assert [s.queue[0]] + s.queue[1..] == s.queue;
        assert s.file + [] == s.file;
      }
    case Write(_) =>
    case Count =>
    case GiveUp =>
    case Close =>
  }

  /** In every reachable state, the entries accepted are those in the file, then the one being
      written, then those queued, in order. */
  lemma {:induction false} NothingLostOrReordered<E>(acts: seq<Act<E>>)
    ensures Invariant(Run(acts))
  {
    if acts != [] {
      NothingLostOrReordered(acts[..|acts| - 1]);
      StepKeepsInvariant(Run(acts[..|acts| - 1]), acts[|acts| - 1]);
    }
  }

  // ----- The object -----

  class MapperInputRecorder<E> {
    var queue: seq<E>
    var written: nat
    var closing: bool
    var failed: bool
    var writer: Writer<E>
    ghost var file: seq<E>
    ghost var accepted: seq<E>

    ghost function St(): State<E>
      reads this
    {
      State(queue, written, closing, failed, writer, file, accepted)
    }

    ghost predicate Valid()
      reads this
    {
      Invariant(St())
    }

    /** What is in the file, on its way to it, or waiting. */
    ghost function Held(): seq<E>
      reads this
    {
      file + InFlight(writer) + queue
    }

    constructor ()
      ensures Valid() && St() == Empty()
    {
      queue, written, closing, failed, writer := [], 0, false, false, Waiting;
      file, accepted := [], [];
    }

    /** An entry is accepted, behind all others, unless there is none or it comes after `close` or an
        error; and only then is one held or accepted. */
    method Record(entry: Option<E>)
      requires Valid()
      modifies this`queue, this`accepted
      ensures Valid() && St() == Do(old(St()), Act.Record(entry))
      ensures
        var more := if entry.Some? && !closing && !failed then [entry.value] else [];
        accepted == old(accepted) + more && Held() == old(Held()) + more
    {
      StepKeepsInvariant(St(), Act.Record(entry));
      if entry.None? {
        return;
      }
      if closing || failed {
        return;
      }
      queue := queue + [entry.value];
      accepted := accepted + [entry.value];
    }

    /** What was accepted so far will still be written; later calls of Record add nothing, and the
        writer may finish. */
    method BeginClose()
      requires Valid()
      modifies this`closing
      ensures Valid() && St() == Do(old(St()), Close)
      ensures forall entry :: Do(St(), Act.Record(entry)) == St()
    {
      StepKeepsInvariant(St(), Close);
      closing := true;
    }

    /** The writer, at the head of its loop: the entry it takes is the first accepted one that the file
        lacks. It only finishes when everything accepted is in the file and no more can come. */
    method TakeNext()
      requires Valid()
      modifies this`queue, this`writer
      ensures Valid() && St() == Do(old(St()), Act.TakeNext)
      ensures Held() == old(Held())
      ensures writer.Writing? ==> |file| < |accepted| && accepted[|file|] == writer.e
      ensures writer.Finished? && !failed ==> file == accepted && closing
    {
      StepKeepsInvariant(St(), Act.TakeNext);
      if !writer.Waiting? || (!closing && queue == []) {
        return;  // still waiting
      }
      if queue == [] {
        writer := Finished;  // closing, and everything written
        return;
      }
      writer := Writing(queue[0]);
      queue := queue[1..];
    }

    /** The next accepted entry is complete in the file, or the file is as it was. */
    method WriteEntry(fails: bool)
      requires Valid()
      modifies this`writer, this`file
      ensures Valid() && St() == Do(old(St()), Write(fails))
      ensures Held() == old(Held())
      ensures file == old(file) || (|old(file)| < |accepted| && file == old(file) + [accepted[|old(file)|]])
      ensures old(writer).Writing? ==> (file == old(file) <==> fails)
    {
      StepKeepsInvariant(St(), Write(fails));
      if writer.Writing? {
        if fails {
          writer := GivingUp(writer.e);
        } else {
          file := file + [writer.e];
          writer := Counting;
        }
      }
    }

    /** Between two entries, the counter is the number of complete ones. */
    method CountEntry()
      requires Valid()
      modifies this`writer, this`written
      ensures Valid() && St() == Do(old(St()), Count)
      ensures Held() == old(Held()) && written == |file|
    {
      StepKeepsInvariant(St(), Count);
      if writer.Counting? {
        written := written + 1;
        writer := Waiting;
      }
    }

    /** After an error nothing more is accepted or written, and the file is a prefix of what was. */
    method StopAfterError()
      requires Valid() && writer.GivingUp?
      modifies this`queue, this`failed, this`writer
      ensures Valid() && St() == Do(old(St()), GiveUp)
      ensures file < accepted && written == |file|
      ensures forall entry :: Do(St(), Act.Record(entry)) == St()
    {
      StepKeepsInvariant(St(), GiveUp);
      assert accepted[|file|] == writer.e;
      failed := true;
      queue := [];
      writer := Finished;
    }
  }

  /** `close` returns once the writer has finished: then the file holds everything accepted, or
      what came before the failure, and the counter is exact. */
  lemma AfterClose<E>(acts: seq<Act<E>>)
    ensures
      var s := Run(acts);
      s.writer.Finished? ==>
        && s.written == |s.file|
        && s.file <= s.accepted
        && (!s.failed ==> s.file == s.accepted && s.closing)
  {
    NothingLostOrReordered(acts);
    var s := Run(acts);
    hide Run;
    if s.writer.Finished? && !s.failed {
      assert s.file + [] + [] == s.file;
    }
  }

  /** The entries callers handed over, in order. */
  function Handed<E>(acts: seq<Act<E>>): seq<E> {
    if acts == [] then []
    else
      var a := acts[|acts| - 1];
      Handed(acts[..|acts| - 1]) + if a.Record? && a.entry.Some? then [a.entry.value] else []
  }

  /** Unless a write fails, everything handed over before closing is accepted: the log of the run. */
  lemma {:induction false} AcceptsAllBeforeClose<E>(acts: seq<Act<E>>, n: nat)
    requires n <= |acts|
    requires forall i :: 0 <= i < n ==> !acts[i].Close?
    requires forall i :: n <= i < |acts| ==> !acts[i].Record?
    requires !Run(acts).failed
    ensures Run(acts).accepted == Handed(acts)
    ensures n == |acts| ==> !Run(acts).closing
  {
    if acts != [] {
      var k := |acts| - 1;
      AcceptsAllBeforeClose(acts[..k], if n <= k then n else k);
      if n <= k {
        assert Handed(acts[..k]) + [] == Handed(acts[..k]);
      }
    }
  }
}
