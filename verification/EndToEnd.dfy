/** From a live run to its replay, through the file: each entry of the log is printed, queued, written
    by the thread of the recorder, read back, parsed and applied. */
module EndToEnd {
  import opened Basics
  import opened Motion
  import opened MapperTypes
  import opened MapperSpec
  import opened SolveAtomicity
  import opened GnssAttachment
  import opened Replay
  import InputLog
  import Recorder

  /** What is in the file: an observation as it is, or the sensory frame of a keyframe request. */
  datatype Item<G> = ObservationItem(o: Observation<G>) | FrameItem(sf: seq<InputLog.Obs>)

  /** How the parts of a request are told in numbers and observations, and back. */
  datatype Codec<!G(!new), !N(!new)> = Codec(
    p: InputLog.Numbers<N>,
    rows: G -> seq<N>, pose: seq<N> -> G,
    number: real -> N, value: N -> real,
    scan: nat -> seq<InputLog.Obs>, scanOf: seq<InputLog.Obs> -> nat,
    cov: Request<G> -> seq<N>, quality: Request<G> -> N,
    blank: InputLog.Recorded<N>)

  function ToRecorded<G(!new), N(!new)>(k: Codec<G, N>, req: Request<G>, b: GyroBias): InputLog.Recorded<N> {
    InputLog.Recorded(
      req.stamp, req.frame, k.rows(req.src), k.cov(req), k.quality(req),
      [k.number(b.bias.x), k.number(b.bias.y), k.number(b.bias.z)], k.number(b.sigma), b.fromSource,
      k.scan(req.scan))
  }

  function FromRecorded<G(!new), N(!new)>(k: Codec<G, N>, kf: InputLog.Recorded<N>): LogEntry<G>
    requires |kf.bias| == 3
  {
    KeyframeEntry(
      Request(kf.stamp, kf.frame, k.pose(kf.pose), k.scanOf(kf.observations)),
      GyroBias(Vec(k.value(kf.bias[0]), k.value(kf.bias[1]), k.value(kf.bias[2])), k.value(kf.sigma), kf.fromSource))
  }

  ghost predicate SameNumber<G(!new), N(!new)>(k: Codec<G, N>, x: real) {
    k.value(k.number(x)) == x
  }

  /** The parts of a request can be told back, and the text can hold them. */
  ghost predicate Tellable<G(!new), N(!new)>(k: Codec<G, N>, e: LogEntry<G>) {
    e.KeyframeEntry? ==>
      var (req, b) := (e.req, e.bias);
      && |k.rows(req.src)| == 12 && |k.cov(req)| == 36 && k.pose(k.rows(req.src)) == req.src
      && k.scanOf(InputLog.AllSelfContained(k.scan(req.scan))) == req.scan
      && SameNumber(k, b.bias.x) && SameNumber(k, b.bias.y) && SameNumber(k, b.bias.z) && SameNumber(k, b.sigma)
      && InputLog.OneLine(req.frame) && InputLog.NoRequests(k.scan(req.scan))
  }

  // ----- Writing and reading entries -----

  function ToItem<G(!new), N(!new)>(k: Codec<G, N>, e: LogEntry<G>): Item<G> {
    match e
    case ObservationEntry(o) => ObservationItem(o)
    case KeyframeEntry(req, b) => FrameItem(InputLog.Encoded(k.p, ToRecorded(k, req, b)))
  }

  /** None if the frame does not parse, or lacks a part. */
  ghost function FromItem<G(!new), N(!new)>(k: Codec<G, N>, item: Item<G>): Option<LogEntry<G>> {
    match item
    case ObservationItem(o) => Some(ObservationEntry(o))
    case FrameItem(sf) =>
      match InputLog.Decode(k.p, sf, k.blank)
      case Err(_) => None
      case Ok(kf) => if |kf.bias| == 3 then Some(FromRecorded(k, kf)) else None
  }

  function ToItems<G(!new), N(!new)>(k: Codec<G, N>, log: seq<LogEntry<G>>): (items: seq<Item<G>>)
    ensures |items| == |log| && forall i :: 0 <= i < |log| ==> items[i] == ToItem(k, log[i])
  {
    seq(|log|, i requires 0 <= i < |log| => ToItem(k, log[i]))
  }

  /** The entries of a file. */
  ghost function FromItems<G(!new), N(!new)>(k: Codec<G, N>, items: seq<Item<G>>): Option<seq<LogEntry<G>>> {
    if items == [] then Some([])
    else
      var n := |items| - 1;
      var before, last := FromItems(k, items[..n]), FromItem(k, items[n]);
      if before.None? || last.None? then None else Some(before.value + [last.value])
  }

  lemma ReadBack<G(!new), N(!new)>(k: Codec<G, N>, e: LogEntry<G>)
    requires InputLog.IsExact(k.p) && Tellable(k, e)
    ensures FromItem(k, ToItem(k, e)) == Some(e)
  {
    if e.KeyframeEntry? {
      hide InputLog.IsExact, InputLog.Encoded, InputLog.Decode, InputLog.OneLine, InputLog.NoRequests;
      InputLog.DecodeEncoded(k.p, ToRecorded(k, e.req, e.bias), k.blank);
    }
  }

  lemma {:induction false} AllReadBack<G(!new), N(!new)>(k: Codec<G, N>, log: seq<LogEntry<G>>)
    requires InputLog.IsExact(k.p) && forall i :: 0 <= i < |log| ==> Tellable(k, log[i])
    ensures FromItems(k, ToItems(k, log)) == Some(log)
  {
    if log != [] {
      hide InputLog.IsExact, Tellable, ToItem, FromItem;
      var n := |log| - 1;
      AllReadBack(k, log[..n]);
      ReadBack(k, log[n]);
      assert ToItems(k, log)[..n] == ToItems(k, log[..n]);
      assert log == log[..n] + [log[n]];
    }
  }

  // ----- What the recorder accepts -----

  /** After an error, what was accepted is what was handed over first. */
  lemma {:induction false} AcceptsPrefix<E>(acts: seq<Recorder.Act<E>>)
    ensures
      var s := Recorder.Run(acts);
      && s.accepted <= Recorder.Handed(acts)
      && (!s.closing && !s.failed ==> s.accepted == Recorder.Handed(acts))
  {
    if acts != [] {
      AcceptsPrefix(acts[..|acts| - 1]);
    }
  }

  /** A part of the log is the log of a part of the run. */
  lemma {:induction false} PrefixOfRun<G(!new)>(
    cfg: Config<G>, ops: seq<Op<G>>, part: seq<LogEntry<G>>) returns (n: nat)
    requires part <= LogOf(cfg, ops)
    ensures n <= |ops| && LogOf(cfg, ops[..n]) == part
    ensures part == LogOf(cfg, ops) ==> n == |ops|
  {
    if part == LogOf(cfg, ops) {
      n := |ops|;
      assert ops[..n] == ops;
    } else {
      hide LoggedBy;
      OneAtATime(cfg, ops[|ops| - 1]);
      n := PrefixOfRun(cfg, ops[..|ops| - 1], part);
      assert ops[..|ops| - 1][..n] == ops[..n];
    }
  }

  lemma OneAtATime<G(!new)>(cfg: Config<G>, op: Op<G>)
    ensures |LoggedBy(cfg, op)| <= 1
  {
  }

  lemma PrefixOfItems<G(!new), N(!new)>(k: Codec<G, N>, log: seq<LogEntry<G>>, items: seq<Item<G>>)
    requires items <= ToItems(k, log)
    ensures items == ToItems(k, log[..|items|])
  {
    hide ToItem;
  }

  // ----- The whole way -----

  /** For every live run and every schedule of the recorder: once the recorder has finished, the file is
      read back as the log of the run up to some moment, and replaying that gives the state of that
      moment but for poses, loops and images. If no write failed and nothing was handed over after
      closing, that moment is the end of the run. */
  lemma RecordedRunReplays<G(!new), N(!new)>(
    cfg: Config<G>, opt: GraphInput<G> -> GraphResult<G>, k: Codec<G, N>,
    ops: seq<Op<G>>, acts: seq<Recorder.Act<Item<G>>>) returns (n: nat)
    requires cfg.recording && InputLog.IsExact(k.p)
    requires forall i :: 0 <= i < |LogOf(cfg, ops)| ==> Tellable(k, LogOf(cfg, ops)[i])
    requires Recorder.Handed(acts) == ToItems(k, LogOf(cfg, ops)) && Recorder.Run(acts).writer.Finished?
    ensures n <= |ops|
    ensures
      var read := FromItems(k, Recorder.Run(acts).file);
      && read == Some(StateAfter(cfg, opt, ops[..n]).log)
      && Agree(StateAfter(cfg, opt, ops[..n]), ReplayAll(Replaying(cfg), read.value))
    ensures !Recorder.Run(acts).failed && ClosedLast(acts) ==> n == |ops|
  {
    hide Tellable, Agree, InputLog.IsExact, FromItems, Recorder.Run, Recorder.Handed, LogOf, StateAfter, ReplayAll;
    var r := Recorder.Run(acts);
    var log := LogOf(cfg, ops);
    Recorder.AfterClose(acts);
    AcceptsPrefix(acts);
    PrefixOfItems(k, log, r.file);
    var part := log[..|r.file|];
    AllReadBack(k, part);
    n := PrefixOfRun(cfg, ops, part);
    LogDeterminesIngestion(cfg, opt, ops[..n]);
    if !r.failed && ClosedLast(acts) {
      var m: nat :| ClosedFrom(acts, m);
      Recorder.AcceptsAllBeforeClose(acts, m);
      assert part == log;
    }
  }

  /** Nothing is handed over after the recorder is closed. */
  ghost predicate ClosedLast<E>(acts: seq<Recorder.Act<E>>) {
    exists m: nat :: ClosedFrom(acts, m)
  }

  ghost predicate ClosedFrom<E>(acts: seq<Recorder.Act<E>>, m: nat) {
    && m <= |acts|
    && (forall i :: 0 <= i < m ==> !acts[i].Close?)
    && (forall i :: m <= i < |acts| ==> !acts[i].Record?)
  }
}
