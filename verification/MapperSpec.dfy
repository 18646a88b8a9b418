/** What each critical section of the mapper does to its state, as functions. The class
    Mapper proves its methods against them; the theorems are about runs of them. */
module MapperSpec {
  import opened Basics
  import opened Motion
  import opened GyroIntegration
  import opened LoopOdometryCheck
  import opened MapperTypes

  // ----- Attaching an observation to the keyframe nearest in time -----

  ghost predicate Increasing<G>(kfs: seq<Keyframe<G>>) {
    forall i, j :: 0 <= i < j < |kfs| ==> kfs[i].stamp < kfs[j].stamp
  }

  function Offset<G>(kf: Keyframe<G>, t: int): (d: nat) {
    Abs(kf.stamp - t)
  }

  /** The keyframe nearest to `t` among all: the earlier one on a tie. */
  function NearestIndex<G>(kfs: seq<Keyframe<G>>, t: int): (i: nat)
    requires kfs != []
    ensures i < |kfs|
    ensures forall j :: 0 <= j < |kfs| ==>
      if j < i then Offset(kfs[i], t) < Offset(kfs[j], t) else Offset(kfs[i], t) <= Offset(kfs[j], t)
  {
    var n := |kfs| - 1;
    if n == 0 then 0
    else
      var i := NearestIndex(kfs[..n], t);
      if Offset(kfs[n], t) < Offset(kfs[i], t) then n else i
  }

  datatype Choice = Pending | Dropped | Attach(at: nat, dt: nat)

  /** Where an observation of time `t` goes. */
  function Choose<G>(kfs: seq<Keyframe<G>>, t: int, slot: string, maxOffset: int): (c: Choice)
    ensures c.Attach? ==> c.at < |kfs|
  {
    if kfs == [] || kfs[|kfs| - 1].stamp < t then Pending
    else
      var i := NearestIndex(kfs, t);
      var dt := Offset(kfs[i], t);
      if dt > maxOffset || (slot in kfs[i].nearest && kfs[i].nearest[slot].dt <= dt) then Dropped
      else Attach(i, dt)
  }

  /** Whether two references are to the same observation object. */
  predicate Same<G>(a: Aux<G>, b: Aux<G>) {
    match a
    case GnssAux(r) => b.GnssAux? && b.reading == r
    case PictureAux(p) => b.PictureAux? && b.picture == p
    case FileAux(p) => b.FileAux? && b.picture == p
    case GravityAux(_) => false
  }

  /** The observations but for one. */
  function Without<G>(aux: seq<Aux<G>>, remove: Option<Aux<G>>): seq<Aux<G>> {
    if aux == [] then []
    else
      var n := |aux| - 1;
      Without(aux[..n], remove) + if remove.Some? && Same(aux[n], remove.value) then [] else [aux[n]]
  }

  function Replaced<G>(aux: seq<Aux<G>>, remove: Option<Aux<G>>, add: Aux<G>): seq<Aux<G>> {
    Without(aux, remove) + [add]
  }

  function Attached<G>(kf: Keyframe<G>, slot: string, o: Aux<G>, dt: nat): Keyframe<G> {
    var prev := if slot in kf.nearest then Some(kf.nearest[slot].obs) else None;
    kf.(aux := Replaced(kf.aux, prev, o), nearest := kf.nearest[slot := Nearest(o, dt)])
  }

  function AttachAt<G>(kfs: seq<Keyframe<G>>, c: Choice, slot: string, o: Aux<G>): seq<Keyframe<G>>
    requires c.Attach? ==> c.at < |kfs|
  {
    if c.Attach? then kfs[c.at := Attached(kfs[c.at], slot, o, c.dt)] else kfs
  }

  // ----- GNSS -----

  /** `attached` becomes true when a reading is attached: the graph has new data. */
  datatype GnssPart<G> = GnssPart(kfs: seq<Keyframe<G>>, pending: seq<Reading>, attached: bool)

  function AttachGnss<G>(maxOffset: int, x: GnssPart<G>, r: Reading): GnssPart<G> {
    var c := Choose(x.kfs, r.stamp, GNSS, maxOffset);
    match c
    case Pending => x.(pending := x.pending + [r])
    case Attach(_, _) => x.(kfs := AttachAt(x.kfs, c, GNSS, GnssAux(r)), attached := true)
    case Dropped => x
  }

  function AttachAllGnss<G>(maxOffset: int, x: GnssPart<G>, rs: seq<Reading>): GnssPart<G>
    decreases |rs|
  {
    if rs == [] then x else AttachGnss(maxOffset, AttachAllGnss(maxOffset, x, rs[..|rs| - 1]), rs[|rs| - 1])
  }

  function WithGnss<G>(s: State<G>, x: GnssPart<G>): State<G> {
    s.(kfs := x.kfs, pendingGnss := x.pending, newData := x.attached)
  }

  function RetryGnss<G(!new)>(cfg: Config<G>, s: State<G>): State<G> {
    WithGnss(s, AttachAllGnss(cfg.gnssMaxOffset, GnssPart(s.kfs, [], s.newData), s.pendingGnss))
  }

  // ----- Images -----

  const FRONT_END_LAG_MARGIN := 2 * SECOND

  datatype ImagePart<G> = ImagePart(kfs: seq<Keyframe<G>>, im: Images)

  function AttachImage<G>(maxOffset: int, x: ImagePart<G>, p: Picture): ImagePart<G> {
    var slot := ImageSlot(p.sensor);
    var c := Choose(x.kfs, p.stamp, slot, maxOffset);
    match c
    case Pending => x.(im := x.im.(pending := x.im.pending + [p]))
    case Attach(at, _) =>
      ImagePart(AttachAt(x.kfs, c, slot, PictureAux(p)),
                if (at, slot) in x.im.unwritten then x.im
                else x.im.(unwritten := x.im.unwritten + [(at, slot)]))
    case Dropped => x
  }

  function AttachAllImages<G>(maxOffset: int, x: ImagePart<G>, ps: seq<Picture>): ImagePart<G>
    decreases |ps|
  {
    if ps == [] then x else AttachImage(maxOffset, AttachAllImages(maxOffset, x, ps[..|ps| - 1]), ps[|ps| - 1])
  }

  function DropOldImages(ps: seq<Picture>, maxOffset: int): seq<Picture> {
    if ps != [] && ps[|ps| - 1].stamp - ps[0].stamp > maxOffset + FRONT_END_LAG_MARGIN then
      DropOldImages(ps[1..], maxOffset)
    else ps
  }

  function RetryImagePart<G>(maxOffset: int, x: ImagePart<G>): ImagePart<G> {
    var y := AttachAllImages(maxOffset, x.(im := x.im.(pending := [])), x.im.pending);
    y.(im := y.im.(pending := DropOldImages(y.im.pending, maxOffset)))
  }

  function WithImages<G>(s: State<G>, x: ImagePart<G>): State<G> {
    s.(kfs := x.kfs, images := x.im)
  }

  function RetryImages<G(!new)>(cfg: Config<G>, s: State<G>): State<G> {
    WithImages(s, RetryImagePart(cfg.imageMaxOffset, ImagePart(s.kfs, s.images)))
  }

  /** `unwritten` only refers to pictures attached and still held by their keyframe. */
  predicate HoldsPicture<G>(kfs: seq<Keyframe<G>>, e: (nat, string)) {
    e.0 < |kfs| && e.1 in kfs[e.0].nearest && kfs[e.0].nearest[e.1].obs.PictureAux?
  }

  /** A picture that a closer one may still replace, as far as the newest image tells. */
  predicate MayBeReplaced<G>(kfs: seq<Keyframe<G>>, e: (nat, string), newest: Option<(string, int)>)
    requires HoldsPicture(kfs, e)
  {
    newest.Some? &&
    var kf := kfs[e.0];
    var (sensor, t) := newest.value;
    (e.0 + 1 == |kfs| || e.1 != ImageSlot(sensor) || Offset(kf, t) <= kf.nearest[e.1].dt || t < kf.stamp)
  }

  /** The keyframe with the picture of a slot replaced by a reference to its file. */
  function Externalized<G>(kf: Keyframe<G>, slot: string): Keyframe<G>
    requires slot in kf.nearest && kf.nearest[slot].obs.PictureAux?
  {
    var n := kf.nearest[slot];
    var file := FileAux(n.obs.picture);
    kf.(aux := Replaced(kf.aux, Some(n.obs), file), nearest := kf.nearest[slot := Nearest(file, n.dt)])
  }

  function FinishOne<G>(toFiles: bool, x: ImagePart<G>, e: (nat, string)): ImagePart<G>
    requires HoldsPicture(x.kfs, e)
  {
    var p := x.kfs[e.0].nearest[e.1].obs.picture;
    var im := x.im.(finished := x.im.finished + [e]);
    if toFiles && p.inMemory then
      ImagePart(x.kfs[e.0 := Externalized(x.kfs[e.0], e.1)], im.(writes := im.writes + [p]))
    else ImagePart(x.kfs, im)
  }

  function FinishEach<G>(
    toFiles: bool, x: ImagePart<G>, es: seq<(nat, string)>, newest: Option<(string, int)>): ImagePart<G>
    decreases |es|
  {
    if es == [] then x
    else
      var y := FinishEach(toFiles, x, es[..|es| - 1], newest);
      var e := es[|es| - 1];
      if HoldsPicture(y.kfs, e) && !MayBeReplaced(y.kfs, e, newest) then FinishOne(toFiles, y, e)
      else y.(im := y.im.(unwritten := y.im.unwritten + [e]))
  }

  function FinishPart<G>(toFiles: bool, x: ImagePart<G>, newest: Option<(string, int)>): ImagePart<G> {
    FinishEach(toFiles, x.(im := x.im.(unwritten := [])), x.im.unwritten, newest)
  }

  function FinishImages<G(!new)>(cfg: Config<G>, s: State<G>, newest: Option<(string, int)>): State<G> {
    WithImages(s, FinishPart(cfg.imageDir, ImagePart(s.kfs, s.images), newest))
  }

  /** A new image: tried at once, then what it makes final is finished. */
  function AddImage<G(!new)>(cfg: Config<G>, s: State<G>, p: Picture): State<G> {
    var x := ImagePart(s.kfs, s.images.(pending := s.images.pending + [p]));
    WithImages(s, FinishPart(cfg.imageDir, RetryImagePart(cfg.imageMaxOffset, x), Some((p.sensor, p.stamp))))
  }

  // ----- Gravity -----

  predicate InWindow(a: Acceleration, t: int, window: int) {
    0 <= t - a.stamp <= window
  }

  function AddVec(a: Vec, b: Vec): Vec {
    Vec(a.x + b.x, a.y + b.y, a.z + b.z)
  }

  /** The sum and number of the readings in the window before `t`. */
  function TallyOf(samples: seq<Acceleration>, t: int, window: int): Tally {
    if samples == [] then Tally(Vec(0.0, 0.0, 0.0), 0)
    else
      var n := |samples| - 1;
      var rest := TallyOf(samples[..n], t, window);
      if InWindow(samples[n], t, window) then Tally(AddVec(rest.sum, samples[n].acc), rest.n + 1) else rest
  }

  datatype GravityRule = GravityRule(useImu: bool, window: int, minSamples: nat)

  predicate EnoughGravity<G>(rule: GravityRule, imu: Imu<G>, t: int) {
    imu.sensor != "" && TallyOf(imu.samples, t, rule.window).n >= rule.minSamples
  }

  function WithGravity<G>(rule: GravityRule, imu: Imu<G>, kf: Keyframe<G>): Keyframe<G> {
    if !EnoughGravity(rule, imu, kf.stamp) then kf
    else
      var g := Gravity(imu.sensor, imu.sensorPose, kf.stamp, TallyOf(imu.samples, kf.stamp, rule.window));
      kf.(aux := Replaced(kf.aux, None, GravityAux(g)))
  }

  datatype ImuPart<G> = ImuPart(kfs: seq<Keyframe<G>>, imu: Imu<G>)

  /** Keyframes older than the reading at `t`: their window is complete now. */
  function ResolveGravity<G>(rule: GravityRule, x: ImuPart<G>, t: int): ImuPart<G>
    decreases |x.imu.pending|
  {
    var q := x.imu.pending;
    if q != [] && q[0] < |x.kfs| && x.kfs[q[0]].stamp < t then
      ResolveGravity(rule, ImuPart(x.kfs[q[0] := WithGravity(rule, x.imu, x.kfs[q[0]])], x.imu.(pending := q[1..])), t)
    else x
  }

  function DropOldAccelerations(a: seq<Acceleration>, t: int, keep: int): seq<Acceleration> {
    if a != [] && t - a[0].stamp > keep then DropOldAccelerations(a[1..], t, keep) else a
  }

  const GRAVITY_KEEP := 5 * SECOND

  function AddGravitySample<G>(
    rule: GravityRule, x: ImuPart<G>, t: int, sensor: string, pose: G, acc: Vec): ImuPart<G>
  {
    var imu := if x.imu.sensor == "" then x.imu.(sensor := sensor) else x.imu;
    if sensor != imu.sensor then x
    else
      var imu1 := imu.(samples := imu.samples + [Acceleration(t, acc)], sensorPose := pose);
      var y := ResolveGravity(rule, ImuPart(x.kfs, imu1), t);
      y.(imu := y.imu.(samples := DropOldAccelerations(y.imu.samples, t, rule.window + GRAVITY_KEEP)))
  }

  function RuleOf<G(!new)>(cfg: Config<G>): GravityRule {
    GravityRule(cfg.useImu, cfg.gravityWindow, cfg.gravityMinSamples)
  }

  // ----- Gyroscope -----

  const GYRO_KEEP := 60 * SECOND

  function DropOldRates(a: seq<GyroSample>, t: int, keep: int): seq<GyroSample> {
    if a != [] && t - a[0].stamp > keep then DropOldRates(a[1..], t, keep) else a
  }

  function AddGyroSample<G>(g: Gyro<G>, t: int, sensor: string, pose: G, w: Vec): Gyro<G> {
    var g1 := if g.sensor == "" then g.(sensor := sensor) else g;
    if sensor != g1.sensor || (g1.samples != [] && g1.samples[|g1.samples| - 1].stamp >= t) then g1
    else g1.(samples := DropOldRates(g1.samples + [GyroSample(t, w)], t, GYRO_KEEP), sensorPose := pose)
  }

  /** The bias a keyframe is integrated with: the configured one unless a source gave it. */
  function UsedBias<G(!new)>(cfg: Config<G>, b: GyroBias): GyroBias {
    if b.fromSource then b else GyroBias(Vec(0.0, 0.0, 0.0), cfg.gyroBiasSigma, false)
  }

  /** The rotation since `prev`, in the vehicle frame. */
  ghost function GyroRotationSince<G(!new)>(
    cfg: Config<G>, gyro: Gyro<G>, t0: int, t1: int, b: GyroBias): Option<GyroRotation<G>>
  {
    var g := Integral(cfg.m, gyro.samples, t0, t1, b.bias, cfg.gyroMaxGap);
    if !cfg.useGyro || g.None? then None
    else
      var rvs := cfg.m.rot(gyro.sensorPose);
      var r := Conjugate(cfg.m, rvs, g.value.R);
      Some(GyroRotation(r, g.value.duration, g.value.angle, b.sigma))
  }

  // ----- Keyframes -----

  /** The estimate of a keyframe from the one before it. */
  function ChainPose<G(!new)>(m: Motions<G>, prevPose: G, prev: Keyframe<G>, cur: Keyframe<G>): G {
    if prev.frame == cur.frame then Plus(m, prevPose, Minus(m, cur.src, prev.src)) else prevPose
  }

  /** A keyframe as inserted: chained, with its gravity and gyroscope rotation if known. */
  ghost function NewKeyframe<G(!new)>(cfg: Config<G>, s: State<G>, req: Request<G>, bias: GyroBias): Keyframe<G> {
    var kf := Keyframe(req.stamp, req.frame, req.src, req.scan, [], map[], req.src, None);
    if s.kfs == [] then WithGravity(RuleOf(cfg), s.imu, kf)
    else
      var prev := s.kfs[|s.kfs| - 1];
      WithGravity(RuleOf(cfg), s.imu, kf).(
        pose := ChainPose(cfg.m, prev.pose, prev, kf),
        gyro := GyroRotationSince(cfg, s.gyro, prev.stamp, req.stamp, UsedBias(cfg, bias)))
  }

  predicate Accepts<G>(s: State<G>, req: Request<G>) {
    !s.finalized && (s.kfs == [] || s.kfs[|s.kfs| - 1].stamp < req.stamp)
  }

  function Logged<G(!new)>(cfg: Config<G>, s: State<G>, e: LogEntry<G>): State<G> {
    if cfg.recording then s.(log := s.log + [e]) else s
  }

  /** The accelerometer readings up to `t` have not all arrived. */
  predicate ImuBehind<G(!new)>(cfg: Config<G>, imu: Imu<G>, t: int) {
    cfg.useImu && (imu.samples == [] || imu.samples[|imu.samples| - 1].stamp < t)
  }

  /** The new keyframe in place, before the pending readings are tried on it. */
  ghost function Appended<G(!new)>(cfg: Config<G>, s: State<G>, req: Request<G>, bias: GyroBias): State<G> {
    var late := ImuBehind(cfg, s.imu, req.stamp) && !EnoughGravity(RuleOf(cfg), s.imu, req.stamp);
    s.(kfs := s.kfs + [NewKeyframe(cfg, s, req, bias)],
       imu := if late then s.imu.(pending := s.imu.pending + [|s.kfs|]) else s.imu)
  }

  ghost function Insert<G(!new)>(cfg: Config<G>, s: State<G>, req: Request<G>, bias: GyroBias): State<G> {
    if s.finalized then s
    else
      var s1 := Logged(cfg, s, KeyframeEntry(req, bias));
      if !Accepts(s, req) then s1
      else RetryImages(cfg, RetryGnss(cfg, Appended(cfg, s1, req, bias))).(newData := true)
  }

  // ----- Observations -----

  predicate UsesGyro<G(!new)>(cfg: Config<G>, o: Observation<G>) {
    o.ImuObs? && cfg.useGyro && o.rates.Some? && cfg.gyroLabel(o.sensor)
  }

  predicate UsesGravity<G(!new)>(cfg: Config<G>, o: Observation<G>) {
    o.ImuObs? && cfg.useImu && o.acc.Some? && cfg.imuLabel(o.sensor)
  }

  predicate UsesGnss<G(!new)>(cfg: Config<G>, o: Observation<G>) {
    o.GnssObs? && cfg.useGnss && o.hasFix && cfg.gnssLabel(o.sensor)
  }

  predicate UsesImage<G(!new)>(cfg: Config<G>, o: Observation<G>) {
    o.ImageObs? && cfg.useImage && cfg.imageLabel(o.picture.sensor)
  }

  function AddGnss<G(!new)>(cfg: Config<G>, s: State<G>, r: Reading): State<G> {
    WithGnss(s, AttachGnss(cfg.gnssMaxOffset, GnssPart(s.kfs, s.pendingGnss, s.newData), r))
  }

  /** One IMU observation may carry rates, accelerations or both. */
  function AddImu<G(!new)>(cfg: Config<G>, s: State<G>, o: Observation<G>): State<G>
    requires o.ImuObs?
  {
    var gyro := if UsesGyro(cfg, o) then AddGyroSample(s.gyro, o.stamp, o.sensor, o.sensorPose, o.rates.value)
        else s.gyro;
    var x := ImuPart(s.kfs, s.imu);
    var y := if UsesGravity(cfg, o) then
               AddGravitySample(RuleOf(cfg), x, o.stamp, o.sensor, o.sensorPose, o.acc.value)
             else x;
    s.(kfs := y.kfs, imu := y.imu, gyro := gyro)
  }

  function Observe<G(!new)>(cfg: Config<G>, s: State<G>, o: Observation<G>): State<G> {
    if s.finalized then s
    else if UsesImage(cfg, o) then AddImage(cfg, s, o.picture)
    else if UsesGnss(cfg, o) then AddGnss(cfg, Logged(cfg, s, ObservationEntry(o)), o.reading)
    else if UsesGyro(cfg, o) || UsesGravity(cfg, o) then AddImu(cfg, Logged(cfg, s, ObservationEntry(o)), o)
    else s
  }

  // ----- Loops -----

  function PairOf<G>(e: Edge<G>): (nat, nat) {
    (if e.from <= e.to then e.from else e.to, if e.from <= e.to then e.to else e.from)
  }

  /** All the keyframes of a span come from one front end chain. */
  ghost predicate OneChain<G>(kfs: seq<Keyframe<G>>, first: nat, last: nat)
    requires last < |kfs|
  {
    forall i :: first < i <= last ==> kfs[i].frame == kfs[i - 1].frame
  }

  function Sources<G>(kfs: seq<Keyframe<G>>): (p: seq<G>)
    ensures |p| == |kfs| && forall i :: 0 <= i < |kfs| ==> p[i] == kfs[i].src
  {
    seq(|kfs|, i requires 0 <= i < |kfs| => kfs[i].src)
  }

  predicate InRange<G>(n: nat, e: Edge<G>) {
    e.from != e.to && e.from < n && e.to < n
  }

  /** What the odometry says about a loop: nothing across front end chains. */
  ghost function AgainstOdometry<G(!new)>(cfg: Config<G>, kfs: seq<Keyframe<G>>, e: Edge<G>): Option<Check>
    requires InRange(|kfs|, e)
  {
    if OneChain(kfs, PairOf(e).0, PairOf(e).1) then
      Some(CheckLoop(cfg.m, Sources(kfs), e.from, e.to, e.rel, cfg.limits))
    else None
  }

  ghost predicate RejectedByOdometry<G(!new)>(cfg: Config<G>, kfs: seq<Keyframe<G>>, e: Edge<G>)
    requires InRange(|kfs|, e)
  {
    cfg.odometryCheck && AgainstOdometry(cfg, kfs, e).Some? && !AgainstOdometry(cfg, kfs, e).value.accepted
  }

  ghost function MergeOne<G(!new)>(cfg: Config<G>, kfs: seq<Keyframe<G>>, x: Loops<G>, e: Edge<G>): Loops<G> {
    if !InRange(|kfs|, e) || PairOf(e) in x.pairs then x
    else if RejectedByOdometry(cfg, kfs, e) then x.(rejected := x.rejected + {PairOf(e)})
    else x.(pairs := x.pairs + {PairOf(e)}, edges := x.edges + [e])
  }

  ghost function MergeAll<G(!new)>(cfg: Config<G>, kfs: seq<Keyframe<G>>, x: Loops<G>, edges: seq<Edge<G>>): Loops<G>
    decreases |edges|
  {
    if edges == [] then x
    else MergeOne(cfg, kfs, MergeAll(cfg, kfs, x, edges[..|edges| - 1]), edges[|edges| - 1])
  }

  ghost function Merge<G(!new)>(cfg: Config<G>, s: State<G>, edges: seq<Edge<G>>): State<G> {
    var x := MergeAll(cfg, s.kfs, s.loops, edges);
    s.(loops := x, newData := s.newData || |s.loops.edges| < |x.edges|)
  }

  // ----- Solves -----

  function NotPicture<G>(aux: seq<Aux<G>>): seq<Aux<G>> {
    if aux == [] then []
    else
      var n := |aux| - 1;
      NotPicture(aux[..n]) + if aux[n].PictureAux? || aux[n].FileAux? then [] else [aux[n]]
  }

  function GraphKeyframeOf<G>(kf: Keyframe<G>): GraphKeyframe<G> {
    GraphKeyframe(kf.stamp, kf.frame, kf.src, kf.pose, NotPicture(kf.aux), kf.gyro)
  }

  /** The snapshot a solve works on. */
  function Snapshot<G>(s: State<G>): GraphInput<G> {
    GraphInput(seq(|s.kfs|, i requires 0 <= i < |s.kfs| => GraphKeyframeOf(s.kfs[i])), s.loops.edges, s.geo)
  }

  /** The poses after a commit: the solved ones, then each keyframe chained onto the one before. */
  function CommittedPoses<G(!new)>(m: Motions<G>, kfs: seq<Keyframe<G>>, solved: seq<G>): (ps: seq<G>)
    ensures |ps| == |kfs|
    decreases |kfs|
  {
    if kfs == [] then []
    else
      var n := |kfs| - 1;
      var ps := CommittedPoses(m, kfs[..n], solved);
      ps + [if n < |solved| then solved[n]
            else if n == 0 then kfs[0].pose
            else ChainPose(m, ps[n - 1], kfs[n - 1], kfs[n])]
  }

  function WithPoses<G>(kfs: seq<Keyframe<G>>, ps: seq<G>): (out: seq<Keyframe<G>>)
    requires |ps| == |kfs|
    ensures |out| == |kfs| && forall i :: 0 <= i < |kfs| ==> out[i] == kfs[i].(pose := ps[i])
  {
    seq(|kfs|, i requires 0 <= i < |kfs| => kfs[i].(pose := ps[i]))
  }

  function Commit<G(!new)>(m: Motions<G>, s: State<G>, r: GraphResult<G>): State<G> {
    s.(kfs := WithPoses(s.kfs, CommittedPoses(m, s.kfs, r.poses)),
       geo := Geo(if r.geo.datum.Some? then r.geo.datum else s.geo.datum,
                  if r.geo.georef.Some? then r.geo.georef else s.geo.georef))
  }

  // ----- Input -----

  datatype Event<G> =
    | KeyframeEvent(req: Request<G>, bias: GyroBias)
    | ObservationEvent(o: Observation<G>)
    | LoopsEvent(edges: seq<Edge<G>>)

  ghost function Step<G(!new)>(cfg: Config<G>, s: State<G>, ev: Event<G>): State<G> {
    match ev
    case KeyframeEvent(req, bias) => Insert(cfg, s, req, bias)
    case ObservationEvent(o) => Observe(cfg, s, o)
    case LoopsEvent(edges) => Merge(cfg, s, edges)
  }

  ghost function Run<G(!new)>(cfg: Config<G>, s: State<G>, evs: seq<Event<G>>): State<G>
    decreases |evs|
  {
    if evs == [] then s else Step(cfg, Run(cfg, s, evs[..|evs| - 1]), evs[|evs| - 1])
  }
}
