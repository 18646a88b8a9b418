/** The data of the mapper: keyframes, what is attached to them, and its state. */
module MapperTypes {
  import opened Basics
  import opened Motion
  import opened GyroIntegration
  import opened LoopOdometryCheck

  // ----- Sensor readings. `id` is the identity of the shared observation object -----

  datatype Reading = Reading(id: nat, stamp: int)

  /** `inMemory`: 8-bit pixels not stored in a file yet. */
  datatype Picture = Picture(id: nat, stamp: int, sensor: string, inMemory: bool)

  datatype Acceleration = Acceleration(stamp: int, acc: Vec)

  datatype Observation<G> =
    | GnssObs(reading: Reading, sensor: string, hasFix: bool)
    | ImuObs(stamp: int, sensor: string, sensorPose: G, rates: Option<Vec>, acc: Option<Vec>)
    | ImageObs(picture: Picture)
    | OtherObs(stamp: int)

  // ----- Keyframes -----

  /** The averaged accelerometer of a keyframe: the sum and number of readings. */
  datatype Tally = Tally(sum: Vec, n: nat)

  datatype Gravity<G> = Gravity(sensor: string, sensorPose: G, stamp: int, tally: Tally)

  /** `FileAux` refers to the file of a picture instead of holding its pixels. */
  datatype Aux<G> =
    | GnssAux(reading: Reading)
    | PictureAux(picture: Picture)
    | FileAux(picture: Picture)
    | GravityAux(gravity: Gravity<G>)

  datatype Nearest<G> = Nearest(obs: Aux<G>, dt: nat)

  datatype GyroRotation<G> = GyroRotation(rotation: G, duration: int, angle: real, biasSigma: real)

  datatype Keyframe<G> = Keyframe(
    stamp: int,
    frame: string,
    src: G,
    scan: nat,
    aux: seq<Aux<G>>,
    nearest: map<string, Nearest<G>>,
    pose: G,
    gyro: Option<GyroRotation<G>>)

  datatype Request<G> = Request(stamp: int, frame: string, src: G, scan: nat)

  datatype GyroBias = GyroBias(bias: Vec, sigma: real, fromSource: bool)

  const GNSS := "gnss"

  function ImageSlot(sensor: string): string {
    "image:" + sensor
  }

  // ----- Loop closures and the graph -----

  datatype Edge<G> = Edge(from: nat, to: nat, rel: G)

  datatype GraphKeyframe<G> = GraphKeyframe(
    stamp: int, frame: string, src: G, guess: G, aux: seq<Aux<G>>, gyro: Option<GyroRotation<G>>)

  datatype GraphInput<G> = GraphInput(
    kfs: seq<GraphKeyframe<G>>, loops: seq<Edge<G>>, geo: Geo)

  datatype GraphResult<G> = GraphResult(poses: seq<G>, geo: Geo)

  // ----- Recorded input -----

  datatype LogEntry<G> =
    | ObservationEntry(o: Observation<G>)
    | KeyframeEntry(req: Request<G>, bias: GyroBias)

  // ----- Parameters and state -----

  datatype Config<!G(!new)> = Config(
    m: Motions<G>,
    useGnss: bool, useImu: bool, useGyro: bool, useImage: bool,
    gnssLabel: string -> bool, imuLabel: string -> bool, gyroLabel: string -> bool, imageLabel: string -> bool,
    gnssMaxOffset: int, imageMaxOffset: int,
    gravityWindow: int, gravityMinSamples: nat,
    gyroMaxGap: int, gyroBiasSigma: real,
    imageDir: bool,
    recording: bool,
    odometryCheck: bool, limits: Limits)

  /** `finished` lists the entries taken out of `unwritten`, and `writes` the pictures
      queued for a file, both in order. */
  datatype Images = Images(
    pending: seq<Picture>,
    unwritten: seq<(nat, string)>,
    finished: seq<(nat, string)>,
    writes: seq<Picture>)

  datatype Imu<G> = Imu(samples: seq<Acceleration>, sensor: string, sensorPose: G, pending: seq<nat>)

  datatype Gyro<G> = Gyro(samples: seq<GyroSample>, sensor: string, sensorPose: G)

  datatype Loops<G> = Loops(edges: seq<Edge<G>>, pairs: set<(nat, nat)>, rejected: set<(nat, nat)>)

  datatype Geo = Geo(datum: Option<nat>, georef: Option<nat>)

  /** Everything under the state lock. `log` is what was handed to the recorder. */
  datatype State<G> = State(
    kfs: seq<Keyframe<G>>,
    pendingGnss: seq<Reading>,
    images: Images,
    imu: Imu<G>,
    gyro: Gyro<G>,
    loops: Loops<G>,
    geo: Geo,
    newData: bool,
    finalized: bool,
    log: seq<LogEntry<G>>)

  function InitialState<G(!new)>(m: Motions<G>): State<G> {
    State([], [], Images([], [], [], []), Imu([], "", m.one, []), Gyro([], "", m.one), Loops([], {}, {}),
          Geo(None, None), false, false, [])
  }
}
