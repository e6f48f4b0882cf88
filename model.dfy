/**
 * State of the sensor control layer of control.c: the sensor table, the per-device
 * counters and descriptors, the epoll watch set, and the configuration writes the layer
 * has issued, together with the invariant that ties the counters to the sensors.
 */
module SensorModel {
  import opened Types

  /** Sizes of the HAL's fixed tables (MAX_DEVICES, MAX_SENSORS, MAX_CHANNELS, MAX_SENSOR_REPORT_SIZE). */
  datatype Limits = Limits(maxDevices: nat, maxSensors: nat, maxChannels: nat, reportSize: nat)

  /** Sensor categories the report propagator distinguishes. */
  datatype SensorType =
    | Accelerometer | MagneticField | Orientation | Gyroscope
    | Light | AmbientTemperature | Temperature | Proximity | Pressure | RelativeHumidity
    | RotationVector | DevicePrivateBase | OtherType(code: int)

  /** Placement of one channel inside its device's combined report. */
  datatype Channel = Channel(offset: nat, size: nat)

  /**
   * One entry of `sensor_info[]`. `channels` holds all MAX_CHANNELS slots of the C array;
   * the first `numChannels` are in use, and a sensor without channels is a poll-mode sensor.
   */
  datatype SensorInfo = SensorInfo(
    devNum: int,
    internalName: seq<char>,
    sensorType: SensorType,
    numChannels: nat,
    channels: seq<Channel>,
    enableCount: nat,
    reportPending: bool,
    reportBuffer: seq<byte>,
    samplingRate: int,
    lastIntegrationTs: int)

  /** A configuration write to the sysfs tree of an iio device. */
  datatype ConfigWrite =
    | BufferEnable(dev: int, value: int)
    | Trigger(dev: int, name: seq<char>)
    | ChannelEnable(sensor: int, channel: int, value: int)
    | SamplingRate(sensor: int, rate: int)

  datatype ControlState = ControlState(
    lim: Limits,
    sensors: seq<SensorInfo>,
    pollPerDev: seq<int>,
    trigPerDev: seq<int>,
    deviceFd: seq<int>,
    activePoll: int,
    watched: set<int>,
    log: seq<ConfigWrite>)

  predicate IsPollSensor(sn: SensorInfo) { sn.numChannels == 0 }

  predicate SensorShape(lim: Limits, sn: SensorInfo)
  {
    && 0 <= sn.devNum < lim.maxDevices
    && |sn.channels| == lim.maxChannels
    && sn.numChannels <= lim.maxChannels
    && |sn.reportBuffer| == lim.reportSize
  }

  /**
   * Table shapes. MAX_CHANNELS is at least 4, the largest field count of any sensor
   * category, because the propagator walks that many channel slots.
   */
  predicate WellFormed(st: ControlState)
  {
    && |st.pollPerDev| == st.lim.maxDevices
    && |st.trigPerDev| == st.lim.maxDevices
    && |st.deviceFd| == st.lim.maxDevices
    && |st.sensors| <= st.lim.maxSensors
    && st.lim.maxChannels >= 4
    && forall s :: 0 <= s < |st.sensors| ==> SensorShape(st.lim, st.sensors[s])
  }

  /** Replacing one sensor by one of the same shape keeps the tables well formed. */
  lemma ReplaceKeepsWellFormed(st: ControlState, s: nat, x: SensorInfo)
    requires WellFormed(st) && s < |st.sensors| && SensorShape(st.lim, x)
    ensures WellFormed(st.(sensors := st.sensors[s := x]))
  {
  }

  /** The three counters control.c keeps: trigger sensors of a device, poll sensors of a device, all poll sensors. */
  datatype Counter = TrigOn(dev: int) | PollOn(dev: int) | AllPoll

  /** Whether an enabled sensor contributes to a counter. */
  predicate Contributes(sn: SensorInfo, k: Counter)
  {
    sn.enableCount > 0 &&
    match k
    case TrigOn(d) => sn.devNum == d && sn.numChannels > 0
    case PollOn(d) => sn.devNum == d && sn.numChannels == 0
    case AllPoll => sn.numChannels == 0
  }

  function Count(ss: seq<SensorInfo>, k: Counter): nat
  {
    if ss == [] then 0
    else Count(ss[..|ss| - 1], k) + (if Contributes(ss[|ss| - 1], k) then 1 else 0)
  }

  /** Every counter equals the number of enabled sensors it covers. */
  ghost predicate CountersMatch(st: ControlState)
  {
    && WellFormed(st)
    && (forall d :: 0 <= d < st.lim.maxDevices ==>
          st.trigPerDev[d] == Count(st.sensors, TrigOn(d)) && st.pollPerDev[d] == Count(st.sensors, PollOn(d)))
    && st.activePoll == Count(st.sensors, AllPoll)
  }

  /** A device's descriptor is open exactly while one of its sensors is enabled, and only open descriptors are watched. */
  predicate DescriptorsTrack(st: ControlState)
    requires WellFormed(st)
  {
    && (forall d :: 0 <= d < st.lim.maxDevices ==>
          (st.deviceFd[d] != -1 <==> st.trigPerDev[d] + st.pollPerDev[d] > 0))
    && (forall d :: d in st.watched ==> 0 <= d < st.lim.maxDevices && st.deviceFd[d] != -1)
  }

  /** The invariant of the control layer. */
  ghost predicate Consistent(st: ControlState)
  {
    CountersMatch(st) && DescriptorsTrack(st)
  }

  /** Under the invariant, a device's descriptor is closed exactly when none of its sensors is enabled, and a closed one is not watched. */
  lemma OpenWhileEnabled(st: ControlState, d: int)
    requires Consistent(st) && 0 <= d < st.lim.maxDevices
    ensures st.deviceFd[d] == -1 <==>
      forall i :: 0 <= i < |st.sensors| && st.sensors[i].devNum == d ==> st.sensors[i].enableCount == 0
    ensures st.deviceFd[d] == -1 ==> d !in st.watched
  {
    CountPositive(st.sensors, TrigOn(d));
    CountPositive(st.sensors, PollOn(d));
    if exists i :: 0 <= i < |st.sensors| && st.sensors[i].devNum == d && st.sensors[i].enableCount != 0 {
      var i :| 0 <= i < |st.sensors| && st.sensors[i].devNum == d && st.sensors[i].enableCount != 0;
      assert Contributes(st.sensors[i], TrigOn(d)) || Contributes(st.sensors[i], PollOn(d));
    }
  }

  /** A counter counts some sensor exactly when it is positive. */
  lemma {:induction false} CountPositive(ss: seq<SensorInfo>, k: Counter)
    ensures Count(ss, k) > 0 <==> exists i :: 0 <= i < |ss| && Contributes(ss[i], k)
  {
    if ss != [] {
      var init := ss[..|ss| - 1];
      CountPositive(init, k);
      if exists i :: 0 <= i < |init| && Contributes(init[i], k) {
        var i :| 0 <= i < |init| && Contributes(init[i], k);
        assert ss[i] == init[i];
      }
      if exists i :: 0 <= i < |ss| && Contributes(ss[i], k) {
        var i :| 0 <= i < |ss| && Contributes(ss[i], k);
        if i < |init| { assert init[i] == ss[i]; }
      }
    }
  }

  /** Replacing one sensor moves each counter by the change in that sensor's contribution. */
  lemma {:induction false} CountUpdate(ss: seq<SensorInfo>, i: nat, x: SensorInfo, k: Counter)
    requires i < |ss|
    ensures Count(ss[i := x], k) + (if Contributes(ss[i], k) then 1 else 0)
         == Count(ss, k) + (if Contributes(x, k) then 1 else 0)
  {
    var n := |ss| - 1;
    if i == n {
      assert ss[i := x][..n] == ss[..n];
    } else {
      assert ss[i := x][..n] == ss[..n][i := x];
      CountUpdate(ss[..n], i, x, k);
    }
  }

  /** Two sensors agree on what the counters look at. */
  predicate SameKeys(a: SensorInfo, b: SensorInfo)
  {
    a.devNum == b.devNum && a.numChannels == b.numChannels && a.enableCount == b.enableCount
  }

  /** Sensors that agree on device, channel count and enable count give the same counts. */
  lemma {:induction false} CountSameKeys(ss: seq<SensorInfo>, ts: seq<SensorInfo>, k: Counter)
    requires |ss| == |ts|
    requires forall i :: 0 <= i < |ss| ==> SameKeys(ss[i], ts[i])
    ensures Count(ss, k) == Count(ts, k)
  {
    if ss != [] {
      CountSameKeys(ss[..|ss| - 1], ts[..|ts| - 1], k);
    }
  }

  /** Changing one sensor, and others only in what the counters ignore, moves each counter by that sensor's change. */
  lemma CountToggle(ss: seq<SensorInfo>, ts: seq<SensorInfo>, s: nat, k: Counter)
    requires |ss| == |ts| && s < |ss|
    requires forall i :: 0 <= i < |ss| && i != s ==> SameKeys(ts[i], ss[i])
    ensures Count(ts, k) + (if Contributes(ss[s], k) then 1 else 0) == Count(ss, k) + (if Contributes(ts[s], k) then 1 else 0)
  {
    var u := ss[s := ts[s]];
    CountSameKeys(ts, u, k);
    CountUpdate(ss, s, ts[s], k);
  }
}
