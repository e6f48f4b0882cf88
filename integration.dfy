/**
 * Specification of the report integrator, `integrate_device_report` (control.c): read one
 * combined report from a device, then copy each channel's bytes into its sensor's report
 * buffer, packed in channel order, and flag enabled sensors as having a report pending.
 */
module Integration {
  import opened Types
  import opened SensorModel

  /** What `read` on the device descriptor delivers: failure, or the bytes the device has ready. */
  datatype ReadOutcome = ReadFailed | ReadAvailable(data: seq<byte>)

  /** Total size of channels `0 .. k-1`. */
  function PrefixSize(chans: seq<Channel>, k: nat): nat
    requires k <= |chans|
  {
    if k == 0 then 0 else PrefixSize(chans, k - 1) + chans[k - 1].size
  }

  lemma {:induction false} PrefixSizeMonotone(chans: seq<Channel>, i: nat, j: nat)
    requires i < j <= |chans|
    ensures PrefixSize(chans, i) + chans[i].size <= PrefixSize(chans, j)
  {
    if j > i + 1 {
      PrefixSizeMonotone(chans, i, j - 1);
    }
  }

  /** Bytes a sensor takes in its device's report: the sizes of its channels in use. */
  function SensorReportSize(sn: SensorInfo): nat
    requires sn.numChannels <= |sn.channels|
  {
    PrefixSize(sn.channels, sn.numChannels)
  }

  predicate ChannelCountsFit(ss: seq<SensorInfo>)
  {
    forall s :: 0 <= s < |ss| ==> ss[s].numChannels <= |ss[s].channels|
  }

  /** `expected_size` after visiting sensors `0 .. k-1`. */
  function ExpectedSize(ss: seq<SensorInfo>, dev: int, k: nat): nat
    requires k <= |ss| && ChannelCountsFit(ss)
  {
    if k == 0 then 0
    else ExpectedSize(ss, dev, k - 1) + (if ss[k - 1].devNum == dev then SensorReportSize(ss[k - 1]) else 0)
  }

  /** Size of the local device buffer, MAX_SENSOR_REPORT_SIZE * MAX_SENSORS. */
  function DevBufSize(lim: Limits): nat
  {
    lim.reportSize * lim.maxSensors
  }

  /** The copies of one sensor stay inside the device buffer and its own report buffer. */
  predicate ChannelsFit(lim: Limits, sn: SensorInfo)
    requires sn.numChannels <= |sn.channels|
  {
    && SensorReportSize(sn) <= lim.reportSize
    && forall c :: 0 <= c < sn.numChannels ==> sn.channels[c].offset + sn.channels[c].size <= DevBufSize(lim)
  }

  /** The memory-safety assumptions the integrator makes about a device's layout. */
  predicate ReportFits(st: ControlState, dev: int)
    requires WellFormed(st)
  {
    && ExpectedSize(st.sensors, dev, |st.sensors|) <= DevBufSize(st.lim)
    && forall s :: 0 <= s < |st.sensors| && st.sensors[s].devNum == dev ==> ChannelsFit(st.lim, st.sensors[s])
  }

  /** Every device that can be integrated has a layout that fits. */
  predicate LayoutFits(st: ControlState)
    requires WellFormed(st)
  {
    forall d :: 0 <= d < st.lim.maxDevices && st.trigPerDev[d] != 0 ==> ReportFits(st, d)
  }

  /** Report buffer `rb` after the copies of channels `0 .. k-1` out of device buffer `buf`. */
  function CopyChannels(rb: seq<byte>, buf: seq<byte>, chans: seq<Channel>, k: nat): (r: seq<byte>)
    requires k <= |chans| && PrefixSize(chans, k) <= |rb|
    requires forall j :: 0 <= j < k ==> chans[j].offset + chans[j].size <= |buf|
    ensures |r| == |rb|
  {
    if k == 0 then rb
    else
      var prev := CopyChannels(rb, buf, chans, k - 1);
      var sr, ch := PrefixSize(chans, k - 1), chans[k - 1];
      prev[..sr] + buf[ch.offset..ch.offset + ch.size] + prev[sr + ch.size..]
  }

  /** Channel `j`'s bytes land at the sum of the sizes of the channels before it. */
  lemma {:induction false} CopyChannelsAt(rb: seq<byte>, buf: seq<byte>, chans: seq<Channel>, k: nat, j: nat, t: nat)
    requires k <= |chans| && PrefixSize(chans, k) <= |rb|
    requires forall i :: 0 <= i < k ==> chans[i].offset + chans[i].size <= |buf|
    requires j < k && t < chans[j].size
    ensures PrefixSize(chans, j) + t < |rb|
    ensures CopyChannels(rb, buf, chans, k)[PrefixSize(chans, j) + t] == buf[chans[j].offset + t]
  {
    PrefixSizeMonotone(chans, j, k);
    if j < k - 1 {
      PrefixSizeMonotone(chans, j, k - 1);
      CopyChannelsAt(rb, buf, chans, k - 1, j, t);
    }
  }

  /** Bytes after the packed channels keep their old value. */
  lemma {:induction false} CopyChannelsBeyond(rb: seq<byte>, buf: seq<byte>, chans: seq<Channel>, k: nat, p: nat)
    requires k <= |chans| && PrefixSize(chans, k) <= |rb|
    requires forall i :: 0 <= i < k ==> chans[i].offset + chans[i].size <= |buf|
    requires PrefixSize(chans, k) <= p < |rb|
    ensures CopyChannels(rb, buf, chans, k)[p] == rb[p]
  {
    if k > 0 {
      CopyChannelsBeyond(rb, buf, chans, k - 1, p);
    }
  }

  /** The zero-initialised device buffer after `read` delivered up to `expected` bytes of `data`. */
  function DeviceBuffer(lim: Limits, data: seq<byte>, expected: nat): (buf: seq<byte>)
    requires expected <= DevBufSize(lim)
    ensures |buf| == DevBufSize(lim)
  {
    var len := Min(|data|, expected);
    data[..len] + Zeros(DevBufSize(lim) - len)
  }

  /** A sensor of the device after the copy loop and the pending flag update. */
  function CopyIn(lim: Limits, sn: SensorInfo, buf: seq<byte>): SensorInfo
    requires sn.numChannels <= |sn.channels| && |sn.reportBuffer| == lim.reportSize
    requires |buf| == DevBufSize(lim) && ChannelsFit(lim, sn)
  {
    sn.(reportBuffer := CopyChannels(sn.reportBuffer, buf, sn.channels, sn.numChannels),
        reportPending := if sn.enableCount != 0 then true else sn.reportPending)
  }

  /** Visiting one more sensor replaces that sensor only. */
  lemma CopyFirstStep(lim: Limits, ss: seq<SensorInfo>, dev: int, buf: seq<byte>, k: nat)
    requires |buf| == DevBufSize(lim) && k < |ss|
    requires forall s :: 0 <= s < |ss| ==> SensorShape(lim, ss[s]) && (ss[s].devNum == dev ==> ChannelsFit(lim, ss[s]))
    ensures CopyFirst(lim, ss, dev, buf, k)[k] == ss[k]
    ensures CopyFirst(lim, ss, dev, buf, k + 1) ==
      CopyFirst(lim, ss, dev, buf, k)[k := if ss[k].devNum == dev then CopyIn(lim, ss[k], buf) else ss[k]]
  {
  }

  predicate IntegrateInput(st: ControlState, dev: int)
  {
    WellFormed(st) && (0 <= dev < st.lim.maxDevices && st.trigPerDev[dev] != 0 ==> ReportFits(st, dev))
  }

  predicate Accepted(st: ControlState, dev: int)
    requires WellFormed(st)
  {
    0 <= dev < st.lim.maxDevices && st.trigPerDev[dev] != 0
  }

  /** `integrate_device_report(dev)` with the read's outcome given: the new state and the return code. */
  function Integrate(st: ControlState, dev: int, outcome: ReadOutcome): (ControlState, int)
    requires IntegrateInput(st, dev)
  {
    if !Accepted(st, dev) || outcome.ReadFailed? then (st, -1)
    else
      var buf := DeviceBuffer(st.lim, outcome.data, ExpectedSize(st.sensors, dev, |st.sensors|));
      (st.(sensors := CopyAll(st.lim, st.sensors, dev, buf)), 0)
  }

  /** The copy loop of the integrator over the sensor table: the sensors of `dev` take their bytes from `buf`. */
  function CopyAll(lim: Limits, ss: seq<SensorInfo>, dev: int, buf: seq<byte>): seq<SensorInfo>
    requires |buf| == DevBufSize(lim)
    requires forall s :: 0 <= s < |ss| ==> SensorShape(lim, ss[s]) && (ss[s].devNum == dev ==> ChannelsFit(lim, ss[s]))
  {
    CopyFirst(lim, ss, dev, buf, |ss|)
  }

  /** The sensor table once the copy loop has visited sensors `0 .. k-1`. */
  function CopyFirst(lim: Limits, ss: seq<SensorInfo>, dev: int, buf: seq<byte>, k: nat): (r: seq<SensorInfo>)
    requires |buf| == DevBufSize(lim) && k <= |ss|
    requires forall s :: 0 <= s < |ss| ==> SensorShape(lim, ss[s]) && (ss[s].devNum == dev ==> ChannelsFit(lim, ss[s]))
    ensures |r| == |ss|
  {
    seq(|ss|, s requires 0 <= s < |ss| =>
      if s < k && ss[s].devNum == dev then assert SensorShape(lim, ss[s]); CopyIn(lim, ss[s], buf) else ss[s])
  }

  /** An unknown device, a device without trigger sensors, or a failed read: -1 and nothing changes. */
  lemma IntegrateRejects(st: ControlState, dev: int, outcome: ReadOutcome)
    requires IntegrateInput(st, dev)
    requires !Accepted(st, dev) || outcome.ReadFailed?
    ensures Integrate(st, dev, outcome) == (st, -1)
  {
  }

  /**
   * After a successful read, byte `t` of channel `c` of a sensor on the device sits in that
   * sensor's report buffer at the total size of its earlier channels plus `t`, and holds
   * byte `offset + t` of what was read (zero past the end of a short read). A zero-length or
   * short read still counts as success.
   */
  lemma IntegrateCopiesChannel(st: ControlState, dev: int, data: seq<byte>, s: nat, c: nat, t: nat)
    requires IntegrateInput(st, dev) && Accepted(st, dev)
    requires s < |st.sensors| && st.sensors[s].devNum == dev
    requires c < st.sensors[s].numChannels && t < st.sensors[s].channels[c].size
    ensures var (st', r) := Integrate(st, dev, ReadAvailable(data));
      var ch := st.sensors[s].channels[c];
      var len := Min(|data|, ExpectedSize(st.sensors, dev, |st.sensors|));
      && r == 0
      && PrefixSize(st.sensors[s].channels, c) + t < |st'.sensors[s].reportBuffer|
      && st'.sensors[s].reportBuffer[PrefixSize(st.sensors[s].channels, c) + t]
         == (if ch.offset + t < len then data[ch.offset + t] else 0)
  {
    var sn := st.sensors[s];
    var buf := DeviceBuffer(st.lim, data, ExpectedSize(st.sensors, dev, |st.sensors|));
    CopyChannelsAt(sn.reportBuffer, buf, sn.channels, sn.numChannels, c, t);
  }

  /**
   * After a successful read, a sensor of the device is pending exactly when it was already
   * pending or is enabled; the rest of its buffer is untouched and sensors of other devices
   * are unchanged, as is everything outside the sensor table.
   */
  lemma IntegrateFlagsAndFrame(st: ControlState, dev: int, data: seq<byte>, s: nat)
    requires IntegrateInput(st, dev) && Accepted(st, dev) && s < |st.sensors|
    ensures var (st', r) := Integrate(st, dev, ReadAvailable(data));
      && r == 0
      && st'.(sensors := st.sensors) == st
      && |st'.sensors| == |st.sensors|
      && (st.sensors[s].devNum != dev ==> st'.sensors[s] == st.sensors[s])
      && (st.sensors[s].devNum == dev ==>
            && st'.sensors[s].(reportBuffer := st.sensors[s].reportBuffer, reportPending := st.sensors[s].reportPending) == st.sensors[s]
            && st'.sensors[s].reportPending == (st.sensors[s].reportPending || st.sensors[s].enableCount > 0)
            && forall p :: SensorReportSize(st.sensors[s]) <= p < |st.sensors[s].reportBuffer| ==>
                 st'.sensors[s].reportBuffer[p] == st.sensors[s].reportBuffer[p])
  {
    var sn := st.sensors[s];
    if sn.devNum == dev {
      var buf := DeviceBuffer(st.lim, data, ExpectedSize(st.sensors, dev, |st.sensors|));
      forall p | SensorReportSize(sn) <= p < |sn.reportBuffer|
        ensures CopyChannels(sn.reportBuffer, buf, sn.channels, sn.numChannels)[p] == sn.reportBuffer[p]
      {
        CopyChannelsBeyond(sn.reportBuffer, buf, sn.channels, sn.numChannels, p);
      }
    }
  }

  /** Integration changes only report buffers and pending flags, so the invariant and the layout assumptions survive it. */
  lemma IntegratePreserves(st: ControlState, dev: int, outcome: ReadOutcome)
    requires IntegrateInput(st, dev)
    ensures var st' := Integrate(st, dev, outcome).0;
      && WellFormed(st')
      && (Consistent(st) ==> Consistent(st'))
      && (LayoutFits(st) ==> LayoutFits(st'))
      && (forall s :: 0 <= s < |st.sensors| ==>
            st'.sensors[s].channels == st.sensors[s].channels && st'.sensors[s].devNum == st.sensors[s].devNum &&
            st'.sensors[s].numChannels == st.sensors[s].numChannels && st'.sensors[s].enableCount == st.sensors[s].enableCount)
  {
    var st' := Integrate(st, dev, outcome).0;
    forall k: Counter ensures Count(st'.sensors, k) == Count(st.sensors, k) {
      CountSameKeys(st'.sensors, st.sensors, k);
    }
    forall d | 0 <= d < st.lim.maxDevices
      ensures ExpectedSize(st'.sensors, d, |st'.sensors|) == ExpectedSize(st.sensors, d, |st.sensors|)
    {
      ExpectedSizeSameChannels(st'.sensors, st.sensors, d, |st.sensors|);
    }
  }

  lemma {:induction false} ExpectedSizeSameChannels(ss: seq<SensorInfo>, ts: seq<SensorInfo>, dev: int, k: nat)
    requires |ss| == |ts| && k <= |ss| && ChannelCountsFit(ss) && ChannelCountsFit(ts)
    requires forall s :: 0 <= s < |ss| ==>
      ss[s].channels == ts[s].channels && ss[s].devNum == ts[s].devNum && ss[s].numChannels == ts[s].numChannels
    ensures ExpectedSize(ss, dev, k) == ExpectedSize(ts, dev, k)
  {
    if k > 0 {
      ExpectedSizeSameChannels(ss, ts, dev, k - 1);
    }
  }
}
