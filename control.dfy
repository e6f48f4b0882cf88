/**
 * The sensor control layer of control.c as a class: its global tables become the arrays
 * and fields of one object, and each function of the C file becomes a method proved
 * equal to the specification function of the same operation.
 */
module Control {
  import opened Types
  import opened CArith
  import opened Timestamp
  import opened SensorModel
  import opened Layout
  import opened Integration
  import opened Activation
  import opened Scheduling

  class SensorControl {
    /** Sizes of the fixed tables. */
    const lim: Limits
    /** `sensor_info[0 .. sensor_count-1]`. */
    const sensors: array<SensorInfo>
    /** `poll_sensors_per_dev[]`, `trig_sensors_per_dev[]` and `device_fd[]`. */
    const pollPerDev: array<int>
    const trigPerDev: array<int>
    const deviceFd: array<int>
    /** `active_poll_sensors`. */
    var activePoll: int
    /** Devices whose descriptor is in the epoll set. */
    var watched: set<int>
    /** The sysfs configuration writes issued so far. */
    var log: seq<ConfigWrite>

    /** The abstract state the specification functions work on. */
    function State(): ControlState
      reads this, sensors, pollPerDev, trigPerDev, deviceFd
    {
      ControlState(lim, sensors[..], pollPerDev[..], trigPerDev[..], deviceFd[..], activePoll, watched, log)
    }

    ghost predicate Valid()
      reads this, sensors, pollPerDev, trigPerDev, deviceFd
    {
      && pollPerDev != trigPerDev && pollPerDev != deviceFd && trigPerDev != deviceFd
      && WellFormed(State())
    }

    /**
     * The tables as `allocate_control_data` leaves them: no descriptor open, every counter
     * zero, over a freshly enumerated sensor table in which no sensor is enabled yet. The
     * control-layer invariant holds from the start.
     */
    constructor (limits: Limits, table: seq<SensorInfo>)
      requires WellFormed(ControlState(limits, table, Zeros0(limits.maxDevices), Zeros0(limits.maxDevices), Closed(limits.maxDevices), 0, {}, []))
      requires forall i :: 0 <= i < |table| ==> table[i].enableCount == 0
      ensures Valid() && Consistent(State())
      ensures State() == ControlState(limits, table, Zeros0(limits.maxDevices), Zeros0(limits.maxDevices), Closed(limits.maxDevices), 0, {}, [])
    {
      lim := limits;
      sensors := new SensorInfo[|table|](i requires 0 <= i < |table| => table[i]);
      pollPerDev := new int[limits.maxDevices](_ => 0);
      trigPerDev := new int[limits.maxDevices](_ => 0);
      deviceFd := new int[limits.maxDevices];
      activePoll, watched, log := 0, {}, [];
      new;
      assert sensors[..] == table;
      for i := 0 to limits.maxDevices
        invariant deviceFd[..i] == Closed(i)
        invariant sensors[..] == table
        invariant pollPerDev[..] == Zeros0(limits.maxDevices) && trigPerDev[..] == Zeros0(limits.maxDevices)
        invariant activePoll == 0 && watched == {} && log == []
      {
        deviceFd[i] := -1;
        assert deviceFd[..i + 1] == deviceFd[..i] + [-1];
      }
      assert deviceFd[..] == deviceFd[..limits.maxDevices];
      assert deviceFd[..] == Closed(limits.maxDevices);
      forall k: Counter ensures Count(table, k) == 0 {
        CountPositive(table, k);
      }
    }

    /** `adjust_counters(s, enabled)`. */
    method AdjustCounters(s: nat, enabled: int) returns (ret: int)
      requires Valid() && s < sensors.Length
      modifies sensors, pollPerDev, trigPerDev, `activePoll
      ensures Valid()
      ensures (State(), ret) == Adjust(old(State()), s, enabled)
    {
      ghost var st0 := State();
      var d := sensors[s].devNum;
      if enabled != 0 {
        sensors[s] := sensors[s].(enableCount := sensors[s].enableCount + 1);
        if sensors[s].enableCount != 1 {
          return 0;
        }
      } else {
        if sensors[s].enableCount == 0 {
          return -1;
        }
        sensors[s] := sensors[s].(enableCount := sensors[s].enableCount - 1);
        if sensors[s].enableCount > 0 {
          return 0;
        }
        sensors[s] := sensors[s].(reportPending := false, reportBuffer := Zeros(lim.reportSize));
      }
      if sensors[s].numChannels != 0 {
        ghost var ss := sensors[..];
        if enabled != 0 {
          trigPerDev[d] := trigPerDev[d] + 1;
        } else {
          trigPerDev[d] := trigPerDev[d] - 1;
        }
        assert sensors[..] == ss;
        assert ss == st0.sensors[s := sensors[s]];
        assert trigPerDev[..] == st0.trigPerDev[d := trigPerDev[d]];
        return 1;
      }
      ghost var ss := sensors[..];
      assert ss == st0.sensors[s := sensors[s]];
      if enabled != 0 {
        activePoll := activePoll + 1;
        pollPerDev[d] := pollPerDev[d] + 1;
        assert sensors[..] == ss;
        return 1;
      }
      activePoll := activePoll - 1;
      pollPerDev[d] := pollPerDev[d] - 1;
      assert sensors[..] == ss;
      return 1;
    }

    /**
     * `sensor_activate(s, enabled)`, with the channel probes the layout resolver reads,
     * what opening the device node returns, and whether adding it to the epoll set succeeds.
     */
    method SensorActivate(s: nat, enabled: int, probes: seq<seq<Probe>>, openResult: int, addOk: bool) returns (ret: int, wakes: bool)
      requires Valid() && s < sensors.Length && ProbesFit(sensors[..], probes) && openResult >= -1
      modifies this, sensors, pollPerDev, trigPerDev, deviceFd
      ensures Valid()
      ensures Outcome(State(), ret, wakes) == Activate(old(State()), s, enabled, probes, openResult, addOk)
    {
      var isPollSensor := sensors[s].numChannels == 0;
      ret := AdjustCounters(s, enabled);
      if ret <= 0 {
        return ret, false;
      }
      assert ProbesFit(sensors[..], probes) by {
        assert forall i :: 0 <= i < sensors.Length ==> sensors[i].numChannels == old(sensors[i].numChannels);
      }
      if !isPollSensor {
        ConfigureDevice(s, enabled, probes);
      }
      ret, wakes := SetDescriptor(s, enabled, openResult, addOk);
    }

    /** The trigger sensor part of `sensor_activate`: buffer off, trigger, channel enables, new layout, buffer on. */
    method ConfigureDevice(s: nat, enabled: int, probes: seq<seq<Probe>>)
      requires Valid() && s < sensors.Length && ProbesFit(sensors[..], probes)
      modifies this, sensors
      ensures Valid()
      ensures State() == Configure(old(State()), s, enabled, probes)
    {
      ghost var st0 := State();
      var sn := sensors[s];
      var d := sn.devNum;
      log := log + [BufferEnable(d, 0)];
      var trig := trigPerDev[d];
      if trig == 0 {
        log := log + [Trigger(d, "none")];
      } else if trig == 1 {
        log := log + [Trigger(d, sn.internalName + "-dev" + DigitChars(d))];
      }
      assert log == st0.log + [BufferEnable(d, 0)] + TriggerWrites(d, sn.internalName, trig);
      EnableChannels(s, sn.numChannels, enabled);
      assert State() == st0.(log := st0.log + [BufferEnable(d, 0)] + TriggerWrites(d, sn.internalName, trig) + EnableWrites(s, sn.numChannels, enabled));
      if trigPerDev[d] != 0 {
        RefreshSensorReportMaps(d, probes);
        log := log + [BufferEnable(d, 1)];
      }
    }

    /** The `_en` writes of `sensor_activate`, one per channel in use. */
    method EnableChannels(s: nat, n: nat, enabled: int)
      modifies this
      ensures State() == old(State()).(log := old(log) + EnableWrites(s, n, enabled))
    {
      ghost var log0 := log;
      for c := 0 to n
        invariant log == log0 + EnableWrites(s, c, enabled)
        invariant State() == old(State()).(log := log)
      {
        log := log + [ChannelEnable(s, c, enabled)];
      }
    }

    /** The descriptor part of `sensor_activate`: close on the last disable, open on the first enable, register with epoll. */
    method SetDescriptor(s: nat, enabled: int, openResult: int, addOk: bool) returns (ret: int, wakes: bool)
      requires Valid() && s < sensors.Length
      modifies this, sensors, pollPerDev, trigPerDev, deviceFd
      ensures Valid()
      ensures Outcome(State(), ret, wakes) == Descriptor(old(State()), s, enabled, openResult, addOk)
    {
      var d := sensors[s].devNum;
      var isPollSensor := sensors[s].numChannels == 0;
      var fd := deviceFd[d];
      if enabled == 0 {
        if fd != -1 && pollPerDev[d] == 0 && trigPerDev[d] == 0 {
          watched := watched - {d};
          deviceFd[d] := -1;
        }
        return 0, false;
      }
      if fd == -1 {
        deviceFd[d] := openResult;
        if openResult == -1 {
          var undone := AdjustCounters(s, 0);
          return -1, false;
        }
        if !isPollSensor {
          if !addOk {
            return -1, false;
          }
          watched := watched + {d};
        }
      }
      return 0, true;
    }

    /**
     * `refresh_sensor_report_maps(dev)`, given what the sysfs reads of every channel of
     * every sensor yield.
     */
    method RefreshSensorReportMaps(dev: int, probes: seq<seq<Probe>>)
      requires Valid() && ProbesFit(sensors[..], probes)
      modifies sensors
      ensures Valid()
      ensures State() == old(State()).(sensors := Refresh(lim, old(sensors[..]), dev, probes))
    {
      ghost var ss := sensors[..];
      var n := lim.maxSensors * lim.maxChannels;
      var handleFromIndex := new nat[n](_ => 0);
      var channelFromIndex := new nat[n](_ => 0);
      var sizeFromIndex := new nat[n](_ => 0);
      RecordAll(dev, probes, handleFromIndex, channelFromIndex, sizeFromIndex);
      TableInRange(lim, ss, dev, probes);
      PlaceChannels(handleFromIndex, channelFromIndex, sizeFromIndex, Table(lim, ss, dev, probes));
    }

    /** Phase one of the resolver over every sensor of the device. */
    method RecordAll(dev: int, probes: seq<seq<Probe>>, handle: array<nat>, channel: array<nat>, size: array<nat>)
      requires Valid() && ProbesFit(sensors[..], probes)
      requires handle.Length == channel.Length == size.Length == TableSize(lim)
      requires handle != channel && handle != size && channel != size
      requires Holds(handle, channel, size, EmptyTable(TableSize(lim)))
      modifies sensors, handle, channel, size
      ensures Valid()
      ensures sensors[..] == ZeroSensors(old(sensors[..]), dev, probes, sensors.Length)
      ensures Holds(handle, channel, size, Table(lim, old(sensors[..]), dev, probes))
    {
      ghost var ss := sensors[..];
      ghost var n := TableSize(lim);
      SensorsBelowTable(lim);
      assert ResolverInput(lim, ss, probes);
      for s := 0 to sensors.Length
        invariant Valid() && |ss| == sensors.Length
        invariant sensors[..] == ZeroSensors(ss, dev, probes, s)
        invariant Holds(handle, channel, size, ApplyWrites(EmptyTable(n), SensorWrites(ss, dev, probes, lim.maxSensors, s)))
      {
        RecordNext(s, dev, probes, handle, channel, size, ss);
      }
      TableApplies(lim, ss, dev, probes);
    }

    /** One turn of phase one's loop over the sensors: sensor `s` is recorded when it belongs to the device. */
    method RecordNext(s: nat, dev: int, probes: seq<seq<Probe>>, handle: array<nat>, channel: array<nat>, size: array<nat>, ghost ss: seq<SensorInfo>)
      requires Valid() && s < |ss| == sensors.Length && ResolverInput(lim, ss, probes)
      requires handle != channel && handle != size && channel != size && lim.maxSensors <= TableSize(lim)
      requires sensors[..] == ZeroSensors(ss, dev, probes, s)
      requires Holds(handle, channel, size, ApplyWrites(EmptyTable(TableSize(lim)), SensorWrites(ss, dev, probes, lim.maxSensors, s)))
      modifies sensors, handle, channel, size
      ensures Valid()
      ensures sensors[..] == ZeroSensors(ss, dev, probes, s + 1)
      ensures Holds(handle, channel, size, ApplyWrites(EmptyTable(TableSize(lim)), SensorWrites(ss, dev, probes, lim.maxSensors, s + 1)))
    {
      ZeroSensorsStep(ss, dev, probes, s);
      SensorWritesStep(lim, ss, dev, probes, s);
      assert sensors[s] == ss[s];
      if sensors[s].devNum == dev {
        RecordChannels(s, probes[s], handle, channel, size, ApplyWrites(EmptyTable(TableSize(lim)), SensorWrites(ss, dev, probes, lim.maxSensors, s)));
      }
    }

    /** Phase one of the resolver for sensor `s`: the guarded reads and the stores of each of its channels. */
    method RecordChannels(s: nat, ps: seq<Probe>, handle: array<nat>, channel: array<nat>, size: array<nat>, ghost t0: seq<Slot>)
      requires Valid() && s < sensors.Length && |ps| == sensors[s].numChannels
      requires handle != channel && handle != size && channel != size
      requires Holds(handle, channel, size, t0) && |t0| >= lim.maxSensors
      modifies sensors, handle, channel, size
      ensures Valid()
      ensures IndicesBelow(ChannelWrites(s, ps, lim.maxSensors, |ps|), handle.Length)
      ensures sensors[..] == old(sensors[..])[s := ZeroSensor(old(sensors[s]), ps, |ps|)]
      ensures Holds(handle, channel, size, ApplyWrites(t0, ChannelWrites(s, ps, lim.maxSensors, |ps|)))
    {
      ghost var st0 := State();
      ProbeAll(s, ps, handle, channel, size, t0);
      ChannelsOnlyWellFormed(st0, sensors[..]);
      assert State() == st0.(sensors := sensors[..]);
    }

    /** The loop of phase one over the channels of sensor `s`. */
    method ProbeAll(s: nat, ps: seq<Probe>, handle: array<nat>, channel: array<nat>, size: array<nat>, ghost t0: seq<Slot>)
      requires s < sensors.Length && |ps| <= |sensors[s].channels|
      requires handle != channel && handle != size && channel != size
      requires Holds(handle, channel, size, t0) && |t0| >= lim.maxSensors
      modifies sensors, handle, channel, size
      ensures IndicesBelow(ChannelWrites(s, ps, lim.maxSensors, |ps|), handle.Length)
      ensures sensors[..] == old(sensors[..])[s := ZeroSensor(old(sensors[s]), ps, |ps|)]
      ensures Holds(handle, channel, size, ApplyWrites(t0, ChannelWrites(s, ps, lim.maxSensors, |ps|)))
    {
      ghost var sn := sensors[s];
      ghost var ss := sensors[..];
      for c := 0 to |ps|
        invariant sensors[..] == ss[s := ZeroSensor(sn, ps, c)]
        invariant Holds(handle, channel, size, ApplyWrites(t0, ChannelWrites(s, ps, lim.maxSensors, c)))
      {
        ProbeNext(s, c, ps, handle, channel, size, t0, ss, sn);
      }
    }

    /** One turn of the loop of phase one: channel `c` of sensor `s`, stated against the loop's view of the state. */
    method ProbeNext(s: nat, c: nat, ps: seq<Probe>, handle: array<nat>, channel: array<nat>, size: array<nat>,
                     ghost t0: seq<Slot>, ghost ss: seq<SensorInfo>, ghost sn: SensorInfo)
      requires c < |ps| <= |sn.channels| && s < |ss| == sensors.Length
      requires handle != channel && handle != size && channel != size && |t0| >= lim.maxSensors
      requires sensors[..] == ss[s := ZeroSensor(sn, ps, c)]
      requires Holds(handle, channel, size, ApplyWrites(t0, ChannelWrites(s, ps, lim.maxSensors, c)))
      modifies sensors, handle, channel, size
      ensures sensors[..] == ss[s := ZeroSensor(sn, ps, c + 1)]
      ensures Holds(handle, channel, size, ApplyWrites(t0, ChannelWrites(s, ps, lim.maxSensors, c + 1)))
    {
      ChannelWritesStep(t0, s, ps, lim.maxSensors, c);
      ProbeChannel(s, c, ps[c], handle, channel, size, ApplyWrites(t0, ChannelWrites(s, ps, lim.maxSensors, c)));
    }

    /** The body of phase one for channel `c` of sensor `s`, with what its three sysfs reads yield. */
    method ProbeChannel(s: nat, c: nat, p: Probe, handle: array<nat>, channel: array<nat>, size: array<nat>, ghost t: seq<Slot>)
      requires s < sensors.Length && c < |sensors[s].channels|
      requires handle != channel && handle != size && channel != size
      requires Holds(handle, channel, size, t) && |t| >= lim.maxSensors
      modifies sensors, handle, channel, size
      ensures sensors[..] == old(sensors[..])[s := if ZeroesSize(p) then old(sensors[s]).(channels := old(sensors[s]).channels[c := old(sensors[s]).channels[c].(size := 0)]) else old(sensors[s])]
      ensures Holds(handle, channel, size, if Recorded(p, lim.maxSensors) then t[p.index.value := Slot(s, c, p.size.value)] else t)
    {
      if p.en.None? {
        return;
      }
      if (if p.en.value == 0 then 1 else 0) != 1 {
        sensors[s] := sensors[s].(channels := sensors[s].channels[c := sensors[s].channels[c].(size := 0)]);
      }
      if p.size.None? || p.index.None? {
        return;
      }
      var index := p.index.value;
      if index >= lim.maxSensors {
        return;
      }
      // A negative index passes the guard; the store it leads to is outside the tables.
      if index >= 0 {
        StoreRow(handle, channel, size, index, Slot(s, c, p.size.value), t);
      }
    }

    /** The three stores of phase one: one row of the by-index tables. */
    static method StoreRow(handle: array<nat>, channel: array<nat>, size: array<nat>, index: nat, row: Slot, ghost t: seq<Slot>)
      requires Holds(handle, channel, size, t) && index < handle.Length
      requires handle != channel && handle != size && channel != size
      modifies handle, channel, size
      ensures Holds(handle, channel, size, t[index := row])
    {
      handle[index] := row.sensor;
      channel[index] := row.channel;
      size[index] := row.size;
    }

    /** Phase two of the resolver: walk the rows in index order and give each non-empty one the next offset. */
    method PlaceChannels(handle: array<nat>, channel: array<nat>, size: array<nat>, ghost tbl: seq<Slot>)
      requires Valid() && Holds(handle, channel, size, tbl)
      requires SlotsInRange(sensors[..], tbl)
      modifies sensors
      ensures Valid()
      ensures sensors[..] == Place(old(sensors[..]), tbl, |tbl|)
    {
      ghost var zs := sensors[..];
      var offset := 0;
      for i := 0 to handle.Length
        invariant sensors[..] == Place(zs, tbl, i)
        invariant offset == PrefixSlots(tbl, i)
      {
        offset := PlaceNext(i, offset, handle, channel, size, zs, tbl);
      }
      ChannelsOnlyWellFormed(old(State()), sensors[..]);
      assert State() == old(State()).(sensors := sensors[..]);
    }

    /** One turn of phase two: row `i` gets the next offset unless it is empty; returns the offset after it. */
    method PlaceNext(i: nat, offset: nat, handle: array<nat>, channel: array<nat>, size: array<nat>, ghost zs: seq<SensorInfo>, ghost tbl: seq<Slot>)
      returns (next: nat)
      requires Holds(handle, channel, size, tbl) && i < |tbl| && SlotsInRange(zs, tbl) && |zs| == sensors.Length
      requires sensors[..] == Place(zs, tbl, i) && offset == PrefixSlots(tbl, i)
      modifies sensors
      ensures sensors[..] == Place(zs, tbl, i + 1) && next == PrefixSlots(tbl, i + 1)
    {
      PlaceStep(zs, tbl, i);
      var s, c, sz := handle[i], channel[i], size[i];
      if sz == 0 {
        return offset;
      }
      sensors[s] := sensors[s].(channels := sensors[s].channels[c := Channel(offset, sz)]);
      next := offset + sz;
    }

    /** The `expected_size` loop of `integrate_device_report`. */
    method ExpectedReportSize(dev: int) returns (n: nat)
      requires Valid()
      ensures n == ExpectedSize(sensors[..], dev, sensors.Length)
    {
      n := 0;
      for s := 0 to sensors.Length
        invariant n == ExpectedSize(sensors[..], dev, s)
      {
        if sensors[s].devNum == dev {
          var sn := sensors[s];
          var c := 0;
          var part := 0;
          while c < sn.numChannels
            invariant c <= sn.numChannels && part == PrefixSize(sn.channels, c)
          {
            part := part + sn.channels[c].size;
            c := c + 1;
          }
          n := n + part;
        }
      }
    }

    /** `integrate_device_report(dev)`, with what `read` on the device's descriptor delivers. */
    method IntegrateDeviceReport(dev: int, outcome: ReadOutcome) returns (ret: int)
      requires Valid() && IntegrateInput(State(), dev)
      modifies sensors
      ensures Valid()
      ensures (State(), ret) == Integrate(old(State()), dev, outcome)
    {
      if dev < 0 || dev >= lim.maxDevices || trigPerDev[dev] == 0 {
        return -1;
      }
      var expected := ExpectedReportSize(dev);
      if outcome.ReadFailed? {
        return -1;
      }
      var buf := ReadIntoBuffer(outcome.data, expected);
      CopyReports(dev, buf[..]);
      return 0;
    }

    /** The loop of `integrate_device_report` over every sensor of the device. */
    method CopyReports(dev: int, buf: seq<byte>)
      requires Valid() && |buf| == DevBufSize(lim)
      requires forall s :: 0 <= s < sensors.Length && sensors[s].devNum == dev ==> ChannelsFit(lim, sensors[s])
      modifies sensors
      ensures Valid()
      ensures sensors[..] == CopyAll(lim, old(sensors[..]), dev, buf)
    {
      ghost var ss := sensors[..];
      for s := 0 to sensors.Length
        invariant Valid() && sensors.Length == |ss|
        invariant sensors[..] == CopyFirst(lim, ss, dev, buf, s)
      {
        CopyFirstStep(lim, ss, dev, buf, s);
        ghost var before := sensors[..];
        if sensors[s].devNum == dev {
          CopyReport(s, buf);
        } else {
          assert before[s := ss[s]] == before;
        }
      }
    }

    /** The zeroed device buffer and the `read` into it of at most `expected` bytes. */
    method ReadIntoBuffer(data: seq<byte>, expected: nat) returns (buf: array<byte>)
      requires expected <= DevBufSize(lim)
      ensures fresh(buf)
      ensures buf[..] == DeviceBuffer(lim, data, expected)
    {
      buf := new byte[DevBufSize(lim)](_ => 0);
      var len := Min(|data|, expected);
      for i := 0 to len
        invariant forall j :: 0 <= j < i ==> buf[j] == data[j]
        invariant forall j :: i <= j < buf.Length ==> buf[j] == 0
      {
        buf[i] := data[i];
      }
    }

    /** The copy loop of `integrate_device_report` for sensor `s`, then its pending flag. */
    method CopyReport(s: nat, buf: seq<byte>)
      requires Valid() && s < sensors.Length && |buf| == DevBufSize(lim)
      requires ChannelsFit(lim, sensors[s])
      modifies sensors
      ensures Valid()
      ensures sensors[..] == old(sensors[..])[s := CopyIn(lim, old(sensors[s]), buf)]
    {
      var sn := sensors[s];
      var rb := PackChannels(sn, buf);
      sensors[s] := sn.(reportBuffer := rb);
      if sn.enableCount != 0 {
        sensors[s] := sensors[s].(reportPending := true);
      }
    }

    /** The `memcpy` of each channel's bytes from the device buffer to the next free place of the report buffer. */
    static method PackChannels(sn: SensorInfo, buf: seq<byte>) returns (rb: seq<byte>)
      requires sn.numChannels <= |sn.channels| && SensorReportSize(sn) <= |sn.reportBuffer|
      requires forall c :: 0 <= c < sn.numChannels ==> sn.channels[c].offset + sn.channels[c].size <= |buf|
      ensures rb == CopyChannels(sn.reportBuffer, buf, sn.channels, sn.numChannels)
    {
      rb := sn.reportBuffer;
      var srOffset := 0;
      for c := 0 to sn.numChannels
        invariant PrefixSize(sn.channels, c) <= |sn.reportBuffer|
        invariant rb == CopyChannels(sn.reportBuffer, buf, sn.channels, c)
        invariant srOffset == PrefixSize(sn.channels, c)
      {
        PrefixSizeMonotone(sn.channels, c, sn.numChannels);
        var ch := sn.channels[c];
        rb := rb[..srOffset] + buf[ch.offset..ch.offset + ch.size] + rb[srOffset + ch.size..];
        srOffset := srOffset + ch.size;
      }
    }

    /** `propagate_sensor_report(s)` with the clock reading `now`. */
    method PropagateSensorReport(s: nat, now: int) returns (e: Event)
      requires Valid() && s < sensors.Length
      modifies sensors
      ensures Valid()
      ensures (State(), e) == Propagate(old(State()), s, now)
    {
      var sn := sensors[s];
      var numFields := FieldCount(sn.sensorType);
      sensors[s] := sn.(lastIntegrationTs := now);
      var fields: seq<FieldSource> := [];
      if sn.numChannels == 0 {
        for c := 0 to numFields
          invariant |fields| == c && forall j :: 0 <= j < c ==> fields[j] == Immediate(j)
        {
          fields := fields + [Immediate(c)];
        }
      } else {
        var currentSample := 0;
        for c := 0 to numFields
          invariant |fields| == c && forall j :: 0 <= j < c ==> fields[j] == FromReport(j, PrefixSize(sn.channels, j))
          invariant currentSample == PrefixSize(sn.channels, c)
        {
          fields := fields + [FromReport(c, currentSample)];
          currentSample := currentSample + sn.channels[c].size;
        }
      }
      assert fields == seq(numFields, c requires 0 <= c < numFields =>
        if IsPollSensor(sn) then Immediate(c) else FromReport(c, PrefixSize(sn.channels, c)));
      e := Event(s, sn.sensorType, now, fields);
    }

    /** The `return_first_available_sensor_report` step of `sensor_poll`. */
    method TakePendingReport(now: int) returns (r: Option<Event>)
      requires Valid()
      modifies sensors
      ensures Valid()
      ensures Integrable(old(State())) ==> Integrable(State())
      ensures r.None? <==> TakePending(old(State()), now).None?
      ensures r.None? ==> State() == old(State())
      ensures r.Some? ==> (State(), r.value) == TakePending(old(State()), now).value
    {
      var s := FindPending();
      if s == -1 {
        return None;
      }
      var e := PropagateSensorReport(s, now);
      sensors[s] := sensors[s].(reportPending := false);
      if Integrable(old(State())) {
        TakePendingKeeps(old(State()), now);
      }
      return Some(e);
    }

    /** The loop of `sensor_poll` over the entries of one `epoll_wait` result; true when a wake-up entry ended it. */
    method ProcessReadyBatch(es: seq<ReadyEntry>) returns (woke: bool)
      requires Valid() && Integrable(State())
      modifies sensors
      ensures Valid() && Integrable(State())
      ensures (State(), woke) == Drain(old(State()), es)
    {
      for i := 0 to |es|
        invariant Valid() && Integrable(State())
        invariant Drain(old(State()), es) == Drain(State(), es[i..])
      {
        assert es[i..][1..] == es[i + 1..];
        if es[i].inOnly {
          match es[i].source
          case WakeUpSocket =>
            return true;
          case Device(d, rd) =>
            IntegratePreserves(State(), d, rd);
            var integrated := IntegrateDeviceReport(d, rd);
        }
      }
      return false;
    }

    /** The invalidation of poll-mode sensor values at the end of a batch in `sensor_poll`. */
    method MarkPollSensors()
      requires Valid()
      modifies sensors
      ensures Valid()
      ensures State() == MarkPoll(old(State()))
    {
      if activePoll == 0 {
        return;
      }
      ghost var ss := sensors[..];
      for s := 0 to sensors.Length
        invariant forall i :: 0 <= i < s ==>
          sensors[i] == (if ss[i].enableCount != 0 && ss[i].numChannels == 0 then ss[i].(reportPending := true) else ss[i])
        invariant forall i :: s <= i < sensors.Length ==> sensors[i] == ss[i]
      {
        if sensors[s].enableCount != 0 && sensors[s].numChannels == 0 {
          sensors[s] := sensors[s].(reportPending := true);
        }
      }
    }

    /**
     * `sensor_poll`, with the successive results of `epoll_wait` given and the clock
     * reading `now`: the event delivered, or None once the wait results run out.
     */
    method SensorPoll(now: int, waits: seq<WaitResult>) returns (r: Option<Event>)
      requires Valid() && Integrable(State())
      modifies sensors
      ensures Valid()
      ensures (if r.Some? then Delivered(State(), r.value) else Exhausted(State())) == PollFrom(old(State()), now, waits)
    {
      var i := 0;
      var firstAvailable := true;
      var done := false;
      r := None;
      while !done
        invariant Valid() && Integrable(State()) && i <= |waits|
        invariant !done ==> r.None?
        invariant !done && firstAvailable ==> PollFrom(old(State()), now, waits) == PollFrom(State(), now, waits[i..])
        invariant !done && !firstAvailable ==> PollFrom(old(State()), now, waits) == AwaitFrom(State(), now, waits[i..])
        invariant done ==> (if r.Some? then Delivered(State(), r.value) else Exhausted(State())) == PollFrom(old(State()), now, waits)
        decreases if done then 0 else 1, |waits| - i, if firstAvailable then 1 else 0
      {
        if firstAvailable {
          ghost var before := State();
          r := TakePendingReport(now);
          if r.Some? {
            assert PollFrom(before, now, waits[i..]) == Delivered(State(), r.value);
            done := true;
          } else {
            assert PollFrom(before, now, waits[i..]) == AwaitFrom(State(), now, waits[i..]);
            firstAvailable := false;
          }
        } else if i == |waits| {
          assert waits[i..] == [];
          done := true;
        } else {
          assert waits[i..][0] == waits[i] && waits[i..][1..] == waits[i + 1..];
          match waits[i]
          case WaitFailed =>
            i := i + 1;
          case Ready(es) =>
            var woke := ProcessReadyBatch(es);
            i := i + 1;
            if !woke {
              MarkPollKeeps(State());
              MarkPollSensors();
              firstAvailable := true;
            }
        }
      }
    }

    /** `sensor_set_delay(s, ns)`, with what reading the current sampling frequency yields. */
    method SensorSetDelay(s: nat, ns: int, current: Option<int>) returns (ret: int, wakes: bool)
      requires Valid() && s < sensors.Length
      modifies this, sensors
      ensures Valid()
      ensures (State(), ret, wakes) == SetDelay(old(State()), s, ns, current)
    {
      if ns == 0 {
        return -EINVAL, false;
      }
      var newRate := CDiv(NSEC_PER_SEC, ns);
      if newRate == 0 {
        newRate := 1;
      }
      var d := sensors[s].devNum;
      ghost var log0 := log;
      if current.Some? && newRate != current.value {
        if trigPerDev[d] != 0 {
          log := log + [BufferEnable(d, 0)];
        }
        log := log + [SamplingRate(s, newRate)];
        if trigPerDev[d] != 0 {
          log := log + [BufferEnable(d, 1)];
        }
        assert log == log0 + RateWrites(d, s, newRate, trigPerDev[d] != 0);
      }
      sensors[s] := sensors[s].(samplingRate := newRate);
      // the wake-up byte releases the poll loop so that it picks up the new timeout
      return 0, true;
    }

    /** `get_poll_time()` with the clock reading `now`. */
    method GetPollTime(now: int) returns (r: int)
      requires Valid()
      ensures r == PollTimeout(State(), now)
    {
      if activePoll == 0 {
        return -1;
      }
      var lowest := LowestTarget();
      if lowest == INT64_MAX {
        return -1;
      }
      if lowest <= now {
        return 0;
      }
      return CDiv(lowest - now, NSEC_PER_MSEC);
    }

    /** The scan of `get_poll_time` for the earliest due time of an enabled poll-mode sensor. */
    method LowestTarget() returns (lowest: int)
      ensures lowest == LowestDue(sensors[..], sensors.Length)
    {
      lowest := INT64_MAX;
      for s := 0 to sensors.Length
        invariant lowest == LowestDue(sensors[..], s)
      {
        var sn := sensors[s];
        LowestDueStep(sensors[..], s);
        if sn.enableCount != 0 && sn.samplingRate != 0 && sn.numChannels == 0 {
          var target := DueTime(sn);
          if target < lowest {
            lowest := target;
          }
        }
      }
    }

    /** The scan for the first sensor with a report pending in `sensor_poll`. */
    method FindPending() returns (r: int)
      requires Valid()
      ensures r == FirstPendingFrom(sensors[..], 0)
    {
      for s := 0 to sensors.Length
        invariant FirstPendingFrom(sensors[..], 0) == FirstPendingFrom(sensors[..], s)
      {
        if sensors[s].reportPending {
          return s;
        }
      }
      return -1;
    }
  }

  /** A table of `n` zero counters. */
  function Zeros0(n: nat): (z: seq<int>)
    ensures |z| == n && forall i :: 0 <= i < n ==> z[i] == 0
  {
    seq(n, _ => 0)
  }

  /** `n` descriptors, none open. */
  function Closed(n: nat): (z: seq<int>)
    ensures |z| == n && forall i :: 0 <= i < n ==> z[i] == -1
  {
    seq(n, _ => -1)
  }

  /** The three by-index tables hold the rows of `t`. */
  ghost predicate Holds(handle: array<nat>, channel: array<nat>, size: array<nat>, t: seq<Slot>)
    reads handle, channel, size
  {
    && handle.Length == channel.Length == size.Length == |t|
    && forall i :: 0 <= i < |t| ==> t[i] == Slot(handle[i], channel[i], size[i])
  }
}
