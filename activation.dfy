/**
 * Specification of sensor activation (control.c): `adjust_counters`, which keeps the
 * enable reference count of a sensor and the per-device counters, and `sensor_activate`,
 * which reconfigures the device's trigger, channels and buffer and opens or closes the
 * device descriptor.
 */
module Activation {
  import opened Types
  import opened SensorModel
  import opened Layout

  predicate ValidSensor(st: ControlState, s: int)
  {
    WellFormed(st) && 0 <= s < |st.sensors|
  }

  /** Whether this activation moves the enable count between 0 and 1, the only case with work left. */
  predicate Toggles(st: ControlState, s: int, enabled: int)
    requires ValidSensor(st, s)
  {
    st.sensors[s].enableCount == (if enabled != 0 then 0 else 1)
  }

  /** `adjust_counters(s, enabled)`: the new state and the return code (-1 spurious disable, 0 still in use, 1 toggled). */
  function Adjust(st: ControlState, s: int, enabled: int): (ControlState, int)
    requires ValidSensor(st, s)
  {
    var sn := st.sensors[s];
    var d := sn.devNum;
    if enabled != 0 then
      var st1 := st.(sensors := st.sensors[s := sn.(enableCount := sn.enableCount + 1)]);
      if sn.enableCount + 1 != 1 then (st1, 0)
      else if sn.numChannels != 0 then (st1.(trigPerDev := st.trigPerDev[d := st.trigPerDev[d] + 1]), 1)
      else (st1.(activePoll := st.activePoll + 1, pollPerDev := st.pollPerDev[d := st.pollPerDev[d] + 1]), 1)
    else if sn.enableCount == 0 then (st, -1)
    else if sn.enableCount - 1 > 0 then
      (st.(sensors := st.sensors[s := sn.(enableCount := sn.enableCount - 1)]), 0)
    else
      var cleared := sn.(enableCount := 0, reportPending := false, reportBuffer := Zeros(st.lim.reportSize));
      var st1 := st.(sensors := st.sensors[s := cleared]);
      if sn.numChannels != 0 then (st1.(trigPerDev := st.trigPerDev[d := st.trigPerDev[d] - 1]), 1)
      else (st1.(activePoll := st.activePoll - 1, pollPerDev := st.pollPerDev[d := st.pollPerDev[d] - 1]), 1)
  }

  /** Adjust changes no table size and no sensor's device or channel count. */
  lemma AdjustShape(st: ControlState, s: int, enabled: int)
    requires ValidSensor(st, s)
    ensures var st' := Adjust(st, s, enabled).0;
      && ValidSensor(st', s) && st'.lim == st.lim && |st'.sensors| == |st.sensors|
      && forall i :: 0 <= i < |st.sensors| ==>
           st'.sensors[i].numChannels == st.sensors[i].numChannels && st'.sensors[i].devNum == st.sensors[i].devNum
  {
    var st' := Adjust(st, s, enabled).0;
    if st'.sensors != st.sensors {
      ReplaceKeepsWellFormed(st, s, st'.sensors[s]);
      assert st'.sensors == st.sensors[s := st'.sensors[s]];
    }
  }

  /** What Adjust returns, and that it changes only the sensor's enable count, its pending report and the counters. */
  lemma AdjustFrame(st: ControlState, s: int, enabled: int)
    requires ValidSensor(st, s)
    ensures var (st', r) := Adjust(st, s, enabled);
      var sn := st.sensors[s];
      && (r == 1 <==> Toggles(st, s, enabled))
      && (r == -1 <==> enabled == 0 && sn.enableCount == 0)
      && st'.sensors[s].enableCount == (if enabled != 0 then sn.enableCount + 1 else if sn.enableCount == 0 then 0 else sn.enableCount - 1)
      && st'.(sensors := st.sensors, trigPerDev := st.trigPerDev, pollPerDev := st.pollPerDev, activePoll := st.activePoll) == st
      && |st'.sensors| == |st.sensors|
      && (forall i :: 0 <= i < |st.sensors| && i != s ==> st'.sensors[i] == st.sensors[i])
      && st'.sensors[s].(enableCount := sn.enableCount, reportPending := sn.reportPending, reportBuffer := sn.reportBuffer) == sn
      && (r == 1 && enabled == 0 ==> !st'.sensors[s].reportPending && st'.sensors[s].reportBuffer == Zeros(st.lim.reportSize))
  {
  }

  /** A toggle moves by one the counters its sensor belongs to, and no other state but the sensor itself. */
  lemma AdjustToggle(st: ControlState, s: int, enabled: int)
    requires ValidSensor(st, s) && Toggles(st, s, enabled)
    ensures var st' := Adjust(st, s, enabled).0;
      var sn := st.sensors[s];
      var d := sn.devNum;
      var step := if enabled != 0 then 1 else -1;
      && st'.trigPerDev == (if IsPollSensor(sn) then st.trigPerDev else st.trigPerDev[d := st.trigPerDev[d] + step])
      && st'.pollPerDev == (if IsPollSensor(sn) then st.pollPerDev[d := st.pollPerDev[d] + step] else st.pollPerDev)
      && st'.activePoll == (if IsPollSensor(sn) then st.activePoll + step else st.activePoll)
      && st'.log == st.log && st'.deviceFd == st.deviceFd && st'.watched == st.watched
      && st'.sensors[s].enableCount == (if enabled != 0 then 1 else 0)
  {
  }

  /**
   * Adjust keeps the counters equal to the counts of enabled sensors: each counter moves by
   * exactly the change in the sensor's contribution to it.
   */
  lemma AdjustKeepsCounters(st: ControlState, s: int, enabled: int)
    requires ValidSensor(st, s) && CountersMatch(st)
    ensures CountersMatch(Adjust(st, s, enabled).0)
  {
    var (st', r) := Adjust(st, s, enabled);
    AdjustShape(st, s, enabled);
    forall k: Counter
      ensures Count(st'.sensors, k) + (if Contributes(st.sensors[s], k) then 1 else 0)
           == Count(st.sensors, k) + (if Contributes(st'.sensors[s], k) then 1 else 0)
    {
      if st'.sensors != st.sensors {
        assert st'.sensors == st.sensors[s := st'.sensors[s]];
        CountUpdate(st.sensors, s, st'.sensors[s], k);
      }
    }
  }

  /** Enabling a sensor and then disabling it again restores the counters and its enable count. */
  lemma AdjustRoundTrip(st: ControlState, s: int)
    requires ValidSensor(st, s)
    ensures var (st1, r1) := Adjust(st, s, 1);
      var (st2, r2) := Adjust(st1, s, 0);
      && r1 == r2 && r1 >= 0
      && st2.trigPerDev == st.trigPerDev && st2.pollPerDev == st.pollPerDev && st2.activePoll == st.activePoll
      && st2.sensors[s].enableCount == st.sensors[s].enableCount
      && st2.deviceFd == st.deviceFd && st2.watched == st.watched && st2.log == st.log
  {
    var d := st.sensors[s].devNum;
    var (st1, r1) := Adjust(st, s, 1);
    assert st1.sensors[s].numChannels == st.sensors[s].numChannels;
    assert st.trigPerDev == st.trigPerDev[d := st.trigPerDev[d] + 1][d := st.trigPerDev[d]];
    assert st.pollPerDev == st.pollPerDev[d := st.pollPerDev[d] + 1][d := st.pollPerDev[d]];
  }

  /** The trigger a device gets: "none" once no trigger sensor is left, `<internal name>-dev<N>` for the first one, nothing otherwise. */
  function TriggerWrites(d: nat, name: seq<char>, trigCount: int): seq<ConfigWrite>
  {
    if trigCount == 0 then [Trigger(d, "none")]
    else if trigCount == 1 then [Trigger(d, name + "-dev" + DigitChars(d))]
    else []
  }

  /** One `_en` write per channel in use, in channel order. */
  function EnableWrites(s: int, n: nat, enabled: int): (ws: seq<ConfigWrite>)
    ensures |ws| == n && forall c :: 0 <= c < n ==> ws[c] == ChannelEnable(s, c, enabled)
  {
    if n == 0 then [] else EnableWrites(s, n - 1, enabled) + [ChannelEnable(s, n - 1, enabled)]
  }

  /** The part of `sensor_activate` that reconfigures a trigger sensor's device. */
  function Configure(st: ControlState, s: int, enabled: int, probes: seq<seq<Probe>>): (st': ControlState)
    requires ValidSensor(st, s) && ProbesFit(st.sensors, probes)
    ensures |st'.sensors| == |st.sensors| && forall i :: 0 <= i < |st.sensors| ==> SameButChannels(st'.sensors[i], st.sensors[i])
    ensures WellFormed(st') && st'.lim == st.lim
  {
    var sn := st.sensors[s];
    var d := sn.devNum;
    var log := st.log + [BufferEnable(d, 0)] + TriggerWrites(d, sn.internalName, st.trigPerDev[d]) + EnableWrites(s, sn.numChannels, enabled);
    if st.trigPerDev[d] != 0 then
      ChannelsOnlyWellFormed(st, Refresh(st.lim, st.sensors, d, probes));
      st.(sensors := Refresh(st.lim, st.sensors, d, probes), log := log + [BufferEnable(d, 1)])
    else st.(log := log)
  }

  /** The writes Configure appends, in order, and the counters it leaves alone. */
  lemma ConfigureLog(st: ControlState, s: int, enabled: int, probes: seq<seq<Probe>>)
    requires ValidSensor(st, s) && ProbesFit(st.sensors, probes)
    ensures var st' := Configure(st, s, enabled, probes);
      var sn := st.sensors[s];
      var d := sn.devNum;
      && st'.log == st.log + [BufferEnable(d, 0)] + TriggerWrites(d, sn.internalName, st.trigPerDev[d])
           + EnableWrites(s, sn.numChannels, enabled) + (if st.trigPerDev[d] != 0 then [BufferEnable(d, 1)] else [])
      && st'.(sensors := st.sensors, log := st.log) == st
  {
  }

  /** The result of `sensor_activate`: new state, return code, and whether the poll loop is woken up. */
  datatype Outcome = Outcome(st: ControlState, ret: int, wakesPoller: bool)

  predicate ActivateInput(st: ControlState, s: int, probes: seq<seq<Probe>>, openResult: int)
  {
    ValidSensor(st, s) && ProbesFit(st.sensors, probes) && openResult >= -1
  }

  /**
   * `sensor_activate(s, enabled)`, with the channel probes the layout resolver reads, the
   * result of opening the device node, and whether adding it to the epoll set succeeds.
   */
  function Activate(st: ControlState, s: int, enabled: int, probes: seq<seq<Probe>>, openResult: int, addOk: bool): (o: Outcome)
    requires ActivateInput(st, s, probes, openResult)
  {
    var adj := Adjust(st, s, enabled);
    if adj.1 <= 0 then Outcome(adj.0, adj.1, false)
    else Descriptor(Prepared(st, s, enabled, probes), s, enabled, openResult, addOk)
  }

  /** The state `sensor_activate` hands to its descriptor step: the counters adjusted and, for a trigger sensor, the device reconfigured. */
  function Prepared(st: ControlState, s: int, enabled: int, probes: seq<seq<Probe>>): (st2: ControlState)
    requires ValidSensor(st, s) && ProbesFit(st.sensors, probes)
    ensures ValidSensor(st2, s)
  {
    AdjustShape(st, s, enabled);
    var st1 := Adjust(st, s, enabled).0;
    if IsPollSensor(st.sensors[s]) then st1 else Configure(st1, s, enabled, probes)
  }

  /**
   * What the descriptor step of a toggling activation starts from: the sensor's enable
   * count has moved between 0 and 1, the counters still match, and the descriptors are
   * untouched.
   */
  lemma PreparedFacts(st: ControlState, s: int, enabled: int, probes: seq<seq<Probe>>)
    requires ValidSensor(st, s) && ProbesFit(st.sensors, probes) && CountersMatch(st) && Toggles(st, s, enabled)
    ensures var st2 := Prepared(st, s, enabled, probes);
      var sn := st.sensors[s];
      && CountersMatch(st2) && st2.lim == st.lim
      && st2.deviceFd == st.deviceFd && st2.watched == st.watched
      && |st2.sensors| == |st.sensors|
      && SameKeys(st2.sensors[s], sn.(enableCount := if enabled != 0 then 1 else 0))
      && (forall i :: 0 <= i < |st.sensors| && i != s ==> SameKeys(st2.sensors[i], st.sensors[i]))
      && (enabled == 0 ==> !st2.sensors[s].reportPending && st2.sensors[s].reportBuffer == Zeros(st.lim.reportSize))
  {
    AdjustFrame(st, s, enabled);
    AdjustKeepsCounters(st, s, enabled);
    var st1 := Adjust(st, s, enabled).0;
    if !IsPollSensor(st.sensors[s]) {
      ConfigureKeepsCounters(st1, s, enabled, probes);
      var st2 := Configure(st1, s, enabled, probes);
      assert SameButChannels(st2.sensors[s], st1.sensors[s]);
    }
  }

  /** The counters a toggling activation hands to its descriptor step: its device's moved by one, and the log grew exactly for a trigger sensor. */
  lemma PreparedCounters(st: ControlState, s: int, enabled: int, probes: seq<seq<Probe>>)
    requires ValidSensor(st, s) && ProbesFit(st.sensors, probes) && Toggles(st, s, enabled)
    ensures var st2 := Prepared(st, s, enabled, probes);
      var sn := st.sensors[s];
      var d := sn.devNum;
      var step := if enabled != 0 then 1 else -1;
      && st2.trigPerDev == (if IsPollSensor(sn) then st.trigPerDev else st.trigPerDev[d := st.trigPerDev[d] + step])
      && st2.pollPerDev == (if IsPollSensor(sn) then st.pollPerDev[d := st.pollPerDev[d] + step] else st.pollPerDev)
      && st2.activePoll == (if IsPollSensor(sn) then st.activePoll + step else st.activePoll)
      && (IsPollSensor(sn) ==> st2.log == st.log)
      && (!IsPollSensor(sn) ==> |st2.log| > |st.log|)
      && st2.deviceFd == st.deviceFd && st2.watched == st.watched
      && st2.sensors[s].enableCount == (if enabled != 0 then 1 else 0)
  {
    AdjustToggle(st, s, enabled);
    var st1 := Adjust(st, s, enabled).0;
    if !IsPollSensor(st.sensors[s]) {
      ConfigureLog(st1, s, enabled, probes);
      assert SameButChannels(Configure(st1, s, enabled, probes).sensors[s], st1.sensors[s]);
    }
  }

  /** Once the sensor toggles, activation is the descriptor step applied to the prepared state. */
  lemma ActivateToggled(st: ControlState, s: int, enabled: int, probes: seq<seq<Probe>>, openResult: int, addOk: bool)
    requires ActivateInput(st, s, probes, openResult) && Toggles(st, s, enabled)
    ensures Activate(st, s, enabled, probes, openResult, addOk) == Descriptor(Prepared(st, s, enabled, probes), s, enabled, openResult, addOk)
  {
  }

  /**
   * The descriptor part of `sensor_activate`, once the sensor has toggled: close the
   * device when its last sensor goes, open it for its first one (undoing the toggle when
   * that fails) and register a trigger sensor's device with epoll.
   */
  function Descriptor(st: ControlState, s: int, enabled: int, openResult: int, addOk: bool): (o: Outcome)
    requires ValidSensor(st, s)
    ensures o.st.log == st.log && o.st.lim == st.lim && |o.st.sensors| == |st.sensors|
  {
    var sn := st.sensors[s];
    var d := sn.devNum;
    var fd := st.deviceFd[d];
    if enabled == 0 then
      if fd != -1 && st.pollPerDev[d] == 0 && st.trigPerDev[d] == 0 then
        Outcome(st.(watched := st.watched - {d}, deviceFd := st.deviceFd[d := -1]), 0, false)
      else Outcome(st, 0, false)
    else if fd == -1 then
      var st3 := st.(deviceFd := st.deviceFd[d := openResult]);
      if openResult == -1 then Outcome(Adjust(st3, s, 0).0, -1, false)
      else if !IsPollSensor(sn) && !addOk then Outcome(st3, -1, false)
      else if IsPollSensor(sn) then Outcome(st3, 0, true)
      else Outcome(st3.(watched := st3.watched + {d}), 0, true)
    else Outcome(st, 0, true)
  }

  /** Reconfiguring a device changes only channel layouts and the write log, so the counters still match. */
  lemma ConfigureKeepsCounters(st: ControlState, s: int, enabled: int, probes: seq<seq<Probe>>)
    requires ValidSensor(st, s) && ProbesFit(st.sensors, probes) && CountersMatch(st)
    ensures var st' := Configure(st, s, enabled, probes);
      CountersMatch(st') && st'.(sensors := st.sensors, log := st.log) == st
  {
    var st' := Configure(st, s, enabled, probes);
    forall k: Counter ensures Count(st'.sensors, k) == Count(st.sensors, k) {
      CountSameKeys(st'.sensors, st.sensors, k);
    }
  }

  /** A sensor that is enabled keeps its device's descriptor open. */
  lemma EnabledSensorKeepsOpen(st: ControlState, s: int)
    requires ValidSensor(st, s) && Consistent(st) && st.sensors[s].enableCount > 0
    ensures st.deviceFd[st.sensors[s].devNum] != -1
  {
    var d := st.sensors[s].devNum;
    CountPositive(st.sensors, TrigOn(d));
    CountPositive(st.sensors, PollOn(d));
  }

  /** Descriptor bookkeeping for one device whose counters or descriptor changed; the other devices keep theirs. */
  lemma TrackOneDevice(a: ControlState, b: ControlState, d: int)
    requires WellFormed(a) && WellFormed(b) && DescriptorsTrack(a) && b.lim == a.lim
    requires 0 <= d < a.lim.maxDevices
    requires forall e :: 0 <= e < a.lim.maxDevices && e != d ==>
      b.deviceFd[e] == a.deviceFd[e] && b.trigPerDev[e] == a.trigPerDev[e] && b.pollPerDev[e] == a.pollPerDev[e]
    requires b.deviceFd[d] != -1 <==> b.trigPerDev[d] + b.pollPerDev[d] > 0
    requires b.watched <= a.watched + {d}
    requires d in b.watched ==> b.deviceFd[d] != -1
    ensures DescriptorsTrack(b)
  {
  }

  /** `st2` is `st` with sensor `s` toggled by `enabled`, the counters matched again and the descriptors not yet touched. */
  ghost predicate ToggledFrom(st: ControlState, st2: ControlState, s: int, enabled: int)
  {
    && ValidSensor(st, s) && Consistent(st) && Toggles(st, s, enabled)
    && ValidSensor(st2, s) && CountersMatch(st2) && st2.lim == st.lim
    && st2.deviceFd == st.deviceFd && st2.watched == st.watched
    && SameKeys(st2.sensors[s], st.sensors[s].(enableCount := if enabled != 0 then 1 else 0))
    && |st2.sensors| == |st.sensors|
    && forall i :: 0 <= i < |st.sensors| && i != s ==> SameKeys(st2.sensors[i], st.sensors[i])
  }

  /** Toggling one sensor moves its device's counters by one between them and leaves every other device's alone. */
  lemma ToggleCounts(st: ControlState, st2: ControlState, s: int, enabled: int)
    requires ToggledFrom(st, st2, s, enabled)
    ensures var d := st.sensors[s].devNum;
      && (forall e :: 0 <= e < st.lim.maxDevices && e != d ==>
            st2.trigPerDev[e] == st.trigPerDev[e] && st2.pollPerDev[e] == st.pollPerDev[e])
      && st2.trigPerDev[d] + st2.pollPerDev[d] == st.trigPerDev[d] + st.pollPerDev[d] + (if enabled != 0 then 1 else -1)
  {
    var d := st.sensors[s].devNum;
    forall e | 0 <= e < st.lim.maxDevices && e != d
      ensures st2.trigPerDev[e] == st.trigPerDev[e] && st2.pollPerDev[e] == st.pollPerDev[e]
    {
      CountToggle(st.sensors, st2.sensors, s, TrigOn(e));
      CountToggle(st.sensors, st2.sensors, s, PollOn(e));
    }
    CountToggle(st.sensors, st2.sensors, s, TrigOn(d));
    CountToggle(st.sensors, st2.sensors, s, PollOn(d));
  }

  /** The descriptor step keeps the invariant relative to the state before the sensor toggled. */
  lemma DescriptorPreserves(st: ControlState, st2: ControlState, s: int, enabled: int, openResult: int, addOk: bool)
    requires ToggledFrom(st, st2, s, enabled) && openResult >= -1
    ensures Consistent(Descriptor(st2, s, enabled, openResult, addOk).st)
  {
    var d := st.sensors[s].devNum;
    if enabled == 0 {
      DisablePreserves(st, st2, s, openResult, addOk);
    } else if st2.deviceFd[d] != -1 || openResult != -1 {
      EnablePreserves(st, st2, s, enabled, openResult, addOk);
    } else {
      OpenFailurePreserves(st, st2, s, enabled, addOk);
    }
  }

  /** Disabling: the descriptor is closed exactly when the device's counters reach zero. */
  lemma DisablePreserves(st: ControlState, st2: ControlState, s: int, openResult: int, addOk: bool)
    requires ToggledFrom(st, st2, s, 0)
    ensures Consistent(Descriptor(st2, s, 0, openResult, addOk).st)
  {
    ToggleCounts(st, st2, s, 0);
    EnabledSensorKeepsOpen(st, s);
    TrackOneDevice(st, Descriptor(st2, s, 0, openResult, addOk).st, st.sensors[s].devNum);
  }

  /** Enabling with a descriptor open or opened: the device has an enabled sensor and an open descriptor. */
  lemma EnablePreserves(st: ControlState, st2: ControlState, s: int, enabled: int, openResult: int, addOk: bool)
    requires ToggledFrom(st, st2, s, enabled) && enabled != 0 && openResult >= -1
    requires st2.deviceFd[st.sensors[s].devNum] != -1 || openResult != -1
    ensures Consistent(Descriptor(st2, s, enabled, openResult, addOk).st)
  {
    ToggleCounts(st, st2, s, enabled);
    TrackOneDevice(st, Descriptor(st2, s, enabled, openResult, addOk).st, st.sensors[s].devNum);
  }

  /** Enabling when the open fails: the toggle is undone, so the device's counters are back at zero with no descriptor. */
  lemma OpenFailurePreserves(st: ControlState, st2: ControlState, s: int, enabled: int, addOk: bool)
    requires ToggledFrom(st, st2, s, enabled) && enabled != 0
    requires st2.deviceFd[st.sensors[s].devNum] == -1
    ensures Consistent(Descriptor(st2, s, enabled, -1, addOk).st)
  {
    var d := st.sensors[s].devNum;
    ToggleCounts(st, st2, s, enabled);
    var st3 := st2.(deviceFd := st2.deviceFd[d := -1]);
    AdjustKeepsCounters(st3, s, 0);
    AdjustToggle(st3, s, 0);
    TrackOneDevice(st, Descriptor(st2, s, enabled, -1, addOk).st, d);
  }

  /** `sensor_activate` keeps the control layer's invariant, whatever the open and the epoll registration return. */
  lemma ActivatePreserves(st: ControlState, s: int, enabled: int, probes: seq<seq<Probe>>, openResult: int, addOk: bool)
    requires ActivateInput(st, s, probes, openResult) && Consistent(st)
    ensures Consistent(Activate(st, s, enabled, probes, openResult, addOk).st)
  {
    if Toggles(st, s, enabled) {
      ActivateToggled(st, s, enabled, probes, openResult, addOk);
      PreparedFacts(st, s, enabled, probes);
      DescriptorPreserves(st, Prepared(st, s, enabled, probes), s, enabled, openResult, addOk);
    } else {
      AdjustFrame(st, s, enabled);
      AdjustKeepsCounters(st, s, enabled);
      assert Adjust(st, s, enabled).0.(sensors := st.sensors) == st;
    }
  }

  /**
   * The configuration writes of a trigger sensor that toggles: the buffer is turned off;
   * the trigger is named after this sensor when it is the first trigger sensor of the
   * device being enabled, and set to "none" when the last one is disabled; its channels'
   * `_en` flags are written; then, unless no trigger sensor is left, the report layout is
   * resolved again and the buffer turned back on. Disabling a sensor that leaves exactly
   * one other trigger sensor enabled names the trigger after the sensor being disabled.
   */
  lemma ActivateConfigures(st: ControlState, s: int, enabled: int, probes: seq<seq<Probe>>, openResult: int, addOk: bool)
    requires ActivateInput(st, s, probes, openResult) && CountersMatch(st)
    requires Toggles(st, s, enabled) && !IsPollSensor(st.sensors[s])
    ensures var sn := st.sensors[s];
      var d := sn.devNum;
      var others := Count(st.sensors, TrigOn(d)) - (if enabled != 0 then 0 else 1);
      var named := [Trigger(d, sn.internalName + "-dev" + DigitChars(d))];
      var o := Activate(st, s, enabled, probes, openResult, addOk);
      && others >= 0
      && o.st.log == st.log + [BufferEnable(d, 0)]
           + (if enabled != 0 then (if others == 0 then named else [])
              else if others == 0 then [Trigger(d, "none")] else if others == 1 then named else [])
           + EnableWrites(s, sn.numChannels, enabled)
           + (if enabled != 0 || others > 0 then [BufferEnable(d, 1)] else [])
      && (enabled != 0 || others > 0 ==> o.st.log[|o.st.log| - 1] == BufferEnable(d, 1))
  {
    var d := st.sensors[s].devNum;
    PreparedConfigures(st, s, enabled, probes);
    ActivateToggled(st, s, enabled, probes, openResult, addOk);
    var log := Prepared(st, s, enabled, probes).log;
    assert Activate(st, s, enabled, probes, openResult, addOk).st.log == log;
    var others := Count(st.sensors, TrigOn(d)) - (if enabled != 0 then 0 else 1);
    if enabled != 0 || others > 0 {
      assert log[|log| - 1] == BufferEnable(d, 1);
    }
  }

  /** The writes of a toggling trigger sensor, before its descriptor step, stated by the number of other enabled trigger sensors. */
  lemma PreparedConfigures(st: ControlState, s: int, enabled: int, probes: seq<seq<Probe>>)
    requires ValidSensor(st, s) && ProbesFit(st.sensors, probes) && CountersMatch(st)
    requires Toggles(st, s, enabled) && !IsPollSensor(st.sensors[s])
    ensures var sn := st.sensors[s];
      var d := sn.devNum;
      var others := Count(st.sensors, TrigOn(d)) - (if enabled != 0 then 0 else 1);
      var named := [Trigger(d, sn.internalName + "-dev" + DigitChars(d))];
      && others >= 0
      && Prepared(st, s, enabled, probes).log == st.log + [BufferEnable(d, 0)]
           + (if enabled != 0 then (if others == 0 then named else [])
              else if others == 0 then [Trigger(d, "none")] else if others == 1 then named else [])
           + EnableWrites(s, sn.numChannels, enabled)
           + (if enabled != 0 || others > 0 then [BufferEnable(d, 1)] else [])
  {
    var sn := st.sensors[s];
    var d := sn.devNum;
    var others := Count(st.sensors, TrigOn(d)) - (if enabled != 0 then 0 else 1);
    var t := st.trigPerDev[d] + (if enabled != 0 then 1 else -1);
    PreparedLog(st, s, enabled, probes);
    if enabled == 0 {
      assert Contributes(st.sensors[s], TrigOn(d));
      CountPositive(st.sensors, TrigOn(d));
    }
    TriggerChoice(d, sn.internalName, t, others, enabled);
  }

  /** The trigger write for a trigger count `t` read after the toggle, stated by the number of other enabled trigger sensors. */
  lemma TriggerChoice(d: nat, name: seq<char>, t: int, others: int, enabled: int)
    requires others >= 0 && t == others + (if enabled != 0 then 1 else 0)
    ensures TriggerWrites(d, name, t) ==
      (if enabled != 0 then (if others == 0 then [Trigger(d, name + "-dev" + DigitChars(d))] else [])
       else if others == 0 then [Trigger(d, "none")] else if others == 1 then [Trigger(d, name + "-dev" + DigitChars(d))] else [])
    ensures (t != 0) == (enabled != 0 || others > 0)
  {
  }

  /** The writes a toggling trigger sensor appends before its descriptor step, against the trigger counter before the toggle. */
  lemma PreparedLog(st: ControlState, s: int, enabled: int, probes: seq<seq<Probe>>)
    requires ValidSensor(st, s) && ProbesFit(st.sensors, probes) && Toggles(st, s, enabled) && !IsPollSensor(st.sensors[s])
    ensures var sn := st.sensors[s];
      var d := sn.devNum;
      var t := st.trigPerDev[d] + (if enabled != 0 then 1 else -1);
      var head := st.log + [BufferEnable(d, 0)] + TriggerWrites(d, sn.internalName, t) + EnableWrites(s, sn.numChannels, enabled);
      Prepared(st, s, enabled, probes).log == (if t != 0 then head + [BufferEnable(d, 1)] else head)
  {
    AdjustToggle(st, s, enabled);
    var st1 := Adjust(st, s, enabled).0;
    assert Prepared(st, s, enabled, probes) == Configure(st1, s, enabled, probes);
    ConfigureLog(st1, s, enabled, probes);
  }

  /**
   * Enabling the first sensor of a device whose node cannot be opened: -1, and the counters,
   * the sensor's enable count and the descriptors are rolled back. The configuration
   * writes already issued for a trigger sensor are not undone.
   */
  lemma ActivateOpenFailure(st: ControlState, s: int, enabled: int, probes: seq<seq<Probe>>, addOk: bool)
    requires ActivateInput(st, s, probes, -1)
    requires enabled != 0 && Toggles(st, s, enabled) && st.deviceFd[st.sensors[s].devNum] == -1
    ensures var o := Activate(st, s, enabled, probes, -1, addOk);
      && o.ret == -1 && !o.wakesPoller
      && o.st.trigPerDev == st.trigPerDev && o.st.pollPerDev == st.pollPerDev && o.st.activePoll == st.activePoll
      && o.st.deviceFd == st.deviceFd && o.st.watched == st.watched
      && o.st.sensors[s].enableCount == 0
      && (IsPollSensor(st.sensors[s]) <==> o.st.log == st.log)
  {
    var d := st.sensors[s].devNum;
    ActivateToggled(st, s, enabled, probes, -1, addOk);
    PreparedCounters(st, s, enabled, probes);
    var st2 := Prepared(st, s, enabled, probes);
    assert st2.deviceFd[d := -1] == st2.deviceFd;
    assert Descriptor(st2, s, enabled, -1, addOk) == Outcome(Adjust(st2, s, 0).0, -1, false);
    AdjustToggle(st2, s, 0);
    assert st.trigPerDev == st.trigPerDev[d := st.trigPerDev[d] + 1][d := st.trigPerDev[d]];
    assert st.pollPerDev == st.pollPerDev[d := st.pollPerDev[d] + 1][d := st.pollPerDev[d]];
  }

  /**
   * Enabling a sensor whose device can be opened: a device that had no open descriptor
   * gets the new one, and a trigger sensor's device joins the watched set when the epoll
   * registration succeeds; when it fails the call returns -1 but the sensor stays enabled.
   * A device already opened by a poll-mode sensor is not added to the watched set.
   */
  lemma ActivateOpens(st: ControlState, s: int, enabled: int, probes: seq<seq<Probe>>, openResult: int, addOk: bool)
    requires ActivateInput(st, s, probes, openResult) && Consistent(st)
    requires enabled != 0 && Toggles(st, s, enabled)
    requires openResult != -1 || st.deviceFd[st.sensors[s].devNum] != -1
    ensures var o := Activate(st, s, enabled, probes, openResult, addOk);
      var sn := st.sensors[s];
      var d := sn.devNum;
      var firstOpen := st.deviceFd[d] == -1;
      && o.ret == (if firstOpen && !IsPollSensor(sn) && !addOk then -1 else 0)
      && o.wakesPoller == (o.ret == 0)
      && o.st.sensors[s].enableCount == 1
      && o.st.deviceFd[d] == (if firstOpen then openResult else st.deviceFd[d])
      && (d in o.st.watched <==> d in st.watched || (firstOpen && !IsPollSensor(sn) && addOk))
  {
  }

  /**
   * Disabling the last reference of a sensor: 0, its pending report is dropped and its
   * buffer zeroed, and the device's descriptor is closed and unwatched exactly when no
   * sensor of the device remains enabled.
   */
  lemma ActivateCloses(st: ControlState, s: int, probes: seq<seq<Probe>>, openResult: int, addOk: bool)
    requires ActivateInput(st, s, probes, openResult) && Consistent(st) && Toggles(st, s, 0)
    ensures var o := Activate(st, s, 0, probes, openResult, addOk);
      var d := st.sensors[s].devNum;
      && o.ret == 0 && !o.wakesPoller
      && o.st.sensors[s].enableCount == 0 && !o.st.sensors[s].reportPending
      && o.st.sensors[s].reportBuffer == Zeros(st.lim.reportSize)
      && (o.st.deviceFd[d] == -1 <==>
            forall i :: 0 <= i < |o.st.sensors| && o.st.sensors[i].devNum == d ==> o.st.sensors[i].enableCount == 0)
      && (o.st.deviceFd[d] == -1 ==> d !in o.st.watched)
  {
    var d := st.sensors[s].devNum;
    ActivateToggled(st, s, 0, probes, openResult, addOk);
    PreparedFacts(st, s, 0, probes);
    var st2 := Prepared(st, s, 0, probes);
    DescriptorPreserves(st, st2, s, 0, openResult, addOk);
    OpenWhileEnabled(Descriptor(st2, s, 0, openResult, addOk).st, d);
  }

  /** An activation that does not toggle the sensor only moves its enable count; a spurious disable changes nothing and returns -1. */
  lemma ActivateNeutral(st: ControlState, s: int, enabled: int, probes: seq<seq<Probe>>, openResult: int, addOk: bool)
    requires ActivateInput(st, s, probes, openResult) && !Toggles(st, s, enabled)
    ensures var o := Activate(st, s, enabled, probes, openResult, addOk);
      var n := st.sensors[s].enableCount;
      && !o.wakesPoller
      && o.ret == (if enabled == 0 && n == 0 then -1 else 0)
      && o.st == st.(sensors := st.sensors[s := st.sensors[s].(enableCount := if enabled != 0 then n + 1 else if n == 0 then 0 else n - 1)])
  {
    if enabled == 0 && st.sensors[s].enableCount == 0 {
      assert st.sensors[s := st.sensors[s].(enableCount := 0)] == st.sensors;
    }
  }
}
