/**
 * Specification of the delivery side of control.c: when poll-mode sensors are due
 * (`get_poll_time`), which pending report `sensor_poll` hands out and what it does with a
 * batch of ready descriptors, the field count of a report (`propagate_sensor_report`), and
 * the rate set by `sensor_set_delay`.
 */
module Scheduling {
  import opened Types
  import opened CArith
  import opened Timestamp
  import opened SensorModel
  import opened Integration

  const NSEC_PER_MSEC: int := 1000000
  const EINVAL: int := 22

  /** A sensor `get_poll_time` schedules: enabled, with a non-zero rate, and without channels. */
  predicate Scheduled(sn: SensorInfo)
  {
    sn.enableCount != 0 && sn.samplingRate != 0 && sn.numChannels == 0
  }

  /** `last_integration_ts + 1000000000LL / sampling_rate`, with C's truncating division. */
  function DueTime(sn: SensorInfo): int
    requires sn.samplingRate != 0
  {
    sn.lastIntegrationTs + CDiv(NSEC_PER_SEC, sn.samplingRate)
  }

  /**
   * `lowest_target_ts` after visiting sensors `0 .. k-1`: INT64_MAX lowered by every
   * strictly smaller due time, so it is the least due time below INT64_MAX, if any.
   */
  function LowestDue(ss: seq<SensorInfo>, k: nat): (m: int)
    requires k <= |ss|
    ensures m <= INT64_MAX
    ensures forall i :: 0 <= i < k && Scheduled(ss[i]) ==> m <= DueTime(ss[i])
    ensures m == INT64_MAX || exists i :: 0 <= i < k && Scheduled(ss[i]) && DueTime(ss[i]) == m
    ensures m == INT64_MAX <==> forall i :: 0 <= i < k && Scheduled(ss[i]) ==> DueTime(ss[i]) >= INT64_MAX
  {
    if k == 0 then INT64_MAX
    else
      var prev := LowestDue(ss, k - 1);
      if Scheduled(ss[k - 1]) && DueTime(ss[k - 1]) < prev then DueTime(ss[k - 1]) else prev
  }

  /** One more sensor visited: its due time replaces the minimum when it is scheduled and strictly earlier. */
  lemma LowestDueStep(ss: seq<SensorInfo>, k: nat)
    requires k < |ss|
    ensures LowestDue(ss, k + 1) ==
      (if Scheduled(ss[k]) && DueTime(ss[k]) < LowestDue(ss, k) then DueTime(ss[k]) else LowestDue(ss, k))
  {
  }

  /** `get_poll_time()` at time `now`: -1 waits forever, otherwise a timeout in milliseconds. */
  function PollTimeout(st: ControlState, now: int): int
  {
    if st.activePoll == 0 then -1
    else
      var m := LowestDue(st.sensors, |st.sensors|);
      if m == INT64_MAX then -1
      else if m <= now then 0
      else CDiv(m - now, NSEC_PER_MSEC)
  }

  /**
   * The timeout waits forever exactly when no poll-mode sensor is active or none is due
   * before INT64_MAX; otherwise it is not negative, it never sleeps past a due time, and
   * some sensor falls due before it expires or within the following millisecond.
   */
  lemma PollTimeoutMeaning(st: ControlState, now: int)
    ensures var r := PollTimeout(st, now);
      var ss := st.sensors;
      && r >= -1
      && (r == -1 <==> st.activePoll == 0 || forall i :: 0 <= i < |ss| && Scheduled(ss[i]) ==> DueTime(ss[i]) >= INT64_MAX)
      && (r >= 0 ==> exists i :: 0 <= i < |ss| && Scheduled(ss[i]) && DueTime(ss[i]) < INT64_MAX
                                && DueTime(ss[i]) < now + (r + 1) * NSEC_PER_MSEC)
      && (r > 0 ==> forall i :: 0 <= i < |ss| && Scheduled(ss[i]) ==> now + r * NSEC_PER_MSEC <= DueTime(ss[i]))
  {
    var ss := st.sensors;
    var m := LowestDue(ss, |ss|);
    if st.activePoll != 0 && m != INT64_MAX {
      var i :| 0 <= i < |ss| && Scheduled(ss[i]) && DueTime(ss[i]) == m;
      if m > now {
        var r := CDiv(m - now, NSEC_PER_MSEC);
        assert r * NSEC_PER_MSEC <= m - now < r * NSEC_PER_MSEC + NSEC_PER_MSEC;
      }
    }
  }

  /** The lowest-index sensor with a report pending at or after `k`, or -1. */
  function FirstPendingFrom(ss: seq<SensorInfo>, k: nat): (r: int)
    requires k <= |ss|
    ensures r == -1 || k <= r < |ss|
    ensures r >= 0 ==> ss[r].reportPending
    ensures forall j :: k <= j < |ss| && (r == -1 || j < r) ==> !ss[j].reportPending
    decreases |ss| - k
  {
    if k == |ss| then -1
    else if ss[k].reportPending then k
    else FirstPendingFrom(ss, k + 1)
  }

  /** Number of values in a report of the given sensor type. */
  function FieldCount(t: SensorType): (n: nat)
    ensures n <= 4
  {
    match t
    case Accelerometer | MagneticField | Orientation | Gyroscope => 3
    case Light | AmbientTemperature | Temperature | Proximity | Pressure | RelativeHumidity => 1
    case RotationVector => 4
    case DevicePrivateBase | OtherType(_) => 0
  }

  /** Where the value of one field of an event comes from. */
  datatype FieldSource =
    | Immediate(channel: nat)             // read through sysfs for a poll-mode sensor
    | FromReport(channel: nat, at: nat)   // transformed from the report buffer at byte `at`

  /** A sensor event as `propagate_sensor_report` fills it, before the transform hooks run. */
  datatype Event = Event(sensor: nat, sensorType: SensorType, timestamp: int, fields: seq<FieldSource>)

  /** `propagate_sensor_report(s)` at time `now`: the event, and the sensor's new integration time. */
  function Propagate(st: ControlState, s: nat, now: int): (ControlState, Event)
    requires WellFormed(st) && s < |st.sensors|
  {
    var sn := st.sensors[s];
    var n := FieldCount(sn.sensorType);
    var fields := seq(n, c requires 0 <= c < n =>
      if IsPollSensor(sn) then Immediate(c) else FromReport(c, PrefixSize(sn.channels, c)));
    (st.(sensors := st.sensors[s := sn.(lastIntegrationTs := now)]), Event(s, sn.sensorType, now, fields))
  }

  /**
   * Propagation after integration reads what the integrator wrote: field `c` of a trigger
   * sensor's event points into its report buffer, and byte `t` there is byte `offset + t`
   * of the device report read (zero past the end of a short read).
   */
  lemma PropagateReadsIntegratedBytes(st: ControlState, dev: int, data: seq<byte>, s: nat, c: nat, t: nat, now: int)
    requires IntegrateInput(st, dev) && Accepted(st, dev)
    requires s < |st.sensors| && st.sensors[s].devNum == dev && !IsPollSensor(st.sensors[s])
    requires c < st.sensors[s].numChannels && c < FieldCount(st.sensors[s].sensorType)
    requires t < st.sensors[s].channels[c].size
    ensures var (st1, r) := Integrate(st, dev, ReadAvailable(data));
      WellFormed(st1) && s < |st1.sensors| &&
      var (st2, e) := Propagate(st1, s, now);
      var ch := st.sensors[s].channels[c];
      var len := Min(|data|, ExpectedSize(st.sensors, dev, |st.sensors|));
      && e.sensor == s && e.timestamp == now && |e.fields| == FieldCount(st.sensors[s].sensorType)
      && e.fields[c].FromReport? && e.fields[c].at + t < |st1.sensors[s].reportBuffer|
      && st1.sensors[s].reportBuffer[e.fields[c].at + t] == (if ch.offset + t < len then data[ch.offset + t] else 0)
  {
    IntegrateCopiesChannel(st, dev, data, s, c, t);
    IntegratePreserves(st, dev, ReadAvailable(data));
    IntegrateFlagsAndFrame(st, dev, data, s);
  }

  /** The return-first-available step of `sensor_poll`: deliver and clear the lowest pending report. */
  function TakePending(st: ControlState, now: int): Option<(ControlState, Event)>
    requires WellFormed(st)
  {
    var r := FirstPendingFrom(st.sensors, 0);
    if r == -1 then None
    else
      var (st1, e) := Propagate(st, r, now);
      Some((st1.(sensors := st1.sensors[r := st1.sensors[r].(reportPending := false)]), e))
  }

  /**
   * A report is delivered exactly when some sensor has one pending; it is the one of the
   * lowest index, and only its pending flag is cleared.
   */
  lemma TakePendingLowest(st: ControlState, now: int)
    requires WellFormed(st)
    ensures var t := TakePending(st, now);
      var ss := st.sensors;
      && (t.None? <==> forall j :: 0 <= j < |ss| ==> !ss[j].reportPending)
      && (t.Some? ==>
            var (st', e) := t.value;
            && e.sensor < |ss| && ss[e.sensor].reportPending
            && (forall j :: 0 <= j < e.sensor ==> !ss[j].reportPending)
            && st'.(sensors := ss) == st && |st'.sensors| == |ss|
            && (forall j :: 0 <= j < |ss| ==> st'.sensors[j].reportPending == (ss[j].reportPending && j != e.sensor))
            && (forall j :: 0 <= j < |ss| ==>
                  st'.sensors[j].(reportPending := ss[j].reportPending, lastIntegrationTs := ss[j].lastIntegrationTs) == ss[j]))
  {
  }

  /** Successive deliveries with no wait in between come in ascending sensor order. */
  lemma TakePendingAscends(st: ControlState, now: int, later: int)
    requires WellFormed(st) && TakePending(st, now).Some?
    ensures var (st1, e1) := TakePending(st, now).value;
      WellFormed(st1) &&
      (TakePending(st1, later).Some? ==> e1.sensor < TakePending(st1, later).value.1.sensor)
  {
    TakePendingLowest(st, now);
    var (st1, e1) := TakePending(st, now).value;
    assert WellFormed(st1) by {
      forall s | 0 <= s < |st1.sensors| ensures SensorShape(st1.lim, st1.sensors[s]) {
        assert st1.sensors[s].(reportPending := st.sensors[s].reportPending, lastIntegrationTs := st.sensors[s].lastIntegrationTs) == st.sensors[s];
      }
    }
    TakePendingLowest(st1, later);
  }

  /** Delivering a report changes no channel layout and no counter, so every device can still be integrated. */
  lemma TakePendingKeeps(st: ControlState, now: int)
    requires Integrable(st) && TakePending(st, now).Some?
    ensures Integrable(TakePending(st, now).value.0)
  {
    TakePendingAscends(st, now, now);
    var st' := TakePending(st, now).value.0;
    TakePendingLowest(st, now);
    forall d | 0 <= d < st.lim.maxDevices
      ensures ExpectedSize(st'.sensors, d, |st'.sensors|) == ExpectedSize(st.sensors, d, |st.sensors|)
    {
      ExpectedSizeSameChannels(st'.sensors, st.sensors, d, |st.sensors|);
    }
  }

  /** Whom `epoll_wait` reports on: the wake-up socket, or a device whose report the integrator would read. */
  datatype Source = WakeUpSocket | Device(dev: int, read: ReadOutcome)

  /** One ready entry; `inOnly` is `events == EPOLLIN`, and other entries are skipped. */
  datatype ReadyEntry = ReadyEntry(inOnly: bool, source: Source)

  datatype WaitResult = WaitFailed | Ready(entries: seq<ReadyEntry>)

  /** The invariant under which every device report can be integrated. */
  predicate Integrable(st: ControlState)
  {
    WellFormed(st) && LayoutFits(st)
  }

  /** The entry loop of `sensor_poll` over `es`: the state, and whether a wake-up entry ended it. */
  function Drain(st: ControlState, es: seq<ReadyEntry>): (r: (ControlState, bool))
    requires Integrable(st)
    ensures Integrable(r.0)
    decreases |es|
  {
    if es == [] then (st, false)
    else if !es[0].inOnly then Drain(st, es[1..])
    else match es[0].source
      case WakeUpSocket => (st, true)
      case Device(d, rd) =>
        IntegratePreserves(st, d, rd);
        Drain(Integrate(st, d, rd).0, es[1..])
  }

  /** Whether the first entry of `es` that the loop acts upon is a wake-up entry at index `i`. */
  predicate FirstWakeAt(es: seq<ReadyEntry>, i: nat)
  {
    i < |es| && es[i].inOnly && es[i].source.WakeUpSocket? &&
    forall j :: 0 <= j < i && es[j].inOnly ==> es[j].source.Device?
  }

  /** A wake-up entry ends the batch: the entries after it are not integrated. */
  lemma {:induction false} WakeCutsBatch(st: ControlState, es: seq<ReadyEntry>, i: nat)
    requires Integrable(st) && FirstWakeAt(es, i)
    ensures Drain(st, es) == (Drain(st, es[..i]).0, true)
    ensures Drain(st, es[..i]).1 == false
    decreases i
  {
    if i > 0 {
      assert es[1..][..i - 1] == es[..i][1..];
      if es[0].inOnly {
        match es[0].source
        case Device(d, rd) =>
          IntegratePreserves(st, d, rd);
          WakeCutsBatch(Integrate(st, d, rd).0, es[1..], i - 1);
      } else {
        WakeCutsBatch(st, es[1..], i - 1);
      }
    }
  }

  /** A batch without a wake-up entry integrates every device entry, and is not cut short. */
  lemma {:induction false} NoWakeRunsBatch(st: ControlState, es: seq<ReadyEntry>)
    requires Integrable(st)
    requires forall j :: 0 <= j < |es| && es[j].inOnly ==> es[j].source.Device?
    ensures !Drain(st, es).1
    decreases |es|
  {
    if es != [] {
      if es[0].inOnly {
        IntegratePreserves(st, es[0].source.dev, es[0].source.read);
        NoWakeRunsBatch(Integrate(st, es[0].source.dev, es[0].source.read).0, es[1..]);
      } else {
        NoWakeRunsBatch(st, es[1..]);
      }
    }
  }

  /** After a batch, every enabled poll-mode sensor is marked pending when some poll-mode sensor is active. */
  function MarkPoll(st: ControlState): (st': ControlState)
  {
    if st.activePoll == 0 then st
    else
      var ss := st.sensors;
      st.(sensors := seq(|ss|, i requires 0 <= i < |ss| =>
        if ss[i].enableCount != 0 && ss[i].numChannels == 0 then ss[i].(reportPending := true) else ss[i]))
  }

  lemma MarkPollMeaning(st: ControlState)
    ensures var st' := MarkPoll(st);
      && st'.(sensors := st.sensors) == st && |st'.sensors| == |st.sensors|
      && forall i :: 0 <= i < |st.sensors| ==>
           && st'.sensors[i].(reportPending := st.sensors[i].reportPending) == st.sensors[i]
           && st'.sensors[i].reportPending ==
                (st.sensors[i].reportPending || (st.activePoll != 0 && st.sensors[i].enableCount != 0 && IsPollSensor(st.sensors[i])))
  {
  }

  /** How a call of `sensor_poll` ends: a delivered event, or the given wait results ran out. */
  datatype PollResult = Delivered(st: ControlState, event: Event) | Exhausted(st: ControlState)

  /**
   * `sensor_poll` from its first label, with the successive results of `epoll_wait` given
   * and the clock reading `now` for every event it stamps.
   */
  function PollFrom(st: ControlState, now: int, waits: seq<WaitResult>): PollResult
    requires Integrable(st)
    decreases |waits|, 1
  {
    match TakePending(st, now)
    case Some((st', e)) => Delivered(st', e)
    case None => AwaitFrom(st, now, waits)
  }

  /** `sensor_poll` from the `await_event` label. */
  function AwaitFrom(st: ControlState, now: int, waits: seq<WaitResult>): PollResult
    requires Integrable(st)
    decreases |waits|, 0
  {
    if waits == [] then Exhausted(st)
    else match waits[0]
      case WaitFailed => AwaitFrom(st, now, waits[1..])
      case Ready(es) =>
        var (st1, woke) := Drain(st, es);
        if woke then AwaitFrom(st1, now, waits[1..])
        else
          MarkPollKeeps(st1);
          PollFrom(MarkPoll(st1), now, waits[1..])
  }

  lemma MarkPollKeeps(st: ControlState)
    requires Integrable(st)
    ensures Integrable(MarkPoll(st))
  {
    var st' := MarkPoll(st);
    forall s | 0 <= s < |st.sensors| ensures st'.sensors[s].channels == st.sensors[s].channels {
    }
    forall d | 0 <= d < st.lim.maxDevices
      ensures ExpectedSize(st'.sensors, d, |st'.sensors|) == ExpectedSize(st.sensors, d, |st.sensors|)
    {
      ExpectedSizeSameChannels(st'.sensors, st.sensors, d, |st.sensors|);
    }
  }

  /** A call that finds a report pending delivers it without waiting. */
  lemma PollDeliversPendingFirst(st: ControlState, now: int, waits: seq<WaitResult>)
    requires Integrable(st) && exists j :: 0 <= j < |st.sensors| && st.sensors[j].reportPending
    ensures var r := PollFrom(st, now, waits);
      r.Delivered? && r.event.sensor == FirstPendingFrom(st.sensors, 0) && (r.st, r.event) == TakePending(st, now).value
  {
    TakePendingLowest(st, now);
  }

  /**
   * A ready batch that contains no wake-up entry and follows a call with nothing pending
   * delivers a report whenever a poll-mode sensor is enabled: that sensor is marked pending.
   */
  lemma PollAfterBatchMarks(st: ControlState, now: int, es: seq<ReadyEntry>, rest: seq<WaitResult>, p: nat)
    requires Integrable(st) && CountersMatch(st)
    requires forall j :: 0 <= j < |st.sensors| ==> !st.sensors[j].reportPending
    requires forall j :: 0 <= j < |es| && es[j].inOnly ==> es[j].source.Device?
    requires p < |st.sensors| && st.sensors[p].enableCount != 0 && IsPollSensor(st.sensors[p])
    ensures PollFrom(st, now, [Ready(es)] + rest).Delivered?
  {
    TakePendingLowest(st, now);
    NoWakeRunsBatch(st, es);
    var st1 := Drain(st, es).0;
    DrainKeepsKeys(st, es);
    forall k: Counter ensures Count(st1.sensors, k) == Count(st.sensors, k) {
      CountSameKeys(st1.sensors, st.sensors, k);
    }
    CountPositive(st.sensors, AllPoll);
    assert Contributes(st.sensors[p], AllPoll);
    MarkPollMeaning(st1);
    MarkPollKeeps(st1);
    var st2 := MarkPoll(st1);
    assert st1.activePoll == st.activePoll && st.activePoll > 0;
    assert st2.sensors[p].reportPending;
    TakePendingLowest(st2, now);
    assert TakePending(st2, now).Some?;
    assert ([Ready(es)] + rest)[0] == Ready(es);
    assert ([Ready(es)] + rest)[1..] == rest;
    assert AwaitFrom(st, now, [Ready(es)] + rest) == PollFrom(st2, now, rest);
  }

  /** The loop over ready entries leaves the counters, enable counts and devices of sensors alone. */
  lemma {:induction false} DrainKeepsKeys(st: ControlState, es: seq<ReadyEntry>)
    requires Integrable(st)
    ensures var st' := Drain(st, es).0;
      && st'.(sensors := st.sensors) == st && |st'.sensors| == |st.sensors|
      && forall i :: 0 <= i < |st.sensors| ==> SameKeys(st'.sensors[i], st.sensors[i])
    decreases |es|
  {
    if es != [] {
      if !es[0].inOnly {
        DrainKeepsKeys(st, es[1..]);
      } else if es[0].source.Device? {
        var d, rd := es[0].source.dev, es[0].source.read;
        IntegratePreserves(st, d, rd);
        var st1 := Integrate(st, d, rd).0;
        DrainKeepsKeys(st1, es[1..]);
        if Accepted(st, d) && rd.ReadAvailable? {
          forall i | 0 <= i < |st.sensors| ensures SameKeys(st1.sensors[i], st.sensors[i]) {
            IntegrateFlagsAndFrame(st, d, rd.data, i);
          }
        }
      }
    }
  }

  /** `(int)(1000000000L / ns)`, raised to 1 when it truncates to 0. */
  function RateFor(ns: int): int
    requires ns != 0
  {
    var q := CDiv(NSEC_PER_SEC, ns);
    if q == 0 then 1 else q
  }

  /**
   * For a positive period the rate is the number of whole periods in a second, and at
   * least 1: the largest rate whose period is not shorter than `ns`, or 1 below one hertz.
   */
  lemma RateForPositive(ns: int)
    requires ns > 0
    ensures var r := RateFor(ns);
      && r >= 1
      && NSEC_PER_SEC < (r + 1) * ns
      && (r * ns <= NSEC_PER_SEC <==> ns <= NSEC_PER_SEC)
  {
    var q := CDiv(NSEC_PER_SEC, ns);
    if q == 0 {
      assert NSEC_PER_SEC < ns;
    } else {
      assert q >= 1;
      assert q * ns <= NSEC_PER_SEC;
      assert ns <= q * ns;
    }
  }

  /** The writes that change a sensor's sampling frequency, with the buffer off around them when the device streams. */
  function RateWrites(d: int, s: int, rate: int, streaming: bool): seq<ConfigWrite>
  {
    (if streaming then [BufferEnable(d, 0)] else []) + [SamplingRate(s, rate)] + (if streaming then [BufferEnable(d, 1)] else [])
  }

  /**
   * `sensor_set_delay(s, ns)` given what reading the current sampling frequency yields: new
   * state, return code, and whether the wake-up byte is sent to the poll loop.
   */
  function SetDelay(st: ControlState, s: nat, ns: int, current: Option<int>): (ControlState, int, bool)
    requires WellFormed(st) && s < |st.sensors|
  {
    if ns == 0 then (st, -EINVAL, false)
    else
      var rate := RateFor(ns);
      var sn := st.sensors[s];
      var d := sn.devNum;
      var log := if current.Some? && current.value != rate then st.log + RateWrites(d, s, rate, st.trigPerDev[d] != 0) else st.log;
      (st.(sensors := st.sensors[s := sn.(samplingRate := rate)], log := log), 0, true)
  }

  /**
   * A zero period is rejected with -EINVAL and changes nothing; any other period sets the
   * sensor's rate to `RateFor(ns)`, returns 0, and writes the rate to sysfs only when the
   * current value could be read and differs. Nothing else changes. The poll loop is woken
   * exactly when the period is accepted, whether or not the rate changed.
   */
  lemma SetDelayEffect(st: ControlState, s: nat, ns: int, current: Option<int>)
    requires WellFormed(st) && s < |st.sensors|
    ensures var (st', r, wakes) := SetDelay(st, s, ns, current);
      && (wakes <==> ns != 0)
      && (ns == 0 ==> r == -EINVAL && st' == st)
      && (ns != 0 ==>
            && r == 0
            && st'.sensors == st.sensors[s := st.sensors[s].(samplingRate := RateFor(ns))]
            && st'.(log := st.log, sensors := st.sensors) == st
            && (st'.log == st.log <==> current.None? || current.value == RateFor(ns))
            && (st'.log != st.log ==> st'.log[|st.log|..] == RateWrites(st.sensors[s].devNum, s, RateFor(ns), st.trigPerDev[st.sensors[s].devNum] != 0)))
  {
  }
}
