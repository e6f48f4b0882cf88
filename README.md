# iio sensors HAL control layer in Dafny

This project models the sensor control layer of the Android iio sensors HAL (`control.c`)
together with the timestamp and sysfs helpers it relies on (`utils.c`), and proves
properties of that model.

The control layer keeps all of its state in fixed tables indexed by small integers:
- the sensor table `sensor_info[]`;
- the per-device counters of enabled trigger sensors and poll-mode sensors;
- the device descriptors;
- the count of active poll-mode sensors.

It does five jobs:
- it reference-counts activations (`adjust_counters`, `sensor_activate`);
- it reconfigures a device's trigger, channel enables and buffer;
- it resolves where each channel sits in a device's combined report (`refresh_sensor_report_maps`);
- it copies device reports into per-sensor buffers (`integrate_device_report`);
- it hands pending reports out one at a time (`sensor_poll`, `get_poll_time`, `propagate_sensor_report`, `sensor_set_delay`).

Layout:

- `model.dfy` (`SensorModel`): the data model.
  - `SensorInfo`, `ControlState` and `Limits`.
  - `Limits` holds MAX_DEVICES, MAX_SENSORS, MAX_CHANNELS and MAX_SENSOR_REPORT_SIZE, which come from `common.h`. `common.h` is not part of this model, so the sizes are parameters.
  - The invariant `Consistent`: each counter equals the number of enabled sensors it covers, and a device descriptor is open exactly while the device has an enabled sensor.
- `activation.dfy`, `layout.dfy`, `integration.dfy`, `scheduling.dfy`: one specification function per operation of `control.c`, on `ControlState` values, and the lemmas about them.
- `control.dfy` (`Control.SensorControl`): the C globals as a class.
  - The sensor table and the per-device tables are arrays.
  - Each C function is a method whose loops follow the C code. Each method's postcondition ties the new state to the specification function.
- `sysfs.dfy` (`Sysfs.Store`): the sysfs helpers over an abstract store. The store is a map from path to attribute content, readability, writability and how many bytes a write is accepted for.
- `timestamp.dfy`, `carith.dfy`, `types.dfy`: the timestamp split and composition, C's truncating `/` and `%`, bytes, NUL-terminated text and decimal digits.

What the outside world supplies becomes a parameter:
- sysfs reads made by the control layer: `Probe` for a channel's `_en`, `_type` and `_index`, and `Option<int>` for the current sampling frequency;
- the result of `open` and of the epoll registration;
- what `read` on a device delivers (`ReadOutcome`);
- the successive results of `epoll_wait` (`WaitResult`);
- the clock reading `now`.

The sysfs writes made by the control layer are appended to the state's `log`:
- buffer enable;
- trigger name;
- channel `_en`;
- sampling frequency.

Behaviour of the C code the model keeps on purpose, each stated by a lemma:
- `!ch_enabled != 1` (control.c:116) holds for an *enabled* channel. The resolver therefore zeroes the size of enabled channels and keeps the size of disabled ones (`Layout.ZeroesSizeOnEnabled`, `Layout.RefreshRejected`).
- Disabled channels are still recorded and given offsets (control.c:162-164, `Layout.RefreshPlacesRow`).
- A negative `_index` passes the guard at control.c:155. The C store then lands outside the tables; the model leaves the tables unchanged.
- Two channels with the same index: the later one overwrites the earlier one (`Layout.DuplicateIndexOverwrites`).
- Only `len == -1` counts as a failed device read, so a short or empty read is integrated with zero bytes past its end (`Integration.IntegrateCopiesChannel`).
- When adding the descriptor to the epoll set fails, -1 is returned but the sensor stays enabled and the descriptor stays open (`Activation.ActivateOpens`).
- When `open` fails, the configuration writes already made for a trigger sensor are not undone (`Activation.ActivateOpenFailure`).
- A device first opened by a poll-mode sensor is never added to the epoll set, even when a trigger sensor of that device is enabled later (`Activation.ActivateOpens`).
- Disabling a trigger sensor while exactly one other trigger sensor of the device stays enabled renames the trigger after the sensor being disabled (`Activation.ActivateConfigures`).
- `set_timestamp` of a negative value that is not a whole number of seconds gives a negative `tv_nsec`. A negative whole number of seconds gives a negative `tv_sec` and `tv_nsec` 0. Either way the result is not a normalized timespec (`Timestamp.NegativeTargetNotNormalized`).

## Model

| member | source | states |
|---|---|---|
| Control.SensorControl.constructor | control.c:700-707 | every device descriptor is -1 and every counter 0, with the given sensor table; when no sensor of the table is enabled, the control-layer invariant holds |
| Control.SensorControl.AdjustCounters | control.c:203-263 | the new tables and return code are those of `Activation.Adjust` |
| Activation.Adjust | control.c:203-263 | `adjust_counters` case by case: -1 and no change for a disable at zero, 0 while the enable count stays positive, 1 on a toggle with the trigger or poll counters of the sensor's device moved by one; a last disable clears the pending flag and the report buffer (its properties are the Adjust lemmas below) |
| Activation.AdjustFrame | control.c:203-263 | returns 1 exactly when the enable count moves between 0 and 1, and -1 exactly on a disable at 0; the new enable count; a disable to 0 clears the pending flag and zero-fills the buffer; nothing outside the sensor and the counters changes |
| Activation.AdjustKeepsCounters | control.c:244-262 | the counters still equal the counts of enabled sensors, each moved by the sensor's change in contribution |
| Activation.AdjustRoundTrip | control.c:244-262 | enable followed by disable restores every counter and the enable count, with equal return codes |
| Activation.AdjustToggle | control.c:244-262 | a toggle moves by one exactly the counters of the sensor's kind on its device, and the enable count to 1 or 0 |
| Control.SensorControl.SensorActivate | control.c:266-387 | the new tables, return code and whether the poll loop is woken are those of `Activation.Activate` |
| Activation.Activate | control.c:266-387 | `sensor_activate`: a call that does not toggle returns the `adjust_counters` code and stops; a toggle reconfigures a trigger sensor's device, then takes the descriptor step (its properties are the Activate lemmas below) |
| Control.SensorControl.ConfigureDevice | control.c:285-323 | the buffer, trigger and channel-enable writes and the layout refresh of `Activation.Configure` |
| Activation.Configure | control.c:285-323 | the reconfiguration of a trigger sensor's device leaves every sensor's keys, the limits and well-formedness alone and changes only channel layouts and the log |
| Control.SensorControl.EnableChannels | control.c:311-317 | one `_en` write per channel in use, in channel order, and nothing else changes |
| Control.SensorControl.SetDescriptor | control.c:332-387 | descriptor close, open, rollback and epoll registration as `Activation.Descriptor` |
| Activation.Descriptor | control.c:332-387 | the descriptor step never touches the write log, the limits or the table size; close on the last disable, open with rollback on failure, epoll registration for a trigger sensor |
| Activation.ConfigureKeepsCounters | control.c:285-323 | reconfiguring a device changes only channel layouts and the write log, so the counters still match |
| Activation.EnabledSensorKeepsOpen | control.c:334-346 | under the invariant, an enabled sensor's device has an open descriptor |
| Activation.TrackOneDevice | control.c:334-385 | changing one device's counters and descriptor consistently keeps the descriptor invariant |
| Activation.DescriptorPreserves | control.c:332-387 | the descriptor step after a toggle re-establishes the whole invariant |
| Activation.ActivatePreserves | control.c:266-387 | `sensor_activate` keeps counters equal to counts and descriptors open exactly for devices in use, whatever open and epoll return |
| Activation.ActivateConfigures | control.c:285-323 | the exact sysfs writes of a toggling trigger sensor: buffer off; trigger "none" for the last sensor, named after the first one, untouched otherwise; `_en` per channel; buffer on unless no trigger sensor is left |
| Activation.PreparedConfigures | control.c:285-323 | the sysfs writes a toggling trigger sensor makes before the descriptor step, by the number of other enabled trigger sensors of the device |
| Activation.ActivateOpenFailure | control.c:349-361 | a failed open returns -1 and restores counters, enable count and descriptors; config writes of a trigger sensor stay |
| Activation.ActivateOpens | control.c:349-387 | a successful open stores the descriptor; a trigger sensor's device is watched exactly when registration succeeds, else -1 with the sensor still enabled |
| Activation.ActivateCloses | control.c:332-346 | a last disable returns 0, clears the report, and the descriptor is closed and unwatched exactly when no sensor of the device remains enabled |
| Activation.ActivateNeutral | control.c:279-283 | a call that does not toggle only moves the enable count; a disable at 0 returns -1 and changes nothing |
| SensorModel.CountPositive | control.c:334-336 | a counter is positive exactly when some enabled sensor contributes to it |
| SensorModel.OpenWhileEnabled | control.c:334-346 | under the invariant, a device's descriptor is closed exactly when none of its sensors is enabled, and a closed one is not watched |
| SensorModel.CountUpdate | control.c:244-262 | replacing one sensor moves each counter by the change in its contribution |
| SensorModel.CountSameKeys | control.c:244-262 | sensors equal in device, channel count and enable count give the same counters |
| SensorModel.CountToggle | control.c:244-262 | one sensor toggling, others changing only outside the keys, moves each counter by that sensor's change |
| Control.SensorControl.RefreshSensorReportMaps | control.c:57-200 | the sensor table becomes `Layout.Refresh` of the old one; nothing else changes |
| Layout.Refresh | control.c:57-200 | `refresh_sensor_report_maps`: the by-index table of phase one, then the offsets of phase two, for the sensors of one device (its properties are the Layout lemmas below) |
| Control.SensorControl.RecordAll | control.c:91-168 | phase one leaves the by-index tables equal to `Layout.Table` and zeroes the sizes as `Layout.ZeroSensors` |
| Control.SensorControl.RecordChannels | control.c:101-167 | the stores of one sensor's channels are applied in channel order |
| Control.SensorControl.ProbeChannel | control.c:103-164 | a failed read skips the channel; an enabled flag zeroes its size; index at or above MAX_SENSORS is not stored |
| Control.SensorControl.PlaceChannels | control.c:183-199 | phase two leaves the sensors as `Layout.Place` over the whole table |
| Layout.ZeroesSizeOnEnabled | control.c:116-118 | the zeroing test holds exactly for a channel whose `_en` reads non-zero |
| Layout.SensorWrites | control.c:94-168 | the stores are in sensor/channel order, each from a channel of the device that passed the guards, and every such channel has its store |
| Layout.Table | control.c:87-168 | every non-empty row is the store of a channel that passed the guards, with its index below MAX_SENSORS |
| Layout.LastStore | control.c:162-164 | each table entry holds the last store made to it, or its initial zero row |
| Layout.DuplicateIndexOverwrites | control.c:162-164 | a channel's row holds a later channel with the same index, or that channel itself |
| Layout.TableInRange | control.c:162-199 | every non-empty row names an existing channel, and no channel occupies two non-empty rows |
| Layout.RefreshPlacesRow | control.c:183-199 | each non-empty row's channel gets offset = sum of sizes of earlier non-empty rows and the recorded size |
| Layout.RowsDoNotOverlap | control.c:183-199 | byte ranges of two non-empty rows are disjoint and follow index order |
| Layout.RefreshRejected | control.c:108-158 | a channel not recorded keeps its offset, and its size is zeroed exactly when its `_en` read non-zero |
| Layout.RefreshOtherDevice | control.c:94-96 | sensors of other devices are left unchanged |
| Control.SensorControl.IntegrateDeviceReport | control.c:390-452 | new sensor table and return code are those of `Integration.Integrate` |
| Integration.Integrate | control.c:390-452 | `integrate_device_report`: -1 for a device without trigger sensors or a failed read; otherwise each sensor of the device packs its channels from the zero-filled device buffer and is flagged pending when enabled (see the Integrate lemmas below) |
| Control.SensorControl.ExpectedReportSize | control.c:409-412 | the expected size is the sum of the channel sizes of the device's sensors |
| Control.SensorControl.ReadIntoBuffer | control.c:394-414 | the zero-initialised buffer holds the bytes read, at most the expected size |
| Control.SensorControl.CopyReports | control.c:424-448 | every sensor of the device gets its channels copied and its flag set, others unchanged |
| Control.SensorControl.CopyReport | control.c:426-447 | one sensor's report buffer and pending flag as `Integration.CopyIn` |
| Control.SensorControl.PackChannels | control.c:429-441 | the `memcpy` loop packs channel after channel from the device buffer |
| Integration.CopyChannelsAt | control.c:429-441 | channel j's bytes land at the sum of the sizes of the channels before it |
| Integration.CopyChannelsBeyond | control.c:429-441 | bytes after the packed channels keep their value |
| Integration.IntegrateRejects | control.c:403-420 | an out-of-range device, a device without trigger sensors, or a failed read returns -1 and changes nothing |
| Integration.IntegrateCopiesChannel | control.c:414-441 | byte t of channel c lands at the prefix size plus t, holding the byte read at offset + t, or 0 past a short read |
| Integration.IntegrateFlagsAndFrame | control.c:424-448 | a sensor of the device ends pending exactly when it was pending or is enabled; its bytes past the packed channels and all other sensors and tables are unchanged |
| Integration.IntegratePreserves | control.c:390-452 | integration keeps the invariant, the layouts, the keys and the layout-fit assumption |
| Scheduling.DueTime | control.c:558-559 | the next due time of a poll-mode sensor: its last integration time plus one period by C's truncating division |
| Scheduling.LowestDue | control.c:553-566 | the minimum due time of scheduled sensors, INT64_MAX exactly when none is due below it |
| Scheduling.PollTimeout | control.c:540-574 | `get_poll_time`: -1, 0, or the truncated milliseconds to the lowest due time (its meaning is `Scheduling.PollTimeoutMeaning`) |
| Scheduling.PollTimeoutMeaning | control.c:540-574 | -1 exactly when no poll sensor is active or none is due; otherwise never sleeps past a due time and some sensor falls due within the timeout plus one ms |
| Control.SensorControl.GetPollTime | control.c:540-574 | the loop computes `Scheduling.PollTimeout` |
| Control.SensorControl.LowestTarget | control.c:553-566 | the scan computes `Scheduling.LowestDue` over every sensor |
| Scheduling.FirstPendingFrom | control.c:598-606 | the lowest-index pending sensor, or -1 when none is pending |
| Control.SensorControl.FindPending | control.c:598-599 | the scan returns `Scheduling.FirstPendingFrom` |
| Scheduling.FieldCount | control.c:472-501 | a report carries at most four values |
| Scheduling.Propagate | control.c:455-538 | `propagate_sensor_report`: one field per value of the sensor type, read immediately for a poll-mode sensor or from the report buffer at the channel's packed position, stamped with `now` |
| Scheduling.PropagateReadsIntegratedBytes | control.c:503-537 | after integrating a device report, field c of a trigger sensor's event points at the report-buffer bytes that hold channel c's bytes of the report read, or 0 past a short read |
| Control.SensorControl.PropagateSensorReport | control.c:455-538 | the event and new state are those of `Scheduling.Propagate` |
| Scheduling.TakePending | control.c:598-606 | the return-first-available step: propagate the lowest pending report and clear its flag, or nothing when none is pending |
| Scheduling.TakePendingLowest | control.c:598-606 | a report is delivered exactly when one is pending: the lowest index, and only its flag is cleared |
| Scheduling.TakePendingAscends | control.c:598-606 | successive deliveries without a wait come in ascending sensor order |
| Scheduling.TakePendingKeeps | control.c:598-606 | delivering a report keeps every device integrable |
| Control.SensorControl.TakePendingReport | control.c:598-606 | delivers exactly what `Scheduling.TakePending` delivers |
| Scheduling.Drain | control.c:629-637 | the loop over a ready batch keeps every device integrable; it skips entries without EPOLLIN, stops at the wake-up entry, integrates device entries |
| Scheduling.WakeCutsBatch | control.c:629-637 | the entries after a wake-up entry are not integrated |
| Scheduling.NoWakeRunsBatch | control.c:629-637 | a batch without a wake-up entry is never cut short |
| Scheduling.DrainKeepsKeys | control.c:629-637 | a batch leaves counters, enable counts and devices of all sensors alone |
| Control.SensorControl.ProcessReadyBatch | control.c:629-637 | the state and wake-up flag are those of `Scheduling.Drain` |
| Scheduling.MarkPoll | control.c:640-644 | after a batch, every enabled poll-mode sensor is flagged pending when a poll-mode sensor is active |
| Scheduling.MarkPollMeaning | control.c:640-644 | a sensor becomes pending exactly when it was, or a poll sensor is active and it is enabled and channel-less; nothing else changes |
| Scheduling.MarkPollKeeps | control.c:640-644 | marking keeps every device integrable |
| Control.SensorControl.MarkPollSensors | control.c:640-644 | the loop computes `Scheduling.MarkPoll` |
| Scheduling.PollFrom | control.c:585-647 | `sensor_poll` over the given wait results: deliver the first pending report, else wait, drain the batch, mark poll sensors unless woken, and retry |
| Scheduling.PollDeliversPendingFirst | control.c:595-606 | a call with a report pending delivers the lowest one without waiting |
| Scheduling.PollAfterBatchMarks | control.c:615-646 | after a batch without wake-up, an enabled poll-mode sensor guarantees a delivery |
| Control.SensorControl.SensorPoll | control.c:585-647 | the delivered event and new state are those of `Scheduling.PollFrom` over the given wait results |
| Scheduling.RateFor | control.c:663-673 | the rate of a period: `1000000000L/ns` truncated, raised to 1 when it is 0 (its meaning is `Scheduling.RateForPositive`) |
| Scheduling.RateForPositive | control.c:663-673 | for a positive period the rate is at least 1 and the largest whose period is not shorter than ns, or 1 below one hertz |
| Scheduling.SetDelay | control.c:650-697 | `sensor_set_delay`: -EINVAL for a zero period; otherwise the new rate, a sysfs write when the current value was read and differs, and a wake-up of the poll loop (its meaning is `Scheduling.SetDelayEffect`) |
| Scheduling.SetDelayEffect | control.c:650-697 | a zero period gives -EINVAL, no change and no wake-up; otherwise the poll loop is woken, the rate is set, 0 returned, and the rate is written only when the current value was read and differs, inside buffer off/on when the device streams |
| Control.SensorControl.SensorSetDelay | control.c:650-697 | new state, return code and wake-up flag are those of `Scheduling.SetDelay` |
| CArith.CDiv | control.c:559 | C's truncating quotient: the remainder has the sign of the dividend and is smaller than the divisor |
| CArith.CMod | utils.c:262 | C's remainder: quotient times divisor plus remainder is the dividend, with the dividend's sign |
| CArith.CDivUnique | utils.c:261 | a quotient with a truncating remainder is the C quotient |
| Timestamp.ComposeNs | utils.c:232-256 | the `int64_t` nanosecond count of a timespec falls in the second its `tv_sec` names when `tv_nsec` is within one second |
| Timestamp.LastNormalizedSecond | utils.c:237 | the composition fits `int64_t` up to second 9223372036 and nanosecond 854775807, and overflows one nanosecond later |
| Timestamp.SetTimestamp | utils.c:259-263 | for an `int64_t` target, composing the split gives back the nanoseconds; normalised for non-negative input |
| Timestamp.SplitComposed | utils.c:237 | splitting a normalised timestamp's composition gives it back |
| Timestamp.NegativeTargetNotNormalized | utils.c:259-263 | a negative target never gives a normalized timespec; the nanosecond part is negative exactly when the target is not a multiple of 10^9, and 0 with negative seconds when it is |
| Timestamp.NegativeTargetExamples | utils.c:259-263 | -1 ns splits into 0 s and -1 ns; -10^9 ns splits into -1 s and 0 ns |
| Types.DigitCharsRoundTrip | control.c:296-297 | the device number in the trigger name reads back as that number |
| Types.DecimalText | utils.c:139 | `sprintf("%d")`: at least one byte, starting with a minus sign exactly for a negative value |
| Types.DecimalTextRoundTrip | utils.c:139 | the decimal text reads back as the value printed, for every integer |
| Types.CString | utils.c:168-171 | the text up to the first NUL contains no NUL and is a prefix |
| Sysfs.Store.Read | utils.c:23-47 | -1 and buffer untouched on an empty path, null buffer, length below 1 or failed open; otherwise the bytes read over the front of the buffer |
| Sysfs.Store.Write | utils.c:50-76 | -1 and store untouched on bad arguments or failed open; otherwise the count accepted, and the attribute holds that prefix |
| Sysfs.Store.ReadStr | utils.c:175-195 | -1 on failure; otherwise the length read and a NUL at len-1, or at 0 when nothing was read |
| Sysfs.Store.ReadNum | utils.c:97-111 | -1 and the value unchanged unless the read yields at least one byte; otherwise 0 and the conversion of the text before the terminator |
| Sysfs.TerminatedText | utils.c:190 | the terminator over the last byte read cuts the text there |
| Sysfs.CStringPrefix | utils.c:190 | a NUL right after a prefix ends the string at that prefix |
| Sysfs.Store.WriteOpened | utils.c:146-162 | open, write and close: -1 and no change when the attribute cannot be opened for writing, otherwise the count accepted, and the attribute holds that prefix of the data |
| Sysfs.Store.WriteStr | utils.c:166-172 | -1 for a null or empty string; otherwise `strlen` bytes written through `sysfs_write` |
| Sysfs.Store.WriteInt | utils.c:132-163 | -1 on an empty path or failed open; otherwise the byte count written, possibly short, of the decimal text |
| Sysfs.Store.WriteFloat | utils.c:198-229 | -1 on an empty path, empty text or failed open; otherwise the byte count written, possibly short |

## Left out

- epoll, the socket pair and the wake-up byte: `epoll_create`, `epoll_ctl`, `epoll_wait`, `socketpair`, `acknowledge_release`. These are operating-system plumbing. The result of an epoll registration and of each wait is a parameter. The watched set is a field. Whether the poll loop is woken is a flag in the results of `Activation.Activate` and `Scheduling.SetDelay`.
- `usleep` and the POLL_MIN_INTERVAL throttle in `sensor_poll`, and the clocks (`get_timestamp*`, utils.c:232-256). These depend on wall-clock time; one reading `now` is a parameter.
- Real `open`, `read`, `write` and `close`. The control layer takes their results as parameters. The sysfs helpers work on the abstract store in `Sysfs.Store`.
- `decode_type_spec`, `acquire_immediate_value`, and the `ops.transform` / `ops.finalize` hooks. These are foreign code producing floats. An event records, for each field, whether the value is read immediately or from which byte of the report buffer.
- `atoi`, `strtof`, `atoll` and `snprintf("%g")`. These are libc parsing and formatting. `Sysfs.Store.ReadNum` takes the conversion as a function; `Sysfs.Store.WriteFloat` takes the formatted text.
- `sprintf` path building and ALOG logging. A configuration write records the device or sensor it is for instead of a path.
- `delete_control_data`, which is empty.
- Sensors beyond `sensor_count`. The C loops in `integrate_device_report` run to MAX_SENSORS, but the unused entries are zeroed: they have no channels and are never enabled, so they change nothing.
- Integration.Integrate: a device layout that does not fit its buffers is not modelled. `integrate_device_report` checks no sizes. An expected size above the MAX_SENSOR_REPORT_SIZE * MAX_SENSORS bytes of `buf` makes the C `read` overflow it, and a sensor whose channels exceed MAX_SENSOR_REPORT_SIZE makes the `memcpy` overflow `report_buffer`; both are undefined behaviour. The integrator therefore requires `Integration.ReportFits` of the device, and the poll side requires `Scheduling.Integrable` (every device layout fits). This covers `Scheduling.Drain`, `Scheduling.PollFrom`, `Control.SensorControl.IntegrateDeviceReport` and `Control.SensorControl.SensorPoll`. The channel sizes come from `decode_type_spec`, which is not part of this model, and a channel the resolver skips keeps its old offset. So no lemma shows that `Layout.Refresh` or `Activation.Activate` establishes the fit. `Integration.IntegratePreserves`, `Scheduling.MarkPollKeeps` and `Scheduling.TakePendingKeeps` show that the delivery side keeps it.
- Control.SensorControl.ProbeChannel: the store through a negative `_index` writes outside the tables in C, which is undefined behaviour; the model does not store it.
- Scheduling.DueTime: `int64_t` overflow of `last_integration_ts + 1000000000/sampling_rate` is not modelled. Integers are unbounded, so a due time can exceed INT64_MAX.
- Scheduling.PollTimeout: the conversion of the `int64_t` millisecond count to `int` is not modelled.
- Scheduling.RateFor: the `(int)` cast of `1000000000L/ns` is not written out. Its magnitude is at most 10^9, so it always fits. A negative period gives a negative rate, as in C; no property is stated for it.
- Scheduling.FieldCount: its contract only bounds the count by 4. The per-type values are the case analysis itself.
- Control.SensorControl.SensorPoll: it returns None once the given wait results run out, where the C function would keep waiting.
- Sysfs: failures inside `read` after a successful `open` are folded into the attribute being unreadable.
