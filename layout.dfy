/**
 * Specification of the report-layout resolver, `refresh_sensor_report_maps` (control.c).
 * Phase one visits every channel of every sensor of the device and records, under the
 * channel's kernel-reported index, who it belongs to and its size; phase two walks the
 * index table in ascending order and hands out consecutive offsets to non-empty entries.
 */
module Layout {
  import opened Types
  import opened SensorModel

  /**
   * What the resolver reads for one channel from sysfs: the `_en` flag, the size decoded
   * from the `_type` text, and the `_index`; `None` where that read failed.
   */
  datatype Probe = Probe(en: Option<int>, size: Option<nat>, index: Option<int>)

  /** One row of the three by-index tables: sensor handle, channel number, size. */
  datatype Slot = Slot(sensor: nat, channel: nat, size: nat)

  /** One store into the by-index tables. */
  datatype Write = Write(index: nat, slot: Slot)

  /** One probe per channel in use, for every sensor. */
  predicate ProbesFit(ss: seq<SensorInfo>, probes: seq<seq<Probe>>)
  {
    |probes| == |ss| && forall s :: 0 <= s < |ss| ==> |probes[s]| == ss[s].numChannels
  }

  /** The guards a channel must pass to be recorded: all three reads succeed and the index is below MAX_SENSORS. */
  predicate PassesGuards(p: Probe, maxSensors: nat)
  {
    p.en.Some? && p.size.Some? && p.index.Some? && p.index.value < maxSensors
  }

  /**
   * A channel that passes the guards is stored in the tables. A negative index passes them
   * too; its store would land outside the tables, and the model leaves the tables alone.
   */
  predicate Recorded(p: Probe, maxSensors: nat)
  {
    PassesGuards(p, maxSensors) && p.index.value >= 0
  }

  /** The test `!ch_enabled != 1` (C's `!` yields 1 or 0): it holds for an ENABLED channel. */
  predicate ZeroesSize(p: Probe)
  {
    p.en.Some? && (if p.en.value == 0 then 1 else 0) != 1
  }

  lemma ZeroesSizeOnEnabled(p: Probe)
    ensures ZeroesSize(p) <==> p.en.Some? && p.en.value != 0
  {
  }

  predicate LexBefore(a: Slot, b: Slot)
  {
    a.sensor < b.sensor || (a.sensor == b.sensor && a.channel < b.channel)
  }

  predicate InScanOrder(ws: seq<Write>)
  {
    forall i, j :: 0 <= i < j < |ws| ==> LexBefore(ws[i].slot, ws[j].slot)
  }

  /** A store made for channel `w.slot.channel` of sensor `w.slot.sensor`, at that channel's index. */
  predicate FromProbe(w: Write, ss: seq<SensorInfo>, dev: int, probes: seq<seq<Probe>>, maxSensors: nat)
    requires ProbesFit(ss, probes)
  {
    && w.slot.sensor < |ss|
    && ss[w.slot.sensor].devNum == dev
    && w.slot.channel < ss[w.slot.sensor].numChannels
    && Recorded(probes[w.slot.sensor][w.slot.channel], maxSensors)
    && probes[w.slot.sensor][w.slot.channel].index.value == w.index
    && probes[w.slot.sensor][w.slot.channel].size.value == w.slot.size
  }

  function RecordOf(s: nat, c: nat, p: Probe): Write
    requires p.size.Some? && p.index.Some? && p.index.value >= 0
  {
    Write(p.index.value, Slot(s, c, p.size.value))
  }

  /** The stores made while visiting channels `0 .. k-1` of sensor `s`. */
  function ChannelWrites(s: nat, ps: seq<Probe>, maxSensors: nat, k: nat): (ws: seq<Write>)
    requires k <= |ps|
    ensures InScanOrder(ws)
    ensures forall w :: w in ws ==>
      && w.slot.sensor == s && w.slot.channel < k
      && Recorded(ps[w.slot.channel], maxSensors)
      && w == RecordOf(s, w.slot.channel, ps[w.slot.channel])
    ensures forall c :: 0 <= c < k && Recorded(ps[c], maxSensors) ==> RecordOf(s, c, ps[c]) in ws
  {
    if k == 0 then []
    else
      var p := ps[k - 1];
      ChannelWrites(s, ps, maxSensors, k - 1) + (if Recorded(p, maxSensors) then [RecordOf(s, k - 1, p)] else [])
  }

  /** The stores made while visiting sensors `0 .. k-1`, skipping those of other devices. */
  function SensorWrites(ss: seq<SensorInfo>, dev: int, probes: seq<seq<Probe>>, maxSensors: nat, k: nat): (ws: seq<Write>)
    requires ProbesFit(ss, probes) && k <= |ss|
    ensures InScanOrder(ws)
    ensures forall w :: w in ws ==> w.slot.sensor < k && FromProbe(w, ss, dev, probes, maxSensors)
    ensures forall s, c :: (0 <= s < k && ss[s].devNum == dev && 0 <= c < ss[s].numChannels &&
      Recorded(probes[s][c], maxSensors)) ==> RecordOf(s, c, probes[s][c]) in ws
  {
    if k == 0 then []
    else
      var prev := SensorWrites(ss, dev, probes, maxSensors, k - 1);
      var mine := if ss[k - 1].devNum == dev then ChannelWrites(k - 1, probes[k - 1], maxSensors, ss[k - 1].numChannels) else [];
      assert forall i, j :: 0 <= i < |prev| <= j < |prev + mine| ==> LexBefore((prev + mine)[i].slot, (prev + mine)[j].slot) by {
        forall i, j | 0 <= i < |prev| <= j < |prev + mine|
          ensures LexBefore((prev + mine)[i].slot, (prev + mine)[j].slot)
        {
          assert (prev + mine)[i] in prev;
          assert (prev + mine)[j] in mine;
        }
      }
      prev + mine
  }

  predicate IndicesBelow(ws: seq<Write>, n: nat)
  {
    forall w :: w in ws ==> w.index < n
  }

  /** The table after the stores `ws`, applied in order. */
  function ApplyWrites(tbl: seq<Slot>, ws: seq<Write>): (r: seq<Slot>)
    requires IndicesBelow(ws, |tbl|)
    ensures |r| == |tbl|
  {
    if ws == [] then tbl
    else
      var last := ws[|ws| - 1];
      assert forall w :: w in ws[..|ws| - 1] ==> w in ws;
      ApplyWrites(tbl, ws[..|ws| - 1])[last.index := last.slot]
  }

  /** Appending one store updates one entry. */
  lemma ApplyWritesSnoc(tbl: seq<Slot>, ws: seq<Write>, w: Write)
    requires IndicesBelow(ws + [w], |tbl|)
    ensures IndicesBelow(ws, |tbl|)
    ensures ApplyWrites(tbl, ws + [w]) == ApplyWrites(tbl, ws)[w.index := w.slot]
  {
    assert forall x :: x in ws ==> x in ws + [w];
    assert (ws + [w])[..|ws|] == ws;
  }

  /** Applying two runs of stores is applying their concatenation. */
  lemma {:induction false} ApplyWritesAppend(tbl: seq<Slot>, a: seq<Write>, b: seq<Write>)
    requires IndicesBelow(a + b, |tbl|)
    ensures IndicesBelow(a, |tbl|) && IndicesBelow(b, |tbl|)
    ensures ApplyWrites(tbl, a + b) == ApplyWrites(ApplyWrites(tbl, a), b)
    decreases |b|
  {
    assert forall x :: x in a ==> x in a + b;
    assert forall x :: x in b ==> x in a + b;
    if b != [] {
      var init := b[..|b| - 1];
      var last := b[|b| - 1];
      assert a + b == (a + init) + [last];
      assert b == init + [last];
      assert forall x :: x in a + init ==> x in a + b;
      ApplyWritesSnoc(tbl, a + init, last);
      ApplyWritesAppend(tbl, a, init);
      ApplyWritesSnoc(ApplyWrites(tbl, a), init, last);
      calc {
        ApplyWrites(tbl, a + b);
        ApplyWrites(tbl, (a + init) + [last]);
        ApplyWrites(tbl, a + init)[last.index := last.slot];
        ApplyWrites(ApplyWrites(tbl, a), init)[last.index := last.slot];
        ApplyWrites(ApplyWrites(tbl, a), init + [last]);
      }
    } else {
      assert a + b == a;
    }
  }

  /**
   * Each entry of the table holds the last store made to it (`j` is that store's
   * position), or its initial row when there was none (`j == -1`).
   */
  lemma {:induction false} LastStore(tbl: seq<Slot>, ws: seq<Write>, i: nat) returns (j: int)
    requires IndicesBelow(ws, |tbl|) && i < |tbl|
    ensures -1 <= j < |ws|
    ensures j == -1 ==> ApplyWrites(tbl, ws)[i] == tbl[i]
    ensures j >= 0 ==> ws[j].index == i && ApplyWrites(tbl, ws)[i] == ws[j].slot
    ensures forall k :: j < k < |ws| ==> ws[k].index != i
  {
    if ws == [] {
      j := -1;
    } else if ws[|ws| - 1].index == i {
      j := |ws| - 1;
    } else {
      var init := ws[..|ws| - 1];
      assert forall w :: w in init ==> w in ws;
      j := LastStore(tbl, init, i);
    }
  }

  function TableSize(lim: Limits): nat
  {
    lim.maxSensors * lim.maxChannels
  }

  /** Every sensor index fits in the table, since a sensor has at least one channel slot. */
  lemma SensorsBelowTable(lim: Limits)
    requires lim.maxChannels >= 1
    ensures lim.maxSensors <= TableSize(lim)
  {
    assert lim.maxSensors * lim.maxChannels == lim.maxSensors * (lim.maxChannels - 1) + lim.maxSensors;
  }

  /** The three zero-initialised by-index tables. */
  function EmptyTable(n: nat): (t: seq<Slot>)
    ensures |t| == n && forall i :: 0 <= i < n ==> t[i] == Slot(0, 0, 0)
  {
    seq(n, _ => Slot(0, 0, 0))
  }

  predicate ResolverInput(lim: Limits, ss: seq<SensorInfo>, probes: seq<seq<Probe>>)
  {
    && lim.maxChannels >= 1
    && (forall s :: 0 <= s < |ss| ==> SensorShape(lim, ss[s]))
    && ProbesFit(ss, probes)
  }

  lemma WritesBelowTable(lim: Limits, ss: seq<SensorInfo>, dev: int, probes: seq<seq<Probe>>, k: nat)
    requires ResolverInput(lim, ss, probes) && k <= |ss|
    ensures IndicesBelow(SensorWrites(ss, dev, probes, lim.maxSensors, k), TableSize(lim))
  {
    assert lim.maxSensors <= TableSize(lim) by {
      assert lim.maxSensors * lim.maxChannels == lim.maxSensors * (lim.maxChannels - 1) + lim.maxSensors;
    }
  }

  /** The by-index tables after phase one. */
  function Table(lim: Limits, ss: seq<SensorInfo>, dev: int, probes: seq<seq<Probe>>): (t: seq<Slot>)
    requires ResolverInput(lim, ss, probes)
    ensures |t| == TableSize(lim)
    ensures forall i :: 0 <= i < |t| && t[i].size != 0 ==>
      i < lim.maxSensors && FromProbe(Write(i, t[i]), ss, dev, probes, lim.maxSensors)
  {
    var ws := SensorWrites(ss, dev, probes, lim.maxSensors, |ss|);
    WritesBelowTable(lim, ss, dev, probes, |ss|);
    var t := ApplyWrites(EmptyTable(TableSize(lim)), ws);
    assert forall i :: 0 <= i < |t| && t[i].size != 0 ==>
      i < lim.maxSensors && FromProbe(Write(i, t[i]), ss, dev, probes, lim.maxSensors) by {
      forall i | 0 <= i < |t| && t[i].size != 0
        ensures i < lim.maxSensors && FromProbe(Write(i, t[i]), ss, dev, probes, lim.maxSensors)
      {
        var j := LastStore(EmptyTable(TableSize(lim)), ws, i);
        assert ws[j] in ws;
      }
    }
    t
  }

  /** Visiting one more sensor applies the stores of its channels if it belongs to the device. */
  lemma SensorWritesStep(lim: Limits, ss: seq<SensorInfo>, dev: int, probes: seq<seq<Probe>>, k: nat)
    requires ResolverInput(lim, ss, probes) && k < |ss|
    ensures IndicesBelow(SensorWrites(ss, dev, probes, lim.maxSensors, k), TableSize(lim))
    ensures IndicesBelow(ChannelWrites(k, probes[k], lim.maxSensors, ss[k].numChannels), TableSize(lim))
    ensures ApplyWrites(EmptyTable(TableSize(lim)), SensorWrites(ss, dev, probes, lim.maxSensors, k + 1)) ==
      (if ss[k].devNum == dev
       then ApplyWrites(ApplyWrites(EmptyTable(TableSize(lim)), SensorWrites(ss, dev, probes, lim.maxSensors, k)),
                        ChannelWrites(k, probes[k], lim.maxSensors, ss[k].numChannels))
       else ApplyWrites(EmptyTable(TableSize(lim)), SensorWrites(ss, dev, probes, lim.maxSensors, k)))
  {
    WritesBelowTable(lim, ss, dev, probes, k + 1);
    var prev := SensorWrites(ss, dev, probes, lim.maxSensors, k);
    var mine := ChannelWrites(k, probes[k], lim.maxSensors, ss[k].numChannels);
    if ss[k].devNum == dev {
      assert SensorWrites(ss, dev, probes, lim.maxSensors, k + 1) == prev + mine;
      ApplyWritesAppend(EmptyTable(TableSize(lim)), prev, mine);
    } else {
      assert SensorWrites(ss, dev, probes, lim.maxSensors, k + 1) == prev + [] == prev;
    }
    assert lim.maxSensors <= TableSize(lim) by {
      assert lim.maxSensors * lim.maxChannels == lim.maxSensors * (lim.maxChannels - 1) + lim.maxSensors;
    }
  }

  /** Visiting one more channel stores its row if it passes the guards. */
  lemma ChannelWritesStep(tbl: seq<Slot>, s: nat, ps: seq<Probe>, maxSensors: nat, c: nat)
    requires c < |ps| && maxSensors <= |tbl|
    ensures IndicesBelow(ChannelWrites(s, ps, maxSensors, c), |tbl|)
    ensures IndicesBelow(ChannelWrites(s, ps, maxSensors, c + 1), |tbl|)
    ensures ApplyWrites(tbl, ChannelWrites(s, ps, maxSensors, c + 1)) ==
      (if Recorded(ps[c], maxSensors)
       then ApplyWrites(tbl, ChannelWrites(s, ps, maxSensors, c))[ps[c].index.value := Slot(s, c, ps[c].size.value)]
       else ApplyWrites(tbl, ChannelWrites(s, ps, maxSensors, c)))
  {
    var ws := ChannelWrites(s, ps, maxSensors, c);
    if Recorded(ps[c], maxSensors) {
      assert ChannelWrites(s, ps, maxSensors, c + 1) == ws + [RecordOf(s, c, ps[c])];
      ApplyWritesSnoc(tbl, ws, RecordOf(s, c, ps[c]));
    } else {
      assert ChannelWrites(s, ps, maxSensors, c + 1) == ws + [] == ws;
    }
  }

  lemma TableApplies(lim: Limits, ss: seq<SensorInfo>, dev: int, probes: seq<seq<Probe>>)
    requires ResolverInput(lim, ss, probes)
    ensures IndicesBelow(SensorWrites(ss, dev, probes, lim.maxSensors, |ss|), TableSize(lim))
    ensures Table(lim, ss, dev, probes) == ApplyWrites(EmptyTable(TableSize(lim)), SensorWrites(ss, dev, probes, lim.maxSensors, |ss|))
  {
    WritesBelowTable(lim, ss, dev, probes, |ss|);
  }

  /**
   * Two channels reporting the same index: the row holds the one visited last. A recorded
   * channel's row is its own or that of a channel after it in scan order.
   */
  lemma DuplicateIndexOverwrites(lim: Limits, ss: seq<SensorInfo>, dev: int, probes: seq<seq<Probe>>, s: nat, c: nat)
    requires ResolverInput(lim, ss, probes)
    requires s < |ss| && ss[s].devNum == dev && c < ss[s].numChannels
    requires Recorded(probes[s][c], lim.maxSensors)
    ensures probes[s][c].index.value < TableSize(lim)
    ensures var row := Table(lim, ss, dev, probes)[probes[s][c].index.value];
      row == Slot(s, c, probes[s][c].size.value) || LexBefore(Slot(s, c, 0), row)
  {
    var ws := SensorWrites(ss, dev, probes, lim.maxSensors, |ss|);
    WritesBelowTable(lim, ss, dev, probes, |ss|);
    var w := RecordOf(s, c, probes[s][c]);
    assert w in ws;
    var p :| 0 <= p < |ws| && ws[p] == w;
    var j := LastStore(EmptyTable(TableSize(lim)), ws, w.index);
    assert p <= j;
    if p < j {
      assert LexBefore(ws[p].slot, ws[j].slot);
    }
  }

  /** Sum of the sizes of rows `0 .. k-1`: the offset handed to row `k` when it is non-empty. */
  function PrefixSlots(tbl: seq<Slot>, k: nat): nat
    requires k <= |tbl|
  {
    if k == 0 then 0 else PrefixSlots(tbl, k - 1) + tbl[k - 1].size
  }

  lemma {:induction false} PrefixSlotsMonotone(tbl: seq<Slot>, i: nat, j: nat)
    requires i < j <= |tbl|
    ensures PrefixSlots(tbl, i) + tbl[i].size <= PrefixSlots(tbl, j)
  {
    if j > i + 1 {
      PrefixSlotsMonotone(tbl, i, j - 1);
    }
  }

  /** Non-empty rows name a channel slot that exists. */
  predicate SlotsInRange(ss: seq<SensorInfo>, tbl: seq<Slot>)
  {
    forall i :: 0 <= i < |tbl| && tbl[i].size != 0 ==>
      tbl[i].sensor < |ss| && tbl[i].channel < |ss[tbl[i].sensor].channels|
  }

  predicate RowsDistinct(tbl: seq<Slot>)
  {
    forall i, j :: 0 <= i < |tbl| && 0 <= j < |tbl| && i != j && tbl[i].size != 0 && tbl[j].size != 0 ==>
      tbl[i].sensor != tbl[j].sensor || tbl[i].channel != tbl[j].channel
  }

  /** Only the `channels` of a sensor differ, and not in number. */
  predicate SameButChannels(a: SensorInfo, b: SensorInfo)
  {
    a.(channels := b.channels) == b && |a.channels| == |b.channels|
  }

  /** Changing only channel layouts keeps the tables well formed. */
  lemma ChannelsOnlyWellFormed(st: ControlState, ts: seq<SensorInfo>)
    requires WellFormed(st) && |ts| == |st.sensors|
    requires forall i :: 0 <= i < |ts| ==> SameButChannels(ts[i], st.sensors[i])
    ensures WellFormed(st.(sensors := ts))
  {
    assert forall i :: 0 <= i < |ts| ==> SensorShape(st.lim, st.sensors[i]);
  }

  /** The sensors after phase two has walked rows `0 .. k-1`. */
  function Place(ss: seq<SensorInfo>, tbl: seq<Slot>, k: nat): (r: seq<SensorInfo>)
    requires k <= |tbl| && SlotsInRange(ss, tbl)
    ensures |r| == |ss| && forall s :: 0 <= s < |ss| ==> SameButChannels(r[s], ss[s])
  {
    if k == 0 then ss
    else
      var prev := Place(ss, tbl, k - 1);
      var row := tbl[k - 1];
      if row.size == 0 then prev
      else
        var sn := prev[row.sensor];
        prev[row.sensor := sn.(channels := sn.channels[row.channel := Channel(PrefixSlots(tbl, k - 1), row.size)])]
  }

  /** Walking one more row places it, unless it is empty. */
  lemma PlaceStep(ss: seq<SensorInfo>, tbl: seq<Slot>, k: nat)
    requires k < |tbl| && SlotsInRange(ss, tbl)
    ensures Place(ss, tbl, k + 1) ==
      (if tbl[k].size == 0 then Place(ss, tbl, k)
       else
         var sn := Place(ss, tbl, k)[tbl[k].sensor];
         Place(ss, tbl, k)[tbl[k].sensor := sn.(channels := sn.channels[tbl[k].channel := Channel(PrefixSlots(tbl, k), tbl[k].size)])])
  {
  }

  lemma {:induction false} PlacedAt(ss: seq<SensorInfo>, tbl: seq<Slot>, k: nat, i: nat)
    requires k <= |tbl| && SlotsInRange(ss, tbl) && RowsDistinct(tbl)
    requires i < k && tbl[i].size != 0
    ensures Place(ss, tbl, k)[tbl[i].sensor].channels[tbl[i].channel] == Channel(PrefixSlots(tbl, i), tbl[i].size)
  {
    if i < k - 1 {
      PlacedAt(ss, tbl, k - 1, i);
      var r, last := tbl[i], tbl[k - 1];
      assert last.size != 0 ==> last.sensor != r.sensor || last.channel != r.channel;
    }
  }

  lemma {:induction false} NotPlaced(ss: seq<SensorInfo>, tbl: seq<Slot>, k: nat, s: nat, c: nat)
    requires k <= |tbl| && SlotsInRange(ss, tbl)
    requires s < |ss| && c < |ss[s].channels|
    requires forall i :: 0 <= i < k && tbl[i].size != 0 ==> tbl[i].sensor != s || tbl[i].channel != c
    ensures Place(ss, tbl, k)[s].channels[c] == ss[s].channels[c]
  {
    if k > 0 {
      NotPlaced(ss, tbl, k - 1, s, c);
    }
  }

  /** Sensor `sn` after visiting its channels `0 .. k-1`: the zeroing of control.c:116-118. */
  function ZeroSensor(sn: SensorInfo, ps: seq<Probe>, k: nat): (r: SensorInfo)
    requires k <= |ps| && k <= |sn.channels|
    ensures SameButChannels(r, sn)
    ensures forall c :: 0 <= c < |sn.channels| ==>
      r.channels[c] == (if c < k && ZeroesSize(ps[c]) then sn.channels[c].(size := 0) else sn.channels[c])
  {
    if k == 0 then sn
    else
      var prev := ZeroSensor(sn, ps, k - 1);
      if ZeroesSize(ps[k - 1]) then prev.(channels := prev.channels[k - 1 := prev.channels[k - 1].(size := 0)])
      else prev
  }

  /** The sensors after phase one has visited sensors `0 .. k-1` in full. */
  function ZeroSensors(ss: seq<SensorInfo>, dev: int, probes: seq<seq<Probe>>, k: nat): (r: seq<SensorInfo>)
    requires ProbesFit(ss, probes) && k <= |ss|
    requires forall s :: 0 <= s < |ss| ==> ss[s].numChannels <= |ss[s].channels|
    ensures |r| == |ss| && forall s :: 0 <= s < |ss| ==> SameButChannels(r[s], ss[s])
  {
    seq(|ss|, s requires 0 <= s < |ss| =>
      if s < k && ss[s].devNum == dev then ZeroSensor(ss[s], probes[s], ss[s].numChannels) else ss[s])
  }

  /** Visiting one more sensor zeroes that sensor's channels if it belongs to the device. */
  lemma ZeroSensorsStep(ss: seq<SensorInfo>, dev: int, probes: seq<seq<Probe>>, k: nat)
    requires ProbesFit(ss, probes) && k < |ss|
    requires forall s :: 0 <= s < |ss| ==> ss[s].numChannels <= |ss[s].channels|
    ensures ZeroSensors(ss, dev, probes, k + 1) ==
      (if ss[k].devNum == dev then ZeroSensors(ss, dev, probes, k)[k := ZeroSensor(ss[k], probes[k], ss[k].numChannels)]
       else ZeroSensors(ss, dev, probes, k))
  {
  }

  /** Every non-empty row names an existing channel slot, and no channel occupies two non-empty rows. */
  lemma TableInRange(lim: Limits, ss: seq<SensorInfo>, dev: int, probes: seq<seq<Probe>>)
    requires ResolverInput(lim, ss, probes)
    ensures SlotsInRange(ss, Table(lim, ss, dev, probes))
    ensures SlotsInRange(ZeroSensors(ss, dev, probes, |ss|), Table(lim, ss, dev, probes))
    ensures RowsDistinct(Table(lim, ss, dev, probes))
  {
  }

  /** The sensor table after `refresh_sensor_report_maps(dev)`. */
  function Refresh(lim: Limits, ss: seq<SensorInfo>, dev: int, probes: seq<seq<Probe>>): (r: seq<SensorInfo>)
    requires ResolverInput(lim, ss, probes)
    ensures |r| == |ss| && forall s :: 0 <= s < |ss| ==> SameButChannels(r[s], ss[s])
  {
    var zs := ZeroSensors(ss, dev, probes, |ss|);
    TableInRange(lim, ss, dev, probes);
    Place(zs, Table(lim, ss, dev, probes), TableSize(lim))
  }

  /**
   * Layout of a recorded channel: each non-empty row `i` gives its channel the offset equal
   * to the total size of the rows before it, and the size stored in the row.
   */
  lemma RefreshPlacesRow(lim: Limits, ss: seq<SensorInfo>, dev: int, probes: seq<seq<Probe>>, i: nat)
    requires ResolverInput(lim, ss, probes) && i < TableSize(lim)
    requires Table(lim, ss, dev, probes)[i].size != 0
    ensures var row := Table(lim, ss, dev, probes)[i];
      Refresh(lim, ss, dev, probes)[row.sensor].channels[row.channel] == Channel(PrefixSlots(Table(lim, ss, dev, probes), i), row.size)
  {
    TableInRange(lim, ss, dev, probes);
    PlacedAt(ZeroSensors(ss, dev, probes, |ss|), Table(lim, ss, dev, probes), TableSize(lim), i);
  }

  /** The byte ranges of two non-empty rows never overlap, and they follow index order. */
  lemma RowsDoNotOverlap(lim: Limits, ss: seq<SensorInfo>, dev: int, probes: seq<seq<Probe>>, i: nat, j: nat)
    requires ResolverInput(lim, ss, probes) && i < j < TableSize(lim)
    requires Table(lim, ss, dev, probes)[i].size != 0 && Table(lim, ss, dev, probes)[j].size != 0
    ensures var tbl := Table(lim, ss, dev, probes);
      var ri := Refresh(lim, ss, dev, probes)[tbl[i].sensor].channels[tbl[i].channel];
      var rj := Refresh(lim, ss, dev, probes)[tbl[j].sensor].channels[tbl[j].channel];
      ri.offset + ri.size <= rj.offset
  {
    var tbl := Table(lim, ss, dev, probes);
    RefreshPlacesRow(lim, ss, dev, probes, i);
    RefreshPlacesRow(lim, ss, dev, probes, j);
    PrefixSlotsMonotone(tbl, i, j);
  }

  /**
   * A channel of the device that fails a guard gets no row: its offset stays, and its
   * size is zero when the `_en` read returned non-zero, unchanged otherwise.
   */
  lemma RefreshRejected(lim: Limits, ss: seq<SensorInfo>, dev: int, probes: seq<seq<Probe>>, s: nat, c: nat)
    requires ResolverInput(lim, ss, probes)
    requires s < |ss| && ss[s].devNum == dev && c < ss[s].numChannels
    requires !Recorded(probes[s][c], lim.maxSensors)
    ensures Refresh(lim, ss, dev, probes)[s].channels[c] ==
      (if ZeroesSize(probes[s][c]) then ss[s].channels[c].(size := 0) else ss[s].channels[c])
  {
    var tbl := Table(lim, ss, dev, probes);
    TableInRange(lim, ss, dev, probes);
    NotPlaced(ZeroSensors(ss, dev, probes, |ss|), tbl, TableSize(lim), s, c);
  }

  /** Sensors of other devices are left exactly as they were. */
  lemma RefreshOtherDevice(lim: Limits, ss: seq<SensorInfo>, dev: int, probes: seq<seq<Probe>>, s: nat)
    requires ResolverInput(lim, ss, probes)
    requires s < |ss| && ss[s].devNum != dev
    ensures Refresh(lim, ss, dev, probes)[s] == ss[s]
  {
    var tbl := Table(lim, ss, dev, probes);
    TableInRange(lim, ss, dev, probes);
    var zs := ZeroSensors(ss, dev, probes, |ss|);
    forall c | 0 <= c < |ss[s].channels|
      ensures Refresh(lim, ss, dev, probes)[s].channels[c] == ss[s].channels[c]
    {
      NotPlaced(zs, tbl, TableSize(lim), s, c);
    }
  }
}
