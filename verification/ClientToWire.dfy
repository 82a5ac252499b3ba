// From the client's flat frame to the output RT frame of one device, and from its input RT frame
// to the client: gateway buffers, bridge, process-data map, and the running offsets.
module ClientToWire {
  import opened Bytes
  import opened Config
  import opened GatewayBuffers
  import opened GatewayServer
  import opened Bridge
  import opened IocrLayout
  import opened IocrAgreement
  import opened OutputFrame

  // The rows of a process-data map that carry outputs
  function Carriers(dos: seq<DoMap>): seq<DoMap>
  {
    if dos == [] then [] else (if dos[0].outLen == 0 then [] else [dos[0]]) + Carriers(dos[1..])
  }

  // They are the sub-modules with output, in topology order, each under its own slot and subslot.
  ghost predicate Describes(dos: seq<DoMap>, slots: seq<Submodule>)
  {
    var rows, owners := Carriers(dos), WithOutput(slots, true);
    && |rows| == |owners|
    && (forall k | 0 <= k < |rows| ::
          rows[k].slot == owners[k].slot && rows[k].subslot == owners[k].subslot)
    && (forall j, k | 0 <= j < k < |rows| :: (rows[j].slot, rows[j].subslot) != (rows[k].slot, rows[k].subslot))
  }

  // The configured output lengths are those of the sub-modules. The map's lengths come from the
  // configuration, the sub-modules' from the GSDML.
  ghost predicate LengthsAgree(dos: seq<DoMap>, slots: seq<Submodule>)
    requires Describes(dos, slots)
  {
    forall k | 0 <= k < |Carriers(dos)| :: Carriers(dos)[k].outLen == WithOutput(slots, true)[k].outputLength
  }

  // What the cyclic controller holds per sub-module once it was handed hs
  function PayloadOf(hs: seq<Handed>): Payload
  {
    if hs == [] then map[]
    else
      var h := hs[|hs| - 1];
      PayloadOf(hs[..|hs| - 1])[(h.slot, h.subslot) := h.chunk]
  }

  // The process data of a frame, sub-module by sub-module
  function ProcessData(slots: seq<Submodule>, payload: Payload): bytes
  {
    var owners := WithOutput(slots, true);
    Flatten(seq(|owners|, k requires 0 <= k < |owners| => DataOf(payload, owners[k].slot, owners[k].subslot)))
  }

  lemma {:induction false} SplitRows(dos: seq<DoMap>, data: bytes)
    ensures var hs, rows := Split(dos, data), Carriers(dos);
            && |hs| == |rows|
            && forall k | 0 <= k < |rows| ::
                 hs[k].slot == rows[k].slot && hs[k].subslot == rows[k].subslot && |hs[k].chunk| == rows[k].outLen
    decreases |dos|
  {
    hide PadCut;
    if dos != [] {
      SplitRows(dos[1..], if dos[0].outLen == 0 then data else data[Min(dos[0].outLen, |data|)..]);
    }
  }

  lemma {:induction false} PayloadHolds(hs: seq<Handed>)
    requires forall j, k | 0 <= j < k < |hs| :: (hs[j].slot, hs[j].subslot) != (hs[k].slot, hs[k].subslot)
    ensures forall k | 0 <= k < |hs| :: (hs[k].slot, hs[k].subslot) in PayloadOf(hs)
    ensures forall k | 0 <= k < |hs| :: PayloadOf(hs)[(hs[k].slot, hs[k].subslot)] == hs[k].chunk
  {
    if hs != [] { PayloadHolds(hs[..|hs| - 1]); }
  }

  // Chunks handed by row are the data of the sub-modules, all of it and nothing else. They fill
  // the sub-modules' data ranges exactly iff the configured lengths are the sub-modules'.
  lemma HandedIsProcessData(dos: seq<DoMap>, slots: seq<Submodule>, data: bytes)
    requires Describes(dos, slots)
    ensures var payload := PayloadOf(Split(dos, data));
            && ProcessData(slots, payload) == Flatten(Chunks(Split(dos, data)))
            && (Complete(slots, payload) <==> LengthsAgree(dos, slots))
  {
    var hs, rows, owners := Split(dos, data), Carriers(dos), WithOutput(slots, true);
    SplitRows(dos, data);
    PayloadHolds(hs);
    var payload := PayloadOf(hs);
    WithOutputMembers(slots, true);
    if LengthsAgree(dos, slots) {
      forall s | s in slots && s.HasOutput()
        ensures (s.slot, s.subslot) in payload && |payload[(s.slot, s.subslot)]| == s.outputLength
      {
        var k :| 0 <= k < |owners| && owners[k] == s;
        assert (hs[k].slot, hs[k].subslot) == (s.slot, s.subslot);
      }
    } else {
      var k :| 0 <= k < |rows| && rows[k].outLen != owners[k].outputLength;
      assert owners[k] in slots && owners[k].HasOutput();
      assert payload[(hs[k].slot, hs[k].subslot)] == hs[k].chunk;
    }
    assert forall k | 0 <= k < |owners| :: DataOf(payload, owners[k].slot, owners[k].subslot) == hs[k].chunk;
    assert seq(|owners|, k requires 0 <= k < |owners| => DataOf(payload, owners[k].slot, owners[k].subslot))
        == Chunks(hs);
  }

  // After a flat client frame at least as long as the configured total, the next pass hands an
  // online device exactly the frame's bytes for it, sub-module by sub-module. Where the configured
  // lengths are the sub-modules', they become the data segments of its output RT frame, in order;
  // IOPS, IOCS and padding lie where the declared layout has them.
  lemma ClientBytesOnTheWire(devices: seq<DeviceState>, configs: seq<DeviceConfig>, outs: seq<bytes>, frame: bytes,
                             i: nat, slots: seq<Submodule>, c: IocrConfig, iops: byte, iocs: byte, order: seq<Write>)
    requires Matches(devices, configs) && i < |devices| && Online(devices[i])
    requires var ns := OutputLengths(configs); Bounded(ns, outs) && Total(ns) <= |frame|
    requires devices[i].dos != [] && Describes(devices[i].dos, slots) && Runs(c, OutputLayout(slots), true)
    requires var held := Apply(false, OutputLengths(configs), outs, frame)[i];
             multiset(order) == multiset(RunningWrites(c.objects, PayloadOf(NewHanded(devices[i], held)), iops, iocs))
    ensures var ns := OutputLengths(configs);
            var payload := PayloadOf(NewHanded(devices[i], Apply(false, ns, outs, frame)[i]));
            && Offset(ns, i) <= Offset(ns, i + 1) <= |frame|
            && ProcessData(slots, payload) == frame[Offset(ns, i)..Offset(ns, i + 1)]
            && (LengthsAgree(devices[i].dos, slots) ==>
                  && Within(order, c.dataLength)
                  && PutAll(Zeros(c.dataLength), order)
                     == Segments(slots, payload, iops, iocs) + TrailingStatus(slots, iocs)
                        + Zeros(c.dataLength - OutputLayout(slots).used))
  {
    hide FlatApply, OutputLengths, Offset, Describes, LengthsAgree, Split, PayloadOf, ProcessData, RunningWrites,
         Segments, TrailingStatus, OutputLayout, PutAll, Runs, Complete, NewHanded, Flatten, Chunks;
    var ns := OutputLengths(configs);
    var d, held := devices[i], Apply(false, ns, outs, frame)[i];
    DeviceOutputsConserved(devices, configs, outs, frame, i);
    OffsetMonotone(ns, i + 1, |ns|);
    OffsetMonotone(ns, i, i + 1);
    FullPayload(ns, outs, frame);
    assert |held| == d.config.TotalOutputLength();
    NewHandedIs(d, held);
    var payload := PayloadOf(Split(d.dos, held));
    HandedIsProcessData(d.dos, slots, held);
    if LengthsAgree(d.dos, slots) {
      OutputFrameImage(slots, c, payload, iops, iocs, order);
    }
  }

  lemma NewHandedIs(d: DeviceState, data: bytes)
    requires Online(d) && d.dos != [] && Mapped(d.dos, d.config) && |data| == d.config.TotalOutputLength()
    ensures NewHanded(d, data) == Split(d.dos, data)
  {
    hide Split, ReadRaw, DeviceConfig.TotalInputLength;
    if data == [] {
      MappedTotals(d.dos, d.config.Effective());
      NothingToSplit(d.dos);
    } else {
      assert PassDevice(d, data).handed == d.handed + Split(d.dos, data);
    }
  }

  lemma {:induction false} NothingToSplit(dos: seq<DoMap>)
    requires OutTotal(dos) == 0
    ensures Split(dos, []) == []
  {
    if dos != [] { NothingToSplit(dos[1..]); }
  }

  // ---------- from the input RT frame to the client ----------

  // What the cyclic controller keeps of an input frame: per configured object, the bytes at its
  // offset; a later object of the same sub-module replaces an earlier one.
  function Received(frame: bytes, objects: seq<IoDataObject>): (hs: seq<Handed>)
    ensures |hs| == |objects|
    ensures forall k | 0 <= k < |objects| ::
              hs[k] == Handed(objects[k].slot, objects[k].subslot,
                              Slice(frame, objects[k].frameOffset, objects[k].frameOffset + objects[k].dataLength))
  {
    seq(|objects|, k requires 0 <= k < |objects| =>
      var o := objects[k];
      Handed(o.slot, o.subslot, Slice(frame, o.frameOffset, o.frameOffset + o.dataLength)))
  }

  function CutInputs(frame: bytes, c: IocrConfig): Payload { PayloadOf(Received(frame, c.objects)) }

  // The data ranges of a frame, in layout order; what a short frame lacks counts as zeros
  function InputData(frame: bytes, objects: seq<DataObject>): bytes
  {
    if objects == [] then []
    else
      var o := objects[0];
      PadCut(Slice(frame, o.offset, o.offset + o.length), o.length) + InputData(frame, objects[1..])
  }

  // (slot, subslot, length) of what carries input data, in order
  function InputRows(dos: seq<DoMap>): seq<(nat, nat, nat)>
  {
    if dos == [] then []
    else (if dos[0].inLen == 0 then [] else [(dos[0].slot, dos[0].subslot, dos[0].inLen)]) + InputRows(dos[1..])
  }

  function ObjectRows(objects: seq<DataObject>): seq<(nat, nat, nat)>
  {
    if objects == [] then []
    else
      var o := objects[0];
      (if o.length == 0 then [] else [(o.slot, o.subslot, o.length)]) + ObjectRows(objects[1..])
  }

  function RowData(rows: seq<(nat, nat, nat)>, inputs: Payload): bytes
  {
    if rows == [] then []
    else PadCut(InputOf(inputs, rows[0].0, rows[0].1), rows[0].2) + RowData(rows[1..], inputs)
  }

  lemma {:induction false} GatherIsRowData(dos: seq<DoMap>, inputs: Payload)
    ensures Gather(dos, inputs) == RowData(InputRows(dos), inputs)
  {
    hide PadCut, InputOf;
    if dos != [] {
      GatherIsRowData(dos[1..], inputs);
      if dos[0].inLen == 0 {
        NoInput(InputOf(inputs, dos[0].slot, dos[0].subslot));
        assert InputRows(dos) == InputRows(dos[1..]);
      } else {
        assert InputRows(dos)[1..] == InputRows(dos[1..]);
      }
    }
  }

  lemma NoInput(d: bytes)
    ensures PadCut(d, 0) == []
  {
  }

  lemma {:induction false} InputDataIsRowData(frame: bytes, objects: seq<DataObject>, inputs: Payload)
    requires forall k | 0 <= k < |objects| ::
               InputOf(inputs, objects[k].slot, objects[k].subslot)
               == Slice(frame, objects[k].offset, objects[k].offset + objects[k].length)
    ensures InputData(frame, objects) == RowData(ObjectRows(objects), inputs)
  {
    hide PadCut, InputOf, Slice;
    if objects != [] {
      var o := objects[0];
      InputDataIsRowData(frame, objects[1..], inputs);
      if o.length == 0 {
        NoInput(Slice(frame, o.offset, o.offset + o.length));
        assert ObjectRows(objects) == ObjectRows(objects[1..]);
      } else {
        assert ObjectRows(objects)[1..] == ObjectRows(objects[1..]);
      }
    }
  }

  ghost predicate DistinctSubmodules(slots: seq<Submodule>)
  {
    forall j, k | 0 <= j < k < |slots| :: (slots[j].slot, slots[j].subslot) != (slots[k].slot, slots[k].subslot)
  }

  lemma CutAtLayout(slots: seq<Submodule>, c: IocrConfig, frame: bytes)
    requires Runs(c, InputLayout(slots), false) && DistinctSubmodules(slots)
    ensures var l := InputLayout(slots);
            forall k | 0 <= k < |l.objects| ::
              InputOf(CutInputs(frame, c), l.objects[k].slot, l.objects[k].subslot)
              == Slice(frame, l.objects[k].offset, l.objects[k].offset + l.objects[k].length)
  {
    hide InputLayout, Slice, PayloadOf;
    LayoutOwners(slots);
    var l, hs := InputLayout(slots), Received(frame, c.objects);
    assert forall k | 0 <= k < |hs| :: (hs[k].slot, hs[k].subslot) == (slots[k].slot, slots[k].subslot);
    PayloadHolds(hs);
    forall k | 0 <= k < |l.objects|
      ensures InputOf(CutInputs(frame, c), l.objects[k].slot, l.objects[k].subslot)
           == Slice(frame, l.objects[k].offset, l.objects[k].offset + l.objects[k].length)
    {
      assert (hs[k].slot, hs[k].subslot) in PayloadOf(hs);
    }
  }

  // For every input frame received: after a pass the gateway's buffer for an online device holds
  // the frame's data ranges, at the offsets declared to the device, in topology order.
  lemma DriveBytesToClient(d: DeviceState, inp: bytes, slots: seq<Submodule>, c: IocrConfig, frame: bytes)
    requires Suited(d, d.config) && Online(d) && d.dos != [] && |inp| == d.config.TotalInputLength()
    requires Runs(c, InputLayout(slots), false) && DistinctSubmodules(slots)
    requires InputRows(d.dos) == ObjectRows(InputLayout(slots).objects) && d.inputs == CutInputs(frame, c)
    ensures PassBuffer(d, inp) == InputData(frame, InputLayout(slots).objects)
  {
    hide Suited, PassBuffer, Gather, InputData, RowData, InputRows, ObjectRows, InputLayout, Runs, CutInputs,
         DistinctSubmodules;
    DeviceInputConserved(d, inp);
    GatherIsRowData(d.dos, d.inputs);
    CutAtLayout(slots, c, frame);
    InputDataIsRowData(frame, InputLayout(slots).objects, d.inputs);
  }

  // Were the IOCS entries configured for the input direction as well, every sub-module with
  // output would lose its input data: its IOCS entry replaces them by nothing.
  lemma IocsEntriesLoseInput(slots: seq<Submodule>, c: IocrConfig, frame: bytes, s: Submodule)
    requires Runs(c, InputLayout(slots), true) && s in slots && s.HasOutput()
    ensures InputOf(CutInputs(frame, c), s.slot, s.subslot) == []
  {
    hide InputLayout, PayloadOf;
    LayoutOwners(slots);
    WithOutputMembers(slots, true);
    var l, hs, owners := InputLayout(slots), Received(frame, c.objects), WithOutput(slots, true);
    var n := |l.objects|;
    var k :| 0 <= k < |owners| && owners[k] == s;
    IocsReceiveNothing(l, c, frame);
    assert (hs[n + k].slot, hs[n + k].subslot) == (s.slot, s.subslot);
    LastWins(hs, n, n + k);
  }

  lemma IocsReceiveNothing(l: CrLayout, c: IocrConfig, frame: bytes)
    requires Runs(c, l, true)
    ensures var hs, n := Received(frame, c.objects), |l.objects|;
            |hs| == n + |l.iocs| && forall m | n <= m < |hs| :: hs[m].chunk == []
  {
    var hs, n := Received(frame, c.objects), |l.objects|;
    forall m | n <= m < |hs| ensures hs[m].chunk == [] {
      var o, entry := c.objects[n + (m - n)], l.iocs[m - n];
      assert o == IoDataObject(entry.slot, entry.subslot, 0, 0, 0, entry.offset);
      assert o.dataLength == 0 && hs[m].chunk == Slice(frame, o.frameOffset, o.frameOffset + o.dataLength);
    }
  }

  lemma {:induction false} LastWins(hs: seq<Handed>, from: nat, k: nat)
    requires from <= k < |hs| && forall m | from <= m < |hs| :: hs[m].chunk == []
    ensures InputOf(PayloadOf(hs), hs[k].slot, hs[k].subslot) == []
  {
    var n := |hs| - 1;
    if k < n { LastWins(hs[..n], from, k); }
  }
}
