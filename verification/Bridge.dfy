// bridge.py and the raw output/input path of profinet_ctrl.py: one pass between the gateway's
// buffers and the drive objects of the connected devices.
module Bridge {
  import opened Bytes
  import opened Config
  import opened GatewayBuffers
  import opened GatewayServer

  // One row of a device's process-data map
  datatype DoMap = DoMap(slot: nat, subslot: nat, outLen: nat, inLen: nat)

  // A chunk given to the cyclic controller for one drive object
  datatype Handed = Handed(slot: nat, subslot: nat, chunk: bytes)

  // `handed` logs set_output_data in order; `inputs` is what get_input_data would return
  datatype DeviceState = DeviceState(config: DeviceConfig, connected: bool, hasCyclic: bool,
                                     slot: nat, subslot: nat, dos: seq<DoMap>,
                                     handed: seq<Handed>, inputs: map<(nat, nat), bytes>,
                                     stw1: u16, nsoll: u16, zsw1: u16, nist: u16)

  predicate Online(d: DeviceState) { d.connected && d.hasCyclic }

  // ---------- splitting outputs over the rack ----------

  function Split(dos: seq<DoMap>, data: bytes): seq<Handed>
  {
    if dos == [] then []
    else if dos[0].outLen == 0 then Split(dos[1..], data)
    else
      var n := dos[0].outLen;
      [Handed(dos[0].slot, dos[0].subslot, PadCut(data, n))] + Split(dos[1..], data[Min(n, |data|)..])
  }

  function Chunks(hs: seq<Handed>): (cs: seq<bytes>)
    ensures |cs| == |hs| && forall k | 0 <= k < |hs| :: cs[k] == hs[k].chunk
  {
    seq(|hs|, k requires 0 <= k < |hs| => hs[k].chunk)
  }

  function OutTotal(dos: seq<DoMap>): nat { if dos == [] then 0 else dos[0].outLen + OutTotal(dos[1..]) }

  function InTotal(dos: seq<DoMap>): nat { if dos == [] then 0 else dos[0].inLen + InTotal(dos[1..]) }

  lemma PadCutSplit(d: bytes, a: nat, b: nat)
    ensures PadCut(d, a + b) == PadCut(d, a) + PadCut(d[Min(a, |d|)..], b)
  {
    var l, r := PadCut(d, a + b), PadCut(d, a) + PadCut(d[Min(a, |d|)..], b);
    assert |l| == |r|;
    assert forall i | 0 <= i < |l| :: l[i] == (if i < |d| then d[i] else 0) == r[i];
  }

  lemma FlattenCons(h: Handed, hs: seq<Handed>)
    ensures Flatten(Chunks([h] + hs)) == h.chunk + Flatten(Chunks(hs))
  {
    assert Chunks([h] + hs)[1..] == Chunks(hs);
  }

  // The chunks concatenate to the data, padded or cut to the rack's total.
  lemma {:induction false} SplitConserves(dos: seq<DoMap>, data: bytes)
    ensures Flatten(Chunks(Split(dos, data))) == PadCut(data, OutTotal(dos))
    decreases |dos|
  {
    hide PadCut;
    if dos == [] {
      assert Chunks(Split(dos, data)) == [] && PadCut(data, 0) == [];
    } else if dos[0].outLen == 0 {
      SplitConserves(dos[1..], data);
    } else {
      var n := dos[0].outLen;
      var rest := data[Min(n, |data|)..];
      SplitConserves(dos[1..], rest);
      FlattenCons(Handed(dos[0].slot, dos[0].subslot, PadCut(data, n)), Split(dos[1..], rest));
      PadCutSplit(data, n, OutTotal(dos[1..]));
    }
  }

  // ---------- gathering inputs from the rack ----------

  function InputOf(inputs: map<(nat, nat), bytes>, slot: nat, subslot: nat): bytes
  {
    if (slot, subslot) in inputs then inputs[(slot, subslot)] else []
  }

  function Gather(dos: seq<DoMap>, inputs: map<(nat, nat), bytes>): (d: bytes)
    ensures |d| == InTotal(dos)
  {
    if dos == [] then []
    else PadCut(InputOf(inputs, dos[0].slot, dos[0].subslot), dos[0].inLen) + Gather(dos[1..], inputs)
  }

  // ---------- byte by byte ----------

  // Of the first k rows: how many carry outputs, and how many output and input bytes they have
  function RowsBefore(dos: seq<DoMap>, k: nat): nat
    requires k <= |dos|
  {
    if k == 0 then 0 else RowsBefore(dos, k - 1) + if dos[k - 1].outLen > 0 then 1 else 0
  }

  function OutBefore(dos: seq<DoMap>, k: nat): nat
    requires k <= |dos|
  {
    if k == 0 then 0 else OutBefore(dos, k - 1) + dos[k - 1].outLen
  }

  function InBefore(dos: seq<DoMap>, k: nat): nat
    requires k <= |dos|
  {
    if k == 0 then 0 else InBefore(dos, k - 1) + dos[k - 1].inLen
  }

  // Every row with outputs is handed, under its slot and subslot, its bytes of the data, and zeros
  // where the data ends early; no other row is handed anything.
  ghost predicate HandsRows(hs: seq<Handed>, dos: seq<DoMap>, data: bytes)
  {
    && |hs| == RowsBefore(dos, |dos|)
    && forall k | 0 <= k < |dos| && dos[k].outLen > 0 ::
         RowsBefore(dos, k) < |hs| && HandsRow(hs[RowsBefore(dos, k)], dos[k], OutBefore(dos, k), data)
  }

  ghost predicate HandsRow(h: Handed, row: DoMap, from: nat, data: bytes)
  {
    && h.slot == row.slot && h.subslot == row.subslot && |h.chunk| == row.outLen
    && forall p | 0 <= p < row.outLen :: h.chunk[p] == if from + p < |data| then data[from + p] else 0
  }

  lemma {:induction false} SplitCount(dos: seq<DoMap>, data: bytes, k: nat)
    requires k <= |dos|
    ensures RowsBefore(dos, k) + |Split(dos[k..], data[Min(OutBefore(dos, k), |data|)..])| == RowsBefore(dos, |dos|)
    decreases |dos| - k
  {
    hide PadCut;
    if k < |dos| {
      SplitNext(dos, k, data, OutBefore(dos, k));
      SplitCount(dos, data, k + 1);
    }
  }

  lemma {:induction false} SplitRow(dos: seq<DoMap>, data: bytes, k: nat, j: nat)
    requires k <= j < |dos| && dos[j].outLen > 0
    ensures var hs := Split(dos[k..], data[Min(OutBefore(dos, k), |data|)..]);
            && RowsBefore(dos, k) <= RowsBefore(dos, j) < RowsBefore(dos, k) + |hs|
            && HandsRow(hs[RowsBefore(dos, j) - RowsBefore(dos, k)], dos[j], OutBefore(dos, j), data)
    decreases j - k
  {
    hide PadCut, HandsRow, Slice;
    SplitNext(dos, k, data, OutBefore(dos, k));
    if k == j {
      ChunkIsRow(dos[k], OutBefore(dos, k), data);
    } else {
      SplitRow(dos, data, k + 1, j);
    }
  }

  lemma ChunkIsRow(row: DoMap, from: nat, data: bytes)
    ensures HandsRow(Handed(row.slot, row.subslot, PadCut(Slice(data, from, from + row.outLen), row.outLen)),
                     row, from, data)
  {
  }

  lemma SplitHandsRows(dos: seq<DoMap>, data: bytes)
    ensures HandsRows(Split(dos, data), dos, data)
  {
    hide PadCut, HandsRow;
    assert dos[0..] == dos && data[Min(OutBefore(dos, 0), |data|)..] == data;
    SplitCount(dos, data, 0);
    forall k | 0 <= k < |dos| && dos[k].outLen > 0
      ensures RowsBefore(dos, k) < |Split(dos, data)|
              && HandsRow(Split(dos, data)[RowsBefore(dos, k)], dos[k], OutBefore(dos, k), data)
    {
      SplitRow(dos, data, 0, k);
    }
  }

  // Byte p of row k lies behind the bytes of the rows before it: the received byte where there is
  // one, and 0 elsewhere.
  ghost predicate HoldsRows(s: bytes, dos: seq<DoMap>, inputs: map<(nat, nat), bytes>)
  {
    forall k, p | 0 <= k < |dos| && 0 <= p < dos[k].inLen && InBefore(dos, k) + p < |s| ::
      s[InBefore(dos, k) + p] == ReceivedByte(inputs, dos[k].slot, dos[k].subslot, p)
  }

  function ReceivedByte(inputs: map<(nat, nat), bytes>, slot: nat, subslot: nat, p: nat): byte
  {
    if (slot, subslot) in inputs && p < |inputs[(slot, subslot)]| then inputs[(slot, subslot)][p] else 0
  }

  lemma {:induction false} GatherByte(dos: seq<DoMap>, inputs: map<(nat, nat), bytes>, k: nat, j: nat, p: nat)
    requires k <= j < |dos| && p < dos[j].inLen
    ensures var s := Gather(dos[k..], inputs);
            && InBefore(dos, k) <= InBefore(dos, j) && InBefore(dos, j) - InBefore(dos, k) + p < |s|
            && s[InBefore(dos, j) - InBefore(dos, k) + p] == ReceivedByte(inputs, dos[j].slot, dos[j].subslot, p)
    decreases j - k
  {
    hide PadCut, InputOf, ReceivedByte;
    assert dos[k..][0] == dos[k] && dos[k..][1..] == dos[k + 1..];
    if k < j {
      GatherByte(dos, inputs, k + 1, j, p);
    } else {
      PartByte(inputs, dos[j], p);
    }
  }

  lemma PartByte(inputs: map<(nat, nat), bytes>, row: DoMap, p: nat)
    requires p < row.inLen
    ensures PadCut(InputOf(inputs, row.slot, row.subslot), row.inLen)[p]
         == ReceivedByte(inputs, row.slot, row.subslot, p)
  {
  }

  lemma GatherHoldsRows(dos: seq<DoMap>, inputs: map<(nat, nat), bytes>, length: nat)
    ensures HoldsRows(PadCut(Gather(dos, inputs), length), dos, inputs)
  {
    hide Gather, ReceivedByte;
    assert dos[0..] == dos;
    forall k, p | 0 <= k < |dos| && 0 <= p < dos[k].inLen && InBefore(dos, k) + p < length
      ensures PadCut(Gather(dos, inputs), length)[InBefore(dos, k) + p]
           == ReceivedByte(inputs, dos[k].slot, dos[k].subslot, p)
    {
      GatherByte(dos, inputs, 0, k, p);
    }
  }

  // ---------- one device's share of a pass ----------

  function ReadRaw(d: DeviceState, length: nat): (r: bytes)
    ensures |r| == length
  {
    if !d.connected || !d.hasCyclic then Zeros(length)
    else if d.dos == [] then PadCut(InputOf(d.inputs, d.slot, d.subslot), length)
    else PadCut(Gather(d.dos, d.inputs), length)
  }

  function WriteRaw(d: DeviceState, data: bytes): DeviceState
  {
    if !d.connected || !d.hasCyclic then d
    else if d.dos == [] then d.(handed := d.handed + [Handed(d.slot, d.subslot, data)])
    else d.(handed := d.handed + Split(d.dos, data))
  }

  function PassOutputs(d: DeviceState, data: bytes): DeviceState
  {
    if d.config.TotalOutputLength() == 0 || data == [] then d
    else
      var w := WriteRaw(d, data);
      if |data| >= 4 then w.(stw1 := GetBe16(data, 0), nsoll := GetBe16(data, 2)) else w
  }

  function PassInputs(d: DeviceState): DeviceState
  {
    var n := d.config.TotalInputLength();
    if n >= 4 then
      var inp := ReadRaw(d, n);
      d.(zsw1 := GetBe16(inp, 0), nist := GetBe16(inp, 2))
    else d
  }

  function PassDevice(d: DeviceState, data: bytes): DeviceState
  {
    if d.connected then PassInputs(PassOutputs(d, data)) else d
  }

  function PassBuffer(d: DeviceState, inp: bytes): bytes
  {
    var n := d.config.TotalInputLength();
    if d.connected && n > 0 then SetHead(inp, ReadRaw(d, n)) else inp
  }

  // The inputs a pass forwards do not depend on the outputs it has just written.
  lemma OutputsKeepInputs(d: DeviceState, data: bytes, n: nat)
    ensures ReadRaw(PassOutputs(d, data), n) == ReadRaw(d, n)
    ensures PassOutputs(d, data).config == d.config && PassOutputs(d, data).connected == d.connected
  {
  }

  // ---------- the controller and the bridge ----------

  class ProfinetCtrl {
    var devices: seq<DeviceState>

    constructor (devices: seq<DeviceState>)
      ensures this.devices == devices
    {
      this.devices := devices;
    }

    method WriteRawOutputs(idx: nat, data: bytes)
      modifies this
      ensures devices == if idx < |old(devices)| then old(devices)[idx := WriteRaw(old(devices)[idx], data)]
                         else old(devices)
      ensures idx < |old(devices)| && Online(old(devices)[idx]) && old(devices)[idx].dos != [] ==>
                var was, now := old(devices)[idx], devices[idx];
                was.handed <= now.handed && HandsRows(now.handed[|was.handed|..], was.dos, data)
    {
      hide WriteRaw, HandsRows;
      if idx < |devices| { WriteRawHands(devices[idx], data); }
      if idx >= |devices| || !devices[idx].connected || !devices[idx].hasCyclic {
        return;
      }
      if devices[idx].dos == [] {
        SetOutputData(idx, devices[idx].slot, devices[idx].subslot, data);
        return;
      }
      HandRows(idx, data);
    }

    method HandRows(idx: nat, data: bytes)
      requires idx < |devices|
      modifies this
      ensures var d := old(devices)[idx];
              devices == old(devices)[idx := d.(handed := d.handed + Split(d.dos, data))]
    {
      hide PadCut, Slice, Split;
      var dos := devices[idx].dos;
      var off: nat := 0;
      ghost var handed: seq<Handed> := [];
      SplitNone();
      assert dos[0..] == dos && data[Min(0, |data|)..] == data && [] + Split(dos, data) == Split(dos, data);
      assert old(devices)[idx].handed + [] == old(devices)[idx].handed;
      for k := 0 to |dos|
        invariant |devices| == |old(devices)|
        invariant devices == old(devices)[idx := old(devices)[idx].(handed := old(devices)[idx].handed + handed)]
        invariant handed + Split(dos[k..], data[Min(off, |data|)..]) == Split(dos, data)
      {
        var d := dos[k];
        SplitNext(dos, k, data, off);
        if d.outLen > 0 {
          var chunk := PadCut(Slice(data, off, off + d.outLen), d.outLen);
          SetOutputData(idx, d.slot, d.subslot, chunk);
          ghost var h := Handed(d.slot, d.subslot, chunk);
          Assoc(handed, [h], Split(dos[k + 1..], data[Min(off + d.outLen, |data|)..]));
          Assoc(old(devices)[idx].handed, handed, [h]);
          handed := handed + [h];
          off := off + d.outLen;
        }
      }
      assert dos[|dos|..] == [] && handed + [] == handed;
    }

    method SetOutputData(idx: nat, slot: nat, subslot: nat, data: bytes)
      requires idx < |devices|
      modifies this
      ensures var d := old(devices)[idx];
              devices == old(devices)[idx := d.(handed := d.handed + [Handed(slot, subslot, data)])]
    {
      devices := devices[idx := devices[idx].(handed := devices[idx].handed + [Handed(slot, subslot, data)])];
    }

    method ReadRawInputs(idx: nat, length: nat) returns (r: bytes)
      ensures r == if idx < |devices| then ReadRaw(devices[idx], length) else Zeros(length)
      ensures |r| == length
      ensures idx >= |devices| || !Online(devices[idx]) ==> forall p | 0 <= p < length :: r[p] == 0
      ensures idx < |devices| && Online(devices[idx]) ==>
                var d := devices[idx];
                if d.dos != [] then HoldsRows(r, d.dos, d.inputs)
                else forall p | 0 <= p < length :: r[p] == ReceivedByte(d.inputs, d.slot, d.subslot, p)
    {
      if idx < |devices| { GatherHoldsRows(devices[idx].dos, devices[idx].inputs, length); }
      if idx >= |devices| || !devices[idx].connected || !devices[idx].hasCyclic {
        return Zeros(length);
      }
      var d := devices[idx];
      if d.dos == [] {
        return PadCut(InputOf(d.inputs, d.slot, d.subslot), length);
      }
      var out := GatherInputs(d.dos, d.inputs);
      r := PadCut(out, length);
    }

    method GatherInputs(dos: seq<DoMap>, inputs: map<(nat, nat), bytes>) returns (out: bytes)
      ensures out == Gather(dos, inputs)
    {
      hide PadCut, InputOf;
      out := [];
      assert dos[0..] == dos && [] + Gather(dos, inputs) == Gather(dos, inputs);
      for k := 0 to |dos|
        invariant out + Gather(dos[k..], inputs) == Gather(dos, inputs)
      {
        var o := dos[k];
        assert dos[k..][0] == o && dos[k..][1..] == dos[k + 1..];
        var part := PadCut(InputOf(inputs, o.slot, o.subslot), o.inLen);
        Assoc(out, part, Gather(dos[k + 1..], inputs));
        if o.inLen > 0 {
          out := out + part;
        } else {
          assert part == [] && out + [] == out;
        }
      }
      assert out + [] == out;
    }
  }

  lemma WriteRawHands(d: DeviceState, data: bytes)
    ensures !Online(d) ==> WriteRaw(d, data) == d
    ensures Online(d) && d.dos == [] ==>
              WriteRaw(d, data) == d.(handed := d.handed + [Handed(d.slot, d.subslot, data)])
    ensures Online(d) && d.dos != [] ==>
              var now := WriteRaw(d, data);
              && now == d.(handed := d.handed + Split(d.dos, data))
              && d.handed <= now.handed && HandsRows(now.handed[|d.handed|..], d.dos, data)
  {
    hide Split, HandsRows;
    SplitHandsRows(d.dos, data);
    assert (d.handed + Split(d.dos, data))[|d.handed|..] == Split(d.dos, data);
  }

  lemma SplitNone()
    ensures forall d :: Split([], d) == []
  {
  }

  lemma SplitNext(dos: seq<DoMap>, k: nat, data: bytes, off: nat)
    requires k < |dos|
    ensures var rest := data[Min(off, |data|)..];
            var n := dos[k].outLen;
            Split(dos[k..], rest)
            == if n == 0 then Split(dos[k + 1..], rest)
               else [Handed(dos[k].slot, dos[k].subslot, PadCut(Slice(data, off, off + n), n))]
                    + Split(dos[k + 1..], data[Min(off + n, |data|)..])
  {
    hide PadCut, Slice;
    TakeAt(data, off, dos[k].outLen);
    assert dos[k..][0] == dos[k] && dos[k..][1..] == dos[k + 1..];
  }

  lemma TakeAt(data: bytes, off: nat, n: nat)
    ensures PadCut(Slice(data, off, off + n), n) == PadCut(data[Min(off, |data|)..], n)
    ensures data[Min(off, |data|)..][Min(n, |data[Min(off, |data|)..]|)..] == data[Min(off + n, |data|)..]
  {
  }

  // One iteration of the bridge's endless loop
  method RunOnce(pn: ProfinetCtrl, gw: GatewayServer)
    requires gw.Valid()
    modifies pn, gw`inps
    ensures gw.Valid() && |pn.devices| == |old(pn.devices)| && |gw.inps| == |old(gw.inps)|
    ensures forall i | 0 <= i < |pn.devices| ::
              pn.devices[i] == PassDevice(old(pn.devices)[i], if i < |gw.outs| then gw.outs[i] else [])
    ensures forall i | 0 <= i < |gw.inps| ::
              gw.inps[i] ==
                if i < |pn.devices| then PassBuffer(old(pn.devices)[i], old(gw.inps)[i]) else old(gw.inps)[i]
  {
    for i := 0 to |pn.devices|
      invariant gw.Valid() && |pn.devices| == |old(pn.devices)| && |gw.inps| == |old(gw.inps)|
      invariant forall k | 0 <= k < i ::
                  pn.devices[k] == PassDevice(old(pn.devices)[k], if k < |gw.outs| then gw.outs[k] else [])
      invariant forall k | i <= k < |pn.devices| :: pn.devices[k] == old(pn.devices)[k]
      invariant forall k | 0 <= k < |gw.inps| ::
                  gw.inps[k] == if k < i then PassBuffer(old(pn.devices)[k], old(gw.inps)[k]) else old(gw.inps)[k]
    {
      if pn.devices[i].connected {
        PassOne(pn, gw, i);
      }
    }
  }

  method PassOne(pn: ProfinetCtrl, gw: GatewayServer, i: nat)
    requires gw.Valid() && i < |pn.devices| && pn.devices[i].connected
    modifies pn, gw`inps
    ensures gw.Valid() && |gw.inps| == |old(gw.inps)|
    ensures pn.devices == old(pn.devices)[i := PassDevice(old(pn.devices)[i], if i < |gw.outs| then gw.outs[i] else [])]
    ensures forall k | 0 <= k < |gw.inps| ::
              gw.inps[k] == if k == i then PassBuffer(old(pn.devices)[i], old(gw.inps)[k]) else old(gw.inps)[k]
  {
    hide WriteRaw, ReadRaw, SetHead, GetBe16, DeviceConfig.TotalOutputLength, DeviceConfig.TotalInputLength;
    ghost var d := pn.devices[i];
    var outTotal := pn.devices[i].config.TotalOutputLength();
    var inTotal := pn.devices[i].config.TotalInputLength();
    var outData := if i < |gw.outs| then gw.outs[i] else [];
    OutputsKeepInputs(d, outData, inTotal);
    if outTotal > 0 && outData != [] {
      pn.WriteRawOutputs(i, outData);
      if |outData| >= 4 {
        pn.devices := pn.devices[i := pn.devices[i].(stw1 := GetBe16(outData, 0), nsoll := GetBe16(outData, 2))];
      }
    }
    assert pn.devices == old(pn.devices)[i := PassOutputs(d, outData)];
    if inTotal > 0 {
      var inp := pn.ReadRawInputs(i, inTotal);
      gw.SetInputs(i, inp);
      if |inp| >= 4 {
        pn.devices := pn.devices[i := pn.devices[i].(zsw1 := GetBe16(inp, 0), nist := GetBe16(inp, 2))];
      }
    }
  }

  // ---------- conservation, end to end ----------

  // The process-data map mirrors the configured rack.
  ghost predicate Mapped(dos: seq<DoMap>, config: DeviceConfig)
  {
    var rack := config.Effective();
    && |dos| == |rack|
    && forall k | 0 <= k < |dos| :: dos[k].outLen == rack[k].outputLength && dos[k].inLen == rack[k].inputLength
  }

  lemma {:induction false} MappedTotals(dos: seq<DoMap>, rack: seq<DriveObject>)
    requires |dos| == |rack|
    requires forall k | 0 <= k < |dos| :: dos[k].outLen == rack[k].outputLength && dos[k].inLen == rack[k].inputLength
    ensures OutTotal(dos) == SumOutputs(rack) && InTotal(dos) == SumInputs(rack)
  {
    if dos != [] { MappedTotals(dos[1..], rack[1..]); }
  }

  // What one pass hands to a device's drive objects
  function NewHanded(d: DeviceState, data: bytes): seq<Handed>
  {
    var after := PassDevice(d, data).handed;
    assert |d.handed| <= |after|;
    after[|d.handed|..]
  }

  function NewChunks(d: DeviceState, data: bytes): seq<bytes> { Chunks(NewHanded(d, data)) }

  // The map of an online device mirrors the configured rack; without a map the whole buffer goes
  // to the device's one sub-module. A device that never connected has no map.
  ghost predicate Suited(d: DeviceState, config: DeviceConfig)
  {
    d.config == config && (Online(d) && d.dos != [] ==> Mapped(d.dos, config))
  }

  // A device's chunks from a full buffer concatenate to exactly that buffer; a device that is not
  // online is handed nothing. What it was handed before stays.
  lemma DeviceConserves(d: DeviceState, data: bytes)
    requires Suited(d, d.config) && |data| == d.config.TotalOutputLength()
    ensures d.handed <= PassDevice(d, data).handed
    ensures Flatten(NewChunks(d, data)) == if Online(d) then data else []
  {
    hide Split, Chunks, Flatten, ReadRaw;
    var after := PassDevice(d, data).handed;
    if Online(d) && data != [] && d.dos != [] {
      SplitConserves(d.dos, data);
      MappedTotals(d.dos, d.config.Effective());
      assert after == d.handed + Split(d.dos, data) && after[|d.handed|..] == Split(d.dos, data);
    } else if Online(d) && data != [] {
      assert after == d.handed + [Handed(d.slot, d.subslot, data)];
      assert after[|d.handed|..] == [Handed(d.slot, d.subslot, data)];
      OneHanded(d.slot, d.subslot, data);
    } else {
      assert after == d.handed && after[|d.handed|..] == [];
      NothingHanded();
    }
  }

  // The words mirrored for the display are the first two of each direction, in network order, and a
  // device that is not connected is left alone altogether.
  lemma PassMirrors(d: DeviceState, data: bytes)
    ensures var e := PassDevice(d, data);
            && e.config == d.config && e.dos == d.dos && e.inputs == d.inputs
            && (!d.connected ==> e == d)
            && (d.connected && d.config.TotalOutputLength() > 0 && |data| >= 4 ==>
                  e.stw1 == data[0] as int * 256 + data[1] && e.nsoll == data[2] as int * 256 + data[3])
            && (d.config.TotalOutputLength() == 0 || |data| < 4 ==> e.stw1 == d.stw1 && e.nsoll == d.nsoll)
            && (d.connected && d.config.TotalInputLength() >= 4 ==>
                  var r := ReadRaw(d, d.config.TotalInputLength());
                  e.zsw1 == r[0] as int * 256 + r[1] && e.nist == r[2] as int * 256 + r[3])
            && (d.config.TotalInputLength() < 4 ==> e.zsw1 == d.zsw1 && e.nist == d.nist)
            && (Online(d) && d.dos == [] && d.config.TotalOutputLength() > 0 && data != [] ==>
                  e.handed == d.handed + [Handed(d.slot, d.subslot, data)])
  {
    hide Split, ReadRaw, DeviceConfig.TotalOutputLength, DeviceConfig.TotalInputLength;
    OutputsKeepInputs(d, data, d.config.TotalInputLength());
  }

  lemma NothingHanded()
    ensures Flatten(Chunks([])) == []
  {
  }

  lemma OneHanded(slot: nat, subslot: nat, data: bytes)
    ensures Flatten(Chunks([Handed(slot, subslot, data)])) == data
  {
    var h := Handed(slot, subslot, data);
    FlattenCons(h, []);
    assert [h] + [] == [h] && data + [] == data;
    NothingHanded();
  }

  function AllChunks(devices: seq<DeviceState>, outs: seq<bytes>, n: nat): seq<bytes>
    requires n <= |devices| == |outs|
  {
    if n == 0 then [] else AllChunks(devices, outs, n - 1) + NewChunks(devices[n - 1], outs[n - 1])
  }

  ghost predicate Matches(devices: seq<DeviceState>, configs: seq<DeviceConfig>)
  {
    && |devices| == |configs|
    && forall i | 0 <= i < |devices| :: Suited(devices[i], configs[i])
  }

  // The frame's bytes for device i, which only an online device gets
  function OnlineSlice(devices: seq<DeviceState>, ns: seq<nat>, frame: bytes, i: nat): bytes
    requires i < |devices| == |ns| && Total(ns) <= |frame|
  {
    OffsetMonotone(ns, i + 1, |ns|);
    if Online(devices[i]) then frame[Offset(ns, i)..Offset(ns, i + 1)] else []
  }

  function OnlineSlices(devices: seq<DeviceState>, ns: seq<nat>, frame: bytes, n: nat): bytes
    requires n <= |devices| == |ns| && Total(ns) <= |frame|
  {
    if n == 0 then [] else OnlineSlices(devices, ns, frame, n - 1) + OnlineSlice(devices, ns, frame, n - 1)
  }

  // Client to drives, one device: after a flat frame at least as long as the configured total,
  // the next pass hands an online device exactly the frame's bytes for it.
  lemma DeviceOutputsConserved(devices: seq<DeviceState>, configs: seq<DeviceConfig>, outs: seq<bytes>, frame: bytes,
                               i: nat)
    requires Matches(devices, configs) && i < |devices|
    requires var ns := OutputLengths(configs); Bounded(ns, outs) && Total(ns) <= |frame|
    ensures var ns := OutputLengths(configs);
            Flatten(NewChunks(devices[i], Apply(false, ns, outs, frame)[i])) == OnlineSlice(devices, ns, frame, i)
  {
    hide OutputLengths, FlatApply, Offset, SliceAssign, NewChunks, Mapped;
    var ns := OutputLengths(configs);
    FullPayload(ns, outs, frame);
    OffsetStep(ns, i);
    DeviceConserves(devices[i], FlatApply(ns, outs, frame)[i]);
  }

  // All devices: what the pass hands out, in config order, is the frame cut to the slices of the
  // online devices, so nothing is lost, duplicated or handed to the wrong device.
  lemma {:induction false} OutputsConserved(devices: seq<DeviceState>, configs: seq<DeviceConfig>, outs: seq<bytes>,
                                            frame: bytes, n: nat)
    requires Matches(devices, configs) && n <= |devices|
    requires var ns := OutputLengths(configs); Bounded(ns, outs) && Total(ns) <= |frame|
    ensures var ns := OutputLengths(configs);
            Flatten(AllChunks(devices, Apply(false, ns, outs, frame), n)) == OnlineSlices(devices, ns, frame, n)
  {
    hide Suited, OutputLengths, Apply, Offset, NewChunks, OnlineSlice, Flatten;
    var ns := OutputLengths(configs);
    var held := Apply(false, ns, outs, frame);
    if n == 0 {
      FlattenNone();
    } else {
      OutputsConserved(devices, configs, outs, frame, n - 1);
      DeviceOutputsConserved(devices, configs, outs, frame, n - 1);
      FlattenAppend(AllChunks(devices, held, n - 1), NewChunks(devices[n - 1], held[n - 1]));
    }
  }

  // With every device online that is the frame's first `total` bytes.
  lemma {:induction false} OnlineSlicesAll(devices: seq<DeviceState>, ns: seq<nat>, frame: bytes, n: nat)
    requires n <= |devices| == |ns| && Total(ns) <= |frame|
    requires forall i | 0 <= i < n :: Online(devices[i])
    ensures Offset(ns, n) <= |frame| && OnlineSlices(devices, ns, frame, n) == frame[..Offset(ns, n)]
  {
    hide Offset;
    OffsetStart(ns);
    OffsetMonotone(ns, n, |ns|);
    if n > 0 {
      OffsetMonotone(ns, n - 1, n);
      OnlineSlicesAll(devices, ns, frame, n - 1);
      Extends(frame, Offset(ns, n - 1), Offset(ns, n));
    }
  }

  lemma Extends(frame: bytes, a: nat, b: nat)
    requires a <= b <= |frame|
    ensures frame[..a] + frame[a..b] == frame[..b]
  {
  }

  // Drives to client: an online device's data padded or cut to the lengths of its drive objects,
  // or of the whole slot when it has no map
  function DeviceInput(d: DeviceState): bytes
  {
    if d.dos == [] then PadCut(InputOf(d.inputs, d.slot, d.subslot), d.config.TotalInputLength())
    else Gather(d.dos, d.inputs)
  }

  // After a pass the gateway's input buffers are, in config order, exactly that for the online
  // devices, zeros for one that is connected without a cyclic controller, and what they were for
  // any other.
  function InputAfter(d: DeviceState, inp: bytes): bytes
  {
    if !d.connected then inp
    else if Online(d) then DeviceInput(d)
    else Zeros(d.config.TotalInputLength())
  }

  lemma InputsConserved(devices: seq<DeviceState>, configs: seq<DeviceConfig>, inps: seq<bytes>, after: seq<bytes>)
    requires Matches(devices, configs) && |after| == |devices| && InputsSized(configs, inps)
    requires forall i | 0 <= i < |devices| :: after[i] == PassBuffer(devices[i], inps[i])
    ensures InputsSized(configs, after)
    ensures forall i | 0 <= i < |devices| :: after[i] == InputAfter(devices[i], inps[i])
  {
    forall i | 0 <= i < |devices|
      ensures |after[i]| == configs[i].TotalInputLength() && after[i] == InputAfter(devices[i], inps[i])
    {
      assert Suited(devices[i], configs[i]);
      DeviceInputConserved(devices[i], inps[i]);
    }
  }

  lemma DeviceInputConserved(d: DeviceState, inp: bytes)
    requires Suited(d, d.config) && |inp| == d.config.TotalInputLength()
    ensures |PassBuffer(d, inp)| == d.config.TotalInputLength()
    ensures PassBuffer(d, inp) == InputAfter(d, inp)
  {
    hide Gather, InputOf, SumInputs;
    var n := d.config.TotalInputLength();
    if Online(d) && d.dos != [] {
      MappedTotals(d.dos, d.config.Effective());
      assert PadCut(Gather(d.dos, d.inputs), n) == Gather(d.dos, d.inputs);
    }
    if d.connected {
      WholeHead(inp, ReadRaw(d, n));
    }
  }

  lemma WholeHead(buf: bytes, d: bytes)
    requires |d| == |buf|
    ensures SetHead(buf, d) == d && (buf == [] ==> buf == d)
  {
  }

  // With every device online the flat input frame is their data in config order.
  lemma InputFrameConserved(devices: seq<DeviceState>, configs: seq<DeviceConfig>, inps: seq<bytes>, after: seq<bytes>)
    requires Matches(devices, configs) && |after| == |devices| && InputsSized(configs, inps)
    requires forall i | 0 <= i < |devices| :: Online(devices[i]) && after[i] == PassBuffer(devices[i], inps[i])
    ensures Flatten(after) == Flatten(AllInputs(devices))
  {
    InputsConserved(devices, configs, inps, after);
    assert after == AllInputs(devices);
  }

  function AllInputs(devices: seq<DeviceState>): (r: seq<bytes>)
    ensures |r| == |devices|
    ensures forall i | 0 <= i < |devices| :: r[i] == DeviceInput(devices[i])
  {
    seq(|devices|, i requires 0 <= i < |devices| => DeviceInput(devices[i]))
  }
}
