// The frame allocator of profinet_ctrl.py: where every data object, IOPS byte and IOCS byte
// of a sub-module list lies in the input and in the output cyclic frame.
module IocrLayout {
  import opened Bytes

  datatype Submodule = Submodule(slot: nat, subslot: nat, inputLength: nat, outputLength: nat)
  {
    predicate HasOutput() { outputLength > 0 }
  }

  // `length` data bytes at `offset`, followed by one IOPS byte
  datatype DataObject = DataObject(slot: nat, subslot: nat, offset: nat, length: nat)
  {
    function End(): nat { offset + length + 1 }
  }

  datatype Iocs = Iocs(slot: nat, subslot: nat, offset: nat)

  // One direction of the layout: `used` is the unpadded frame size.
  datatype CrLayout = CrLayout(objects: seq<DataObject>, iocs: seq<Iocs>, used: nat)
  {
    function FrameLength(): nat { Max(40, used) }

    function AddObject(s: Submodule, length: nat): CrLayout
    {
      CrLayout(objects + [DataObject(s.slot, s.subslot, used, length)], iocs, used + length + 1)
    }

    function AddIocs(s: Submodule): CrLayout
    {
      CrLayout(objects, iocs + [Iocs(s.slot, s.subslot, used)], used + 1)
    }

    // Byte p belongs to some data+IOPS range or is some IOCS byte.
    ghost predicate Covers(p: nat)
    {
      || (exists i :: 0 <= i < |objects| && objects[i].offset <= p < objects[i].End())
      || (exists j :: 0 <= j < |iocs| && iocs[j].offset == p)
    }

    // The ranges are in ascending order, pairwise disjoint, and together exactly [0, used).
    ghost predicate Tiles()
    {
      && (forall i | 0 <= i < |objects| :: objects[i].End() <= used)
      && (forall j | 0 <= j < |iocs| :: iocs[j].offset < used)
      && (forall i, j | 0 <= i < j < |objects| :: objects[i].End() <= objects[j].offset)
      && (forall i, j | 0 <= i < j < |iocs| :: iocs[i].offset < iocs[j].offset)
      && (forall i, j | 0 <= i < |objects| && 0 <= j < |iocs| ::
            iocs[j].offset < objects[i].offset || objects[i].End() <= iocs[j].offset)
      && (forall p: nat :: Covers(p) <==> p < used)
    }
  }

  const EMPTY := CrLayout([], [], 0)

  // ---------- the layout as a function of the sub-module list ----------

  function Front(slots: seq<Submodule>): seq<Submodule>
    requires slots != []
  {
    slots[..|slots| - 1]
  }

  function Last(slots: seq<Submodule>): Submodule
    requires slots != []
  {
    slots[|slots| - 1]
  }

  function InputProviders(slots: seq<Submodule>): CrLayout
  {
    if slots == [] then EMPTY
    else InputProviders(Front(slots)).AddObject(Last(slots), Last(slots).inputLength)
  }

  function OutputProviders(slots: seq<Submodule>): CrLayout
  {
    if slots == [] then EMPTY
    else
      var l := OutputProviders(Front(slots));
      if Last(slots).HasOutput() then l.AddObject(Last(slots), Last(slots).outputLength)
      else l.AddIocs(Last(slots))
  }

  function Trailing(l: CrLayout, slots: seq<Submodule>): CrLayout
  {
    if slots == [] then l
    else
      var t := Trailing(l, Front(slots));
      if Last(slots).HasOutput() then t.AddIocs(Last(slots)) else t
  }

  function InputLayout(slots: seq<Submodule>): CrLayout { Trailing(InputProviders(slots), slots) }

  function OutputLayout(slots: seq<Submodule>): CrLayout { Trailing(OutputProviders(slots), slots) }

  // ---------- the allocator itself ----------

  method ComputeLayout(slots: seq<Submodule>)
    returns (inObjs: seq<DataObject>, inIocs: seq<Iocs>, inLen: nat,
             outObjs: seq<DataObject>, outIocs: seq<Iocs>, outLen: nat)
    ensures var l := InputLayout(slots); inObjs == l.objects && inIocs == l.iocs && inLen == l.FrameLength()
    ensures var l := OutputLayout(slots); outObjs == l.objects && outIocs == l.iocs && outLen == l.FrameLength()
    ensures var u := InputLayout(slots).used; (u <= 40 ==> inLen == 40) && (u >= 40 ==> inLen == u)
    ensures var u := OutputLayout(slots).used; (u <= 40 ==> outLen == 40) && (u >= 40 ==> outLen == u)
  {
    inObjs, inIocs := [], [];
    var off: nat := 0;
    for i := 0 to |slots|
      invariant CrLayout(inObjs, inIocs, off) == InputProviders(slots[..i])
    {
      var s := slots[i];
      Step(slots, i);
      inObjs := inObjs + [DataObject(s.slot, s.subslot, off, s.inputLength)];
      off := off + s.inputLength + 1;
    }
    assert slots[..|slots|] == slots;
    for i := 0 to |slots|
      invariant CrLayout(inObjs, inIocs, off) == Trailing(InputProviders(slots), slots[..i])
    {
      var s := slots[i];
      Step(slots, i);
      if s.outputLength > 0 {
        inIocs := inIocs + [Iocs(s.slot, s.subslot, off)];
        off := off + 1;
      }
    }
    assert slots[..|slots|] == slots;
    inLen := Max(40, off);

    outObjs, outIocs, off := [], [], 0;
    for i := 0 to |slots|
      invariant CrLayout(outObjs, outIocs, off) == OutputProviders(slots[..i])
    {
      var s := slots[i];
      Step(slots, i);
      if s.outputLength > 0 {
        outObjs := outObjs + [DataObject(s.slot, s.subslot, off, s.outputLength)];
        off := off + s.outputLength + 1;
      } else {
        outIocs := outIocs + [Iocs(s.slot, s.subslot, off)];
        off := off + 1;
      }
    }
    assert slots[..|slots|] == slots;
    for i := 0 to |slots|
      invariant CrLayout(outObjs, outIocs, off) == Trailing(OutputProviders(slots), slots[..i])
    {
      var s := slots[i];
      Step(slots, i);
      if s.outputLength > 0 {
        outIocs := outIocs + [Iocs(s.slot, s.subslot, off)];
        off := off + 1;
      }
    }
    assert slots[..|slots|] == slots;
    outLen := Max(40, off);
  }

  lemma Step(slots: seq<Submodule>, i: nat)
    requires i < |slots|
    ensures Front(slots[..i + 1]) == slots[..i] && Last(slots[..i + 1]) == slots[i]
  {
  }

  // ---------- the layout tiles the frame ----------

  lemma AddObjectTiles(l: CrLayout, s: Submodule, length: nat)
    requires l.Tiles()
    ensures l.AddObject(s, length).Tiles()
  {
    var m := l.AddObject(s, length);
    forall p: nat ensures m.Covers(p) <==> p < m.used {
      assert m.objects[|l.objects|].offset == l.used;
      if l.Covers(p) && exists i :: 0 <= i < |l.objects| && l.objects[i].offset <= p < l.objects[i].End() {
        var i :| 0 <= i < |l.objects| && l.objects[i].offset <= p < l.objects[i].End();
        assert m.objects[i] == l.objects[i];
      }
    }
  }

  lemma AddIocsTiles(l: CrLayout, s: Submodule)
    requires l.Tiles()
    ensures l.AddIocs(s).Tiles()
  {
    var m := l.AddIocs(s);
    forall p: nat ensures m.Covers(p) <==> p < m.used {
      assert m.iocs[|l.iocs|].offset == l.used;
      if l.Covers(p) && exists j :: 0 <= j < |l.iocs| && l.iocs[j].offset == p {
        var j :| 0 <= j < |l.iocs| && l.iocs[j].offset == p;
        assert m.iocs[j] == l.iocs[j];
      }
    }
  }

  lemma {:induction false} ProvidersTile(slots: seq<Submodule>)
    ensures InputProviders(slots).Tiles() && OutputProviders(slots).Tiles()
  {
    if slots != [] {
      var s := Last(slots);
      ProvidersTile(Front(slots));
      AddObjectTiles(InputProviders(Front(slots)), s, s.inputLength);
      AddObjectTiles(OutputProviders(Front(slots)), s, s.outputLength);
      AddIocsTiles(OutputProviders(Front(slots)), s);
    }
  }

  lemma {:induction false} TrailingTiles(l: CrLayout, slots: seq<Submodule>)
    requires l.Tiles()
    ensures Trailing(l, slots).Tiles()
  {
    if slots != [] {
      TrailingTiles(l, Front(slots));
      AddIocsTiles(Trailing(l, Front(slots)), Last(slots));
    }
  }

  // Both directions: ranges disjoint, together exactly [0, used), inside the declared length, which
  // is that size but at least 40.
  lemma LayoutTilesFrame(slots: seq<Submodule>)
    ensures InputLayout(slots).Tiles() && OutputLayout(slots).Tiles()
    ensures InputLayout(slots).used <= InputLayout(slots).FrameLength()
    ensures OutputLayout(slots).used <= OutputLayout(slots).FrameLength()
    ensures var l := InputLayout(slots);
            (l.used <= 40 ==> l.FrameLength() == 40) && (l.used >= 40 ==> l.FrameLength() == l.used)
    ensures var l := OutputLayout(slots);
            (l.used <= 40 ==> l.FrameLength() == 40) && (l.used >= 40 ==> l.FrameLength() == l.used)
  {
    ProvidersTile(slots);
    TrailingTiles(InputProviders(slots), slots);
    TrailingTiles(OutputProviders(slots), slots);
  }

  // ---------- who owns which range ----------

  function WithOutput(slots: seq<Submodule>, wanted: bool): seq<Submodule>
  {
    if slots == [] then []
    else
      var f := WithOutput(Front(slots), wanted);
      if Last(slots).HasOutput() == wanted then f + [Last(slots)] else f
  }

  lemma {:induction false} WithOutputMembers(slots: seq<Submodule>, wanted: bool)
    ensures forall s :: s in WithOutput(slots, wanted) <==> s in slots && (s.outputLength > 0) == wanted
  {
    if slots != [] {
      WithOutputMembers(Front(slots), wanted);
      assert slots == Front(slots) + [Last(slots)];
    }
  }

  function DataBytes(slots: seq<Submodule>, output: bool): nat
  {
    if slots == [] then 0
    else DataBytes(Front(slots), output) + if output then Last(slots).outputLength else Last(slots).inputLength
  }

  // objects[k] belongs to the k-th listed sub-module and carries its data length
  ghost predicate ObjectsOf(objects: seq<DataObject>, owners: seq<Submodule>, output: bool)
  {
    && |objects| == |owners|
    && forall k | 0 <= k < |owners| ::
         && objects[k].slot == owners[k].slot
         && objects[k].subslot == owners[k].subslot
         && objects[k].length == if output then owners[k].outputLength else owners[k].inputLength
  }

  ghost predicate IocsOf(iocs: seq<Iocs>, owners: seq<Submodule>)
  {
    && |iocs| == |owners|
    && forall k | 0 <= k < |owners| :: iocs[k].slot == owners[k].slot && iocs[k].subslot == owners[k].subslot
  }

  lemma {:induction false} ProviderOwners(slots: seq<Submodule>)
    ensures ObjectsOf(InputProviders(slots).objects, slots, false) && InputProviders(slots).iocs == []
    ensures ObjectsOf(OutputProviders(slots).objects, WithOutput(slots, true), true)
    ensures IocsOf(OutputProviders(slots).iocs, WithOutput(slots, false))
    ensures InputProviders(slots).used == DataBytes(slots, false) + |slots|
    ensures OutputProviders(slots).used == DataBytes(slots, true) + |slots|
    ensures |WithOutput(slots, true)| + |WithOutput(slots, false)| == |slots|
  {
    if slots != [] {
      ProviderOwners(Front(slots));
    }
  }

  lemma {:induction false} TrailingOwners(l: CrLayout, slots: seq<Submodule>, before: seq<Submodule>)
    requires IocsOf(l.iocs, before)
    ensures Trailing(l, slots).objects == l.objects
    ensures IocsOf(Trailing(l, slots).iocs, before + WithOutput(slots, true))
    ensures Trailing(l, slots).used == l.used + |WithOutput(slots, true)|
  {
    if slots != [] {
      TrailingOwners(l, Front(slots), before);
    }
  }

  // Input: every sub-module provides, those with output are consumed at the end. Output:
  // sub-modules with output provide, the others are consumed in place, then those with output.
  lemma LayoutOwners(slots: seq<Submodule>)
    ensures ObjectsOf(InputLayout(slots).objects, slots, false)
    ensures IocsOf(InputLayout(slots).iocs, WithOutput(slots, true))
    ensures ObjectsOf(OutputLayout(slots).objects, WithOutput(slots, true), true)
    ensures IocsOf(OutputLayout(slots).iocs, WithOutput(slots, false) + WithOutput(slots, true))
  {
    ProviderOwners(slots);
    TrailingOwners(InputProviders(slots), slots, []);
    TrailingOwners(OutputProviders(slots), slots, WithOutput(slots, false));
    assert [] + WithOutput(slots, true) == WithOutput(slots, true);
  }

  // ---------- where each range lies ----------

  lemma {:induction false} ProviderOffsets(slots: seq<Submodule>, k: nat)
    requires k < |slots|
    ensures var i := InputProviders(slots);
            k < |i.objects| && i.objects[k].offset == DataBytes(slots[..k], false) + k
    ensures var o := OutputProviders(slots);
            if slots[k].HasOutput() then
              var n := |WithOutput(slots[..k], true)|;
              n < |o.objects| && o.objects[n].offset == DataBytes(slots[..k], true) + k
            else
              var n := |WithOutput(slots[..k], false)|;
              n < |o.iocs| && o.iocs[n].offset == DataBytes(slots[..k], true) + k
  {
    ProviderOwners(slots);
    ProviderOwners(Front(slots));
    if k < |slots| - 1 {
      assert Front(slots)[..k] == slots[..k];
      ProviderOffsets(Front(slots), k);
    } else {
      assert slots[..k] == Front(slots);
    }
  }

  lemma {:induction false} TrailingOffsets(l: CrLayout, slots: seq<Submodule>)
    ensures var t := Trailing(l, slots);
            && t.objects == l.objects && |t.iocs| == |l.iocs| + |WithOutput(slots, true)|
            && (forall k | 0 <= k < |l.iocs| :: t.iocs[k] == l.iocs[k])
            && (forall k | |l.iocs| <= k < |t.iocs| :: t.iocs[k].offset == l.used + k - |l.iocs|)
            && t.used == l.used + |WithOutput(slots, true)|
  {
    if slots != [] { TrailingOffsets(l, Front(slots)); }
  }

  // Sub-module k starts behind the data of the k before it and one status byte for each; the
  // trailing IOCS bytes lie behind all of them, in order.
  lemma LayoutOffsets(slots: seq<Submodule>)
    ensures var l := InputLayout(slots);
            && |l.objects| == |slots| && |l.iocs| == |WithOutput(slots, true)|
            && (forall k | 0 <= k < |slots| :: l.objects[k].offset == DataBytes(slots[..k], false) + k)
            && (forall k | 0 <= k < |l.iocs| :: l.iocs[k].offset == DataBytes(slots, false) + |slots| + k)
    ensures var l, others := OutputLayout(slots), |WithOutput(slots, false)|;
            && |l.objects| == |WithOutput(slots, true)| && |l.iocs| == |slots|
            && (forall k | 0 <= k < |slots| && slots[k].HasOutput() ::
                  var n := |WithOutput(slots[..k], true)|;
                  n < |l.objects| && l.objects[n].offset == DataBytes(slots[..k], true) + k)
            && (forall k | 0 <= k < |slots| && !slots[k].HasOutput() ::
                  var n := |WithOutput(slots[..k], false)|;
                  n < others <= |l.iocs| && l.iocs[n].offset == DataBytes(slots[..k], true) + k)
            && (forall k | others <= k < |slots| :: l.iocs[k].offset == DataBytes(slots, true) + |slots| + k - others)
  {
    hide InputProviders, OutputProviders, Trailing, WithOutput, DataBytes;
    ProviderOwners(slots);
    TrailingOffsets(InputProviders(slots), slots);
    TrailingOffsets(OutputProviders(slots), slots);
    forall k | 0 <= k < |slots|
      ensures InputProviders(slots).objects[k].offset == DataBytes(slots[..k], false) + k
    {
      ProviderOffsets(slots, k);
    }
    forall k | 0 <= k < |slots| && slots[k].HasOutput()
      ensures var n := |WithOutput(slots[..k], true)|;
              n < |OutputProviders(slots).objects|
              && OutputProviders(slots).objects[n].offset == DataBytes(slots[..k], true) + k
    {
      ProviderOffsets(slots, k);
    }
    forall k | 0 <= k < |slots| && !slots[k].HasOutput()
      ensures var n := |WithOutput(slots[..k], false)|;
              n < |OutputProviders(slots).iocs|
              && OutputProviders(slots).iocs[n].offset == DataBytes(slots[..k], true) + k
    {
      ProviderOffsets(slots, k);
    }
  }

  // Frame overhead is the same in both directions.
  lemma OverheadEqual(slots: seq<Submodule>)
    ensures InputLayout(slots).used - DataBytes(slots, false) == |slots| + |WithOutput(slots, true)|
    ensures OutputLayout(slots).used - DataBytes(slots, true) == |slots| + |WithOutput(slots, true)|
  {
    ProviderOwners(slots);
    TrailingOwners(InputProviders(slots), slots, []);
    TrailingOwners(OutputProviders(slots), slots, WithOutput(slots, false));
  }
}
