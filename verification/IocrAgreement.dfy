// What the declared blocks say about the layout, and that the running cyclic configuration
// is the same map.
module IocrAgreement {
  import opened Bytes
  import opened IocrLayout
  import opened IocrBlock

  // ---------- API sections: nothing lost, nothing repeated ----------

  lemma {:induction false} OwnedCount(es: seq<Entry>, api: nat, driveApi: nat, e: Entry)
    ensures multiset(Owned(es, api, driveApi))[e]
         == if ApiOf(e.slot, driveApi) == api then multiset(es)[e] else 0
  {
    if es != [] {
      var front, last := es[..|es| - 1], es[|es| - 1];
      OwnedCount(front, api, driveApi, e);
      assert es == front + [last];
    }
  }

  // `section` holds each entry of API `api` as often as `all` does, and no other entry
  ghost predicate ExactlyOwned(section: seq<Entry>, all: seq<Entry>, api: nat, driveApi: nat)
  {
    forall e :: multiset(section)[e] == if ApiOf(e.slot, driveApi) == api then multiset(all)[e] else 0
  }

  lemma OwnedExactly(es: seq<Entry>, api: nat, driveApi: nat)
    ensures ExactlyOwned(Owned(es, api, driveApi), es, api, driveApi)
  {
    forall e
      ensures multiset(Owned(es, api, driveApi))[e]
           == if ApiOf(e.slot, driveApi) == api then multiset(es)[e] else 0
    {
      OwnedCount(es, api, driveApi, e);
    }
  }

  // In layout order: the offsets of the layout's entries ascend.
  predicate Ascends(es: seq<Entry>)
  {
    forall i, j | 0 <= i < j < |es| :: es[i].offset < es[j].offset
  }

  lemma {:induction false} OwnedAscends(es: seq<Entry>, api: nat, driveApi: nat)
    requires Ascends(es)
    ensures Ascends(Owned(es, api, driveApi))
  {
    if es != [] {
      var front := es[..|es| - 1];
      OwnedAscends(front, api, driveApi);
      OwnedMembers(front, api, driveApi);
      var own := Owned(front, api, driveApi);
      forall k | 0 <= k < |own| ensures own[k].offset < es[|es| - 1].offset {
        assert own[k] in own;
        var m :| 0 <= m < |front| && front[m] == own[k];
        assert es[m] == own[k];
      }
    }
  }

  lemma EntriesAscend(iocrType: nat, slots: seq<Submodule>)
    ensures var l := LayoutFor(iocrType, slots);
            Ascends(ObjectEntries(l.objects)) && Ascends(IocsEntries(l.iocs))
  {
    LayoutTilesFrame(slots);
  }

  ghost predicate HasSection(gs: seq<ApiGroup>, api: nat)
  {
    exists k :: 0 <= k < |gs| && gs[k].api == api
  }

  // The APIs of a declared block ascend, each section holds exactly the layout entries of its
  // API in layout order, and every entry has its section.
  lemma DeclaredSections(iocrType: nat, slots: seq<Submodule>, timing: Timing, p: Profile)
    ensures var l := LayoutFor(iocrType, slots);
            var gs := Declared(iocrType, slots, timing, p).apis;
            && (forall i, j | 0 <= i < j < |gs| :: gs[i].api < gs[j].api)
            && (forall k | 0 <= k < |gs| ::
                  ExactlyOwned(gs[k].objects, ObjectEntries(l.objects), gs[k].api, p.driveApi))
            && (forall k | 0 <= k < |gs| :: ExactlyOwned(gs[k].iocs, IocsEntries(l.iocs), gs[k].api, p.driveApi))
            && (forall k | 0 <= k < |gs| :: Ascends(gs[k].objects) && Ascends(gs[k].iocs))
            && (forall k, e | 0 <= k < |gs| && e in gs[k].objects + gs[k].iocs ::
                  gs[k].api == if e.slot == 0 then 0 else p.driveApi)
            && (forall e | e in ObjectEntries(l.objects) + IocsEntries(l.iocs) ::
                  HasSection(gs, ApiOf(e.slot, p.driveApi)))
  {
    EntriesAscend(iocrType, slots);
    var l := LayoutFor(iocrType, slots);
    var objects, iocs := ObjectEntries(l.objects), IocsEntries(l.iocs);
    var apis := DeclaredApis(objects, iocs, p.driveApi);
    var gs := Declared(iocrType, slots, timing, p).apis;
    forall k | 0 <= k < |gs|
      ensures ExactlyOwned(gs[k].objects, objects, gs[k].api, p.driveApi)
      ensures ExactlyOwned(gs[k].iocs, iocs, gs[k].api, p.driveApi)
      ensures Ascends(gs[k].objects) && Ascends(gs[k].iocs)
    {
      OwnedAscends(objects, apis[k], p.driveApi);
      OwnedAscends(iocs, apis[k], p.driveApi);
      OwnedExactly(objects, apis[k], p.driveApi);
      OwnedExactly(iocs, apis[k], p.driveApi);
    }
    forall k, e | 0 <= k < |gs| && e in gs[k].objects + gs[k].iocs
      ensures gs[k].api == if e.slot == 0 then 0 else p.driveApi
    {
      OwnedMembers(objects, apis[k], p.driveApi);
      OwnedMembers(iocs, apis[k], p.driveApi);
    }
    forall e: Entry | e in objects + iocs ensures HasSection(gs, ApiOf(e.slot, p.driveApi)) {
      assert ApiOf(e.slot, p.driveApi) in apis;
      var k :| 0 <= k < |apis| && apis[k] == ApiOf(e.slot, p.driveApi);
      assert gs[k].api == apis[k];
    }
  }

  // ---------- block length ----------

  function TotalOwned(apis: seq<nat>, es: seq<Entry>, driveApi: nat): nat
  {
    if apis == [] then 0
    else TotalOwned(apis[..|apis| - 1], es, driveApi) + |Owned(es, apis[|apis| - 1], driveApi)|
  }

  lemma {:induction false} TotalOwnedStep(apis: seq<nat>, es: seq<Entry>, driveApi: nat)
    requires es != []
    requires forall i, j | 0 <= i < j < |apis| :: apis[i] < apis[j]
    ensures TotalOwned(apis, es, driveApi) == TotalOwned(apis, es[..|es| - 1], driveApi)
         + if ApiOf(es[|es| - 1].slot, driveApi) in apis then 1 else 0
  {
    if apis != [] {
      var front, last := apis[..|apis| - 1], apis[|apis| - 1];
      TotalOwnedStep(front, es, driveApi);
      assert forall a :: a in apis <==> a in front || a == last;
    }
  }

  lemma {:induction false} TotalOwnedEmpty(apis: seq<nat>, driveApi: nat)
    ensures TotalOwned(apis, [], driveApi) == 0
  {
    if apis != [] { TotalOwnedEmpty(apis[..|apis| - 1], driveApi); }
  }

  lemma {:induction false} TotalOwnedIsAll(apis: seq<nat>, es: seq<Entry>, driveApi: nat)
    requires forall i, j | 0 <= i < j < |apis| :: apis[i] < apis[j]
    requires forall e | e in es :: ApiOf(e.slot, driveApi) in apis
    ensures TotalOwned(apis, es, driveApi) == |es|
  {
    if es == [] {
      TotalOwnedEmpty(apis, driveApi);
    } else {
      TotalOwnedStep(apis, es, driveApi);
      assert es[|es| - 1] in es;
      TotalOwnedIsAll(apis, es[..|es| - 1], driveApi);
    }
  }

  lemma {:induction false} GroupsLength(apis: seq<nat>, objects: seq<Entry>, iocs: seq<Entry>, driveApi: nat)
    requires forall g | g in Groups(apis, objects, iocs, driveApi) :: g.Fits()
    ensures |GroupsBytes(Groups(apis, objects, iocs, driveApi))|
         == 8 * |apis| + 6 * (TotalOwned(apis, objects, driveApi) + TotalOwned(apis, iocs, driveApi))
  {
    var gs := Groups(apis, objects, iocs, driveApi);
    if apis != [] {
      var front := apis[..|apis| - 1];
      var n := |gs| - 1;
      assert Groups(front, objects, iocs, driveApi) == gs[..n];
      assert gs[n] in gs;
      GroupsLength(front, objects, iocs, driveApi);
      assert GroupsBytes(gs) == GroupsBytes(gs[..n]) + GroupBytes(gs[n]);
      assert |GroupBytes(gs[n])| == 8 + 6 * (|gs[n].objects| + |gs[n].iocs|);
    }
  }

  // ---------- API set ----------

  function SlotApis(slots: seq<Submodule>, driveApi: nat): set<nat>
  {
    set s | s in slots :: ApiOf(s.slot, driveApi)
  }

  lemma ApisOfOwners(l: CrLayout, providers: seq<Submodule>, consumers: seq<Submodule>, output: bool, driveApi: nat)
    requires ObjectsOf(l.objects, providers, output) && IocsOf(l.iocs, consumers)
    ensures Apis(ObjectEntries(l.objects), driveApi) == SlotApis(providers, driveApi)
    ensures Apis(IocsEntries(l.iocs), driveApi) == SlotApis(consumers, driveApi)
  {
    var os, cs := ObjectEntries(l.objects), IocsEntries(l.iocs);
    forall a ensures a in Apis(os, driveApi) <==> a in SlotApis(providers, driveApi) {
      if a in Apis(os, driveApi) {
        var k :| 0 <= k < |os| && ApiOf(os[k].slot, driveApi) == a;
        assert providers[k] in providers;
      }
      if a in SlotApis(providers, driveApi) {
        var k :| 0 <= k < |providers| && ApiOf(providers[k].slot, driveApi) == a;
        assert os[k] in os;
      }
    }
    forall a ensures a in Apis(cs, driveApi) <==> a in SlotApis(consumers, driveApi) {
      if a in Apis(cs, driveApi) {
        var k :| 0 <= k < |cs| && ApiOf(cs[k].slot, driveApi) == a;
        assert consumers[k] in consumers;
      }
      if a in SlotApis(consumers, driveApi) {
        var k :| 0 <= k < |consumers| && ApiOf(consumers[k].slot, driveApi) == a;
        assert cs[k] in cs;
      }
    }
  }

  // Both directions declare the API set of the topology.
  lemma ApiSetsEqual(iocrType: nat, slots: seq<Submodule>, driveApi: nat)
    ensures var l := LayoutFor(iocrType, slots);
            Apis(ObjectEntries(l.objects), driveApi) + Apis(IocsEntries(l.iocs), driveApi) == SlotApis(slots, driveApi)
  {
    LayoutOwners(slots);
    WithOutputMembers(slots, true);
    WithOutputMembers(slots, false);
    var with, without := WithOutput(slots, true), WithOutput(slots, false);
    if iocrType == IOCR_INPUT {
      ApisOfOwners(InputLayout(slots), slots, with, false, driveApi);
    } else {
      ApisOfOwners(OutputLayout(slots), with, without + with, true, driveApi);
    }
  }

  lemma EntryCount(iocrType: nat, slots: seq<Submodule>)
    ensures var l := LayoutFor(iocrType, slots);
            |l.objects| + |l.iocs| == |slots| + |WithOutput(slots, true)|
  {
    LayoutOwners(slots);
    ProviderOwners(slots);
  }

  function BlockSize(slots: seq<Submodule>, driveApi: nat): nat
  {
    46 + 8 * |SlotApis(slots, driveApi)| + 6 * (|slots| + |WithOutput(slots, true)|)
  }

  lemma {:induction false} SortedLength(keys: set<nat>)
    ensures |Sorted(keys)| == |keys|
  {
    hide Least;
    if keys != {} {
      var m := Least(keys);
      SortedLength(keys - {m});
    }
  }

  lemma DeclaredSize(iocrType: nat, slots: seq<Submodule>, timing: Timing, p: Profile)
    requires GroupsFit(Declared(iocrType, slots, timing, p))
    ensures 46 + |GroupsBytes(Declared(iocrType, slots, timing, p).apis)| == BlockSize(slots, p.driveApi)
    ensures |Declared(iocrType, slots, timing, p).apis| == |SlotApis(slots, p.driveApi)|
  {
    var l := LayoutFor(iocrType, slots);
    var objects, iocs := ObjectEntries(l.objects), IocsEntries(l.iocs);
    var apis := DeclaredApis(objects, iocs, p.driveApi);
    GroupsLength(apis, objects, iocs, p.driveApi);
    TotalOwnedIsAll(apis, objects, p.driveApi);
    TotalOwnedIsAll(apis, iocs, p.driveApi);
    ApiSetsEqual(iocrType, slots, p.driveApi);
    SortedLength(SlotApis(slots, p.driveApi));
    EntryCount(iocrType, slots);
  }

  // The input and the output block of one topology have the same length and the same APIs.
  lemma BlocksSameLength(slots: seq<Submodule>, timing: Timing, p: Profile)
    ensures var i, o := Declared(1, slots, timing, p), Declared(2, slots, timing, p);
            && |i.apis| == |o.apis|
            && (forall k | 0 <= k < |i.apis| :: i.apis[k].api == o.apis[k].api)
            && (Encodable(i) && Encodable(o) ==> |Encode(i)| == |Encode(o)| == BlockSize(slots, p.driveApi))
  {
    var i, o := Declared(1, slots, timing, p), Declared(2, slots, timing, p);
    ApiSetsEqual(1, slots, p.driveApi);
    ApiSetsEqual(2, slots, p.driveApi);
    if Encodable(i) && Encodable(o) {
      DeclaredSize(1, slots, timing, p);
      DeclaredSize(2, slots, timing, p);
    }
  }

  // ---------- when the encoder succeeds ----------

  predicate IdsFit(slots: seq<Submodule>)
  {
    forall s | s in slots :: s.slot < 0x1_0000 && s.subslot < 0x1_0000
  }

  predicate ProfileFits(p: Profile, slots: seq<Submodule>)
  {
    && (forall a | a in SlotApis(slots, p.driveApi) :: a < 0x1_0000_0000)
  }

  lemma {:induction false} OwnedMembers(es: seq<Entry>, api: nat, driveApi: nat)
    ensures forall e :: e in Owned(es, api, driveApi) <==> e in es && ApiOf(e.slot, driveApi) == api
    ensures |Owned(es, api, driveApi)| <= |es|
  {
    if es != [] {
      OwnedMembers(es[..|es| - 1], api, driveApi);
      assert es == es[..|es| - 1] + [es[|es| - 1]];
    }
  }

  lemma EntryIds(iocrType: nat, slots: seq<Submodule>)
    ensures var l := LayoutFor(iocrType, slots);
            IdsFit(slots) <==>
            && (forall e | e in ObjectEntries(l.objects) :: e.slot < 0x1_0000 && e.subslot < 0x1_0000)
            && (forall e | e in IocsEntries(l.iocs) :: e.slot < 0x1_0000 && e.subslot < 0x1_0000)
  {
    var l := LayoutFor(iocrType, slots);
    var os, cs := ObjectEntries(l.objects), IocsEntries(l.iocs);
    LayoutOwners(slots);
    WithOutputMembers(slots, true);
    WithOutputMembers(slots, false);
    var with, without := WithOutput(slots, true), WithOutput(slots, false);
    var providers := if iocrType == IOCR_INPUT then slots else with;
    var consumers := if iocrType == IOCR_INPUT then with else without + with;
    assert |os| == |providers| && forall k | 0 <= k < |os| ::
             os[k].slot == providers[k].slot && os[k].subslot == providers[k].subslot;
    assert |cs| == |consumers| && forall k | 0 <= k < |cs| ::
             cs[k].slot == consumers[k].slot && cs[k].subslot == consumers[k].subslot;
    if IdsFit(slots) {
      assert forall k | 0 <= k < |os| :: providers[k] in slots;
      assert forall k | 0 <= k < |cs| :: consumers[k] in slots;
    } else {
      var s :| s in slots && !(s.slot < 0x1_0000 && s.subslot < 0x1_0000);
      if s in providers {
        var k :| 0 <= k < |providers| && providers[k] == s;
        assert os[k] in os;
      } else {
        assert s in without && s in consumers;
        var k :| 0 <= k < |consumers| && consumers[k] == s;
        assert cs[k] in cs;
      }
    }
  }

  lemma OffsetsInFrame(iocrType: nat, slots: seq<Submodule>)
    ensures var l := LayoutFor(iocrType, slots);
            && (forall e | e in ObjectEntries(l.objects) :: e.offset < l.used)
            && (forall e | e in IocsEntries(l.iocs) :: e.offset < l.used)
  {
    LayoutTilesFrame(slots);
    var l := LayoutFor(iocrType, slots);
    assert forall k | 0 <= k < |l.objects| :: l.objects[k].offset < l.objects[k].End() <= l.used;
  }

  predicate AllFit(es: seq<Entry>) { forall e | e in es :: e.Fits() }

  lemma EncodableEntries(iocrType: nat, slots: seq<Submodule>, timing: Timing, p: Profile)
    requires GroupsFit(Declared(iocrType, slots, timing, p))
    ensures var l := LayoutFor(iocrType, slots);
            && AllFit(ObjectEntries(l.objects)) && AllFit(IocsEntries(l.iocs)) && ProfileFits(p, slots)
  {
    var l := LayoutFor(iocrType, slots);
    var objects, iocs := ObjectEntries(l.objects), IocsEntries(l.iocs);
    var gs := Declared(iocrType, slots, timing, p).apis;
    DeclaredSections(iocrType, slots, timing, p);
    ApiSetsEqual(iocrType, slots, p.driveApi);
    forall e: Entry | e in objects + iocs ensures e.Fits() {
      var k :| 0 <= k < |gs| && gs[k].api == ApiOf(e.slot, p.driveApi);
      assert multiset(gs[k].objects)[e] == multiset(objects)[e] && multiset(gs[k].iocs)[e] == multiset(iocs)[e];
      assert e in multiset(objects) || e in multiset(iocs);
      assert e in gs[k].objects || e in gs[k].iocs;
      assert gs[k] in gs;
    }
    var apis := DeclaredApis(objects, iocs, p.driveApi);
    forall a | a in SlotApis(slots, p.driveApi) ensures a < 0x1_0000_0000 {
      assert a in apis;
      var k :| 0 <= k < |apis| && apis[k] == a;
      assert gs[k] in gs;
    }
  }

  lemma EntriesEncodable(iocrType: nat, slots: seq<Submodule>, timing: Timing, p: Profile)
    requires ProfileFits(p, slots)
    requires var l := LayoutFor(iocrType, slots);
             && AllFit(ObjectEntries(l.objects)) && AllFit(IocsEntries(l.iocs))
             && |l.objects| < 0x1_0000 && |l.iocs| < 0x1_0000
    ensures GroupsFit(Declared(iocrType, slots, timing, p))
  {
    var l := LayoutFor(iocrType, slots);
    var objects, iocs := ObjectEntries(l.objects), IocsEntries(l.iocs);
    var apis := DeclaredApis(objects, iocs, p.driveApi);
    var gs := Declared(iocrType, slots, timing, p).apis;
    ApiSetsEqual(iocrType, slots, p.driveApi);
    forall k | 0 <= k < |gs| ensures gs[k].Fits() {
      OwnedMembers(objects, apis[k], p.driveApi);
      OwnedMembers(iocs, apis[k], p.driveApi);
      assert apis[k] in apis;
    }
  }

  // The encoder raises struct.error exactly when an id, the frame length, an API number, a
  // header value or the block length does not fit its field.
  lemma EncodableIff(iocrType: nat, slots: seq<Submodule>, timing: Timing, p: Profile)
    ensures var h := Declared(iocrType, slots, timing, p).header;
            Encodable(Declared(iocrType, slots, timing, p)) <==>
            && IdsFit(slots)
            && LayoutFor(iocrType, slots).FrameLength() < 0x1_0000
            && ProfileFits(p, slots)
            && iocrType < 0x1_0000 && h.frameId < 0x1_0000 && timing.Fits()
            && BlockSize(slots, p.driveApi) - 4 < 0x1_0000
  {
    var d := Declared(iocrType, slots, timing, p);
    var l := LayoutFor(iocrType, slots);
    EntryIds(iocrType, slots);
    OffsetsInFrame(iocrType, slots);
    EntryCount(iocrType, slots);
    if Encodable(d) {
      EncodableEntries(iocrType, slots, timing, p);
      DeclaredSize(iocrType, slots, timing, p);
    } else if IdsFit(slots) && l.FrameLength() < 0x1_0000 && ProfileFits(p, slots)
              && BlockSize(slots, p.driveApi) - 4 < 0x1_0000 {
      EntriesEncodable(iocrType, slots, timing, p);
      DeclaredSize(iocrType, slots, timing, p);
    }
  }

  // ---------- the running configuration ----------

  datatype IoDataObject = IoDataObject(slot: nat, subslot: nat, frameOffset: nat, dataLength: nat,
                                       iopsOffset: nat, iocsOffset: nat)

  datatype IocrConfig = IocrConfig(iocrType: nat, reference: nat, frameId: nat, sendClock: nat, reduction: nat,
                                   phase: nat, watchdog: nat, dataLength: nat, objects: seq<IoDataObject>)
  {
    predicate FixedTiming()
    {
      sendClock == 32 && reduction == 16 && phase == 1 && watchdog == 3
    }
  }

  const SEND_CLOCK_FACTOR := 32
  const CYCLE_MS := 16
  const WATCHDOG_FACTOR := 3

  method BuildConfig(iocrType: nat, reference: nat, frameId: nat, objs: seq<DataObject>, iocs: seq<Iocs>, dlen: nat)
    returns (c: IocrConfig)
    ensures c.iocrType == iocrType && c.reference == reference && c.frameId == frameId && c.dataLength == dlen
    ensures |c.objects| == |objs| + |iocs|
    ensures forall k | 0 <= k < |objs| ::
              c.objects[k] == IoDataObject(objs[k].slot, objs[k].subslot, objs[k].offset, objs[k].length,
                                           objs[k].End() - 1, 0)
    ensures forall k | 0 <= k < |iocs| ::
              c.objects[|objs| + k] == IoDataObject(iocs[k].slot, iocs[k].subslot, 0, 0, 0, iocs[k].offset)
    ensures c.FixedTiming()
  {
    var io: seq<IoDataObject> := [];
    for i := 0 to |objs|
      invariant |io| == i
      invariant forall k | 0 <= k < i ::
                  io[k] == IoDataObject(objs[k].slot, objs[k].subslot, objs[k].offset, objs[k].length,
                                        objs[k].End() - 1, 0)
    {
      var o := objs[i];
      io := io + [IoDataObject(o.slot, o.subslot, o.offset, o.length, o.offset + o.length, 0)];
    }
    ghost var data := io;
    for i := 0 to |iocs|
      invariant |io| == |objs| + i && io[..|objs|] == data
      invariant forall k | 0 <= k < i ::
                  io[|objs| + k] == IoDataObject(iocs[k].slot, iocs[k].subslot, 0, 0, 0, iocs[k].offset)
    {
      io := io + [IoDataObject(iocs[i].slot, iocs[i].subslot, 0, 0, 0, iocs[i].offset)];
    }
    assert forall k | 0 <= k < |objs| :: io[k] == data[k];
    c := IocrConfig(iocrType, reference, frameId, SEND_CLOCK_FACTOR, CYCLE_MS, 1, WATCHDOG_FACTOR, dlen, io);
  }

  // c carries the layout's data objects and, when `withIocs`, its IOCS bytes, at the layout's offsets
  ghost predicate Runs(c: IocrConfig, l: CrLayout, withIocs: bool)
  {
    && c.dataLength == l.FrameLength()
    && |c.objects| == |l.objects| + (if withIocs then |l.iocs| else 0)
    && (forall k | 0 <= k < |l.objects| ::
          c.objects[k] == IoDataObject(l.objects[k].slot, l.objects[k].subslot, l.objects[k].offset,
                                       l.objects[k].length, l.objects[k].End() - 1, 0))
    && (withIocs ==> forall k | 0 <= k < |l.iocs| ::
          c.objects[|l.objects| + k] == IoDataObject(l.iocs[k].slot, l.iocs[k].subslot, 0, 0, 0, l.iocs[k].offset))
  }

  method BuildIocrConfigs(slots: seq<Submodule>, fidIn: nat, fidOut: nat)
    returns (inCfg: IocrConfig, outCfg: IocrConfig)
    ensures Runs(inCfg, InputLayout(slots), false) && inCfg.frameId == fidIn
    ensures inCfg.iocrType == 1 && inCfg.reference == 1 && inCfg.FixedTiming()
    ensures Runs(outCfg, OutputLayout(slots), true) && outCfg.frameId == fidOut
    ensures outCfg.iocrType == 2 && outCfg.reference == 2 && outCfg.FixedTiming()
  {
    var inObjs, inIocs, inLen, outObjs, outIocs, outLen := ComputeLayout(slots);
    inCfg := BuildConfig(1, 1, fidIn, inObjs, [], inLen);
    outCfg := BuildConfig(2, 2, fidOut, outObjs, outIocs, outLen);
  }

  // Section `api` of the block on the wire lists this object / IOCS entry
  ghost predicate Lists(block: bytes, driveApi: nat, e: Entry, iocs: bool)
  {
    match Decode(block)
    case None => false
    case Some(d) =>
      exists k :: 0 <= k < |d.apis| && d.apis[k].api == ApiOf(e.slot, driveApi)
                  && e in if iocs then d.apis[k].iocs else d.apis[k].objects
  }

  // The running configuration provides / consumes exactly at this slot, subslot and offset
  ghost predicate Provides(c: IocrConfig, n: nat, e: Entry)
    requires n <= |c.objects|
  {
    exists k :: 0 <= k < n && Entry(c.objects[k].slot, c.objects[k].subslot, c.objects[k].frameOffset) == e
  }

  ghost predicate Consumes(c: IocrConfig, n: nat, e: Entry)
    requires n <= |c.objects|
  {
    exists k :: n <= k < |c.objects| && Entry(c.objects[k].slot, c.objects[k].subslot, c.objects[k].iocsOffset) == e
  }

  // What a device decodes from the declared block is what the controller runs: the same frame
  // length, and an object or IOCS byte is declared at an offset exactly when it runs there.
  lemma DeclaredIsRunning(iocrType: nat, slots: seq<Submodule>, timing: Timing, p: Profile, c: IocrConfig)
    requires Encodable(Declared(iocrType, slots, timing, p))
    requires Runs(c, LayoutFor(iocrType, slots), iocrType != IOCR_INPUT)
    ensures var block := Encode(Declared(iocrType, slots, timing, p));
            var n := |LayoutFor(iocrType, slots).objects|;
            && Decode(block).Some? && Decode(block).value.header.dataLength == c.dataLength
            && (var used := LayoutFor(iocrType, slots).used;
                (used <= 40 ==> c.dataLength == 40) && (used >= 40 ==> c.dataLength == used))
            && (forall e :: Lists(block, p.driveApi, e, false) <==> Provides(c, n, e))
            && (iocrType != IOCR_INPUT ==> forall e :: Lists(block, p.driveApi, e, true) <==> Consumes(c, n, e))
  {
    var d := Declared(iocrType, slots, timing, p);
    DecodeInverts(d);
    forall e
      ensures Lists(Encode(d), p.driveApi, e, false) <==> Provides(c, |LayoutFor(iocrType, slots).objects|, e)
      ensures iocrType != IOCR_INPUT ==>
        (Lists(Encode(d), p.driveApi, e, true) <==> Consumes(c, |LayoutFor(iocrType, slots).objects|, e))
    {
      ListsIff(iocrType, slots, timing, p, e);
      RunsIff(c, LayoutFor(iocrType, slots), iocrType != IOCR_INPUT, e);
    }
  }

  lemma RunsIff(c: IocrConfig, l: CrLayout, withIocs: bool, e: Entry)
    requires Runs(c, l, withIocs)
    ensures Provides(c, |l.objects|, e) <==> e in ObjectEntries(l.objects)
    ensures withIocs ==> (Consumes(c, |l.objects|, e) <==> e in IocsEntries(l.iocs))
  {
    var n := |l.objects|;
    var objects, iocs := ObjectEntries(l.objects), IocsEntries(l.iocs);
    assert forall k | 0 <= k < n ::
             objects[k] == Entry(c.objects[k].slot, c.objects[k].subslot, c.objects[k].frameOffset);
    if withIocs {
      if e in iocs {
        var k :| 0 <= k < |iocs| && iocs[k] == e;
        assert Entry(c.objects[n + k].slot, c.objects[n + k].subslot, c.objects[n + k].iocsOffset) == e;
      }
      if Consumes(c, n, e) {
        var k :| n <= k < |c.objects| && Entry(c.objects[k].slot, c.objects[k].subslot, c.objects[k].iocsOffset) == e;
        assert c.objects[k] == c.objects[n + (k - n)];
        assert iocs[k - n] == e;
      }
    }
  }

  lemma ListsIff(iocrType: nat, slots: seq<Submodule>, timing: Timing, p: Profile, e: Entry)
    requires Encodable(Declared(iocrType, slots, timing, p))
    ensures var block := Encode(Declared(iocrType, slots, timing, p));
            var l := LayoutFor(iocrType, slots);
            && (Lists(block, p.driveApi, e, false) <==> e in ObjectEntries(l.objects))
            && (Lists(block, p.driveApi, e, true) <==> e in IocsEntries(l.iocs))
  {
    hide Declared, Encode, Decode, LayoutFor, ExactlyOwned, Ascends;
    var d := Declared(iocrType, slots, timing, p);
    DecodeInverts(d);
    DeclaredSections(iocrType, slots, timing, p);
    SectionMembers(d.apis, LayoutFor(iocrType, slots), p.driveApi, e);
  }

  lemma SectionMembers(gs: seq<ApiGroup>, l: CrLayout, driveApi: nat, e: Entry)
    requires forall k | 0 <= k < |gs| :: ExactlyOwned(gs[k].objects, ObjectEntries(l.objects), gs[k].api, driveApi)
    requires forall k | 0 <= k < |gs| :: ExactlyOwned(gs[k].iocs, IocsEntries(l.iocs), gs[k].api, driveApi)
    requires e in ObjectEntries(l.objects) + IocsEntries(l.iocs) ==> HasSection(gs, ApiOf(e.slot, driveApi))
    ensures (exists k :: 0 <= k < |gs| && gs[k].api == ApiOf(e.slot, driveApi) && e in gs[k].objects)
            <==> e in ObjectEntries(l.objects)
    ensures (exists k :: 0 <= k < |gs| && gs[k].api == ApiOf(e.slot, driveApi) && e in gs[k].iocs)
            <==> e in IocsEntries(l.iocs)
  {
    var objects, iocs := ObjectEntries(l.objects), IocsEntries(l.iocs);
    forall k | 0 <= k < |gs| && gs[k].api == ApiOf(e.slot, driveApi)
      ensures e in gs[k].objects <==> e in objects
      ensures e in gs[k].iocs <==> e in iocs
    {
      assert e in multiset(gs[k].objects) <==> e in multiset(objects);
      assert e in multiset(gs[k].iocs) <==> e in multiset(iocs);
    }
  }
}
