// The two IOCRBlockReqs of the reference capture (HANDOFF.md), reproduced from the topology.
module Golden {
  import opened Bytes
  import opened IocrLayout
  import opened IocrBlock
  import IocrAgreement

  // DAP, interface and two ports on slot 0; module, empty sub-module and telegram on slot 1
  const TOPOLOGY: seq<Submodule> := [
    Submodule(0, 1, 0, 0), Submodule(0, 0x8000, 0, 0), Submodule(0, 0x8001, 0, 0), Submodule(0, 0x8002, 0, 0),
    Submodule(1, 1, 0, 0), Submodule(1, 2, 0, 0), Submodule(1, 3, 64, 64)]

  const TIMING := Timing(32, 16, 3, 3)
  const PROFILE := Profile(0x3A00, 2, 0x8000, 0xFFFF)

  // The captured bytes, field by field
  const BLOCK_HEADER: bytes := [0x01, 0x02, 0x00, 0x6A, 0x01, 0x00]
  const INPUT_HEADER: bytes :=
    [0x00, 0x01] + [0x10, 0x00] + [0x88, 0x92] + [0x00, 0x00, 0x00, 0x02] + [0x00, 0x48] + [0x80, 0x00]
    + [0x00, 0x20] + [0x00, 0x10] + [0x00, 0x01] + [0x00, 0x00] + [0xFF, 0xFF, 0xFF, 0xFF] + [0x00, 0x03]
    + [0x00, 0x03] + [0xC0, 0x00] + [0x00, 0x00, 0x00, 0x00, 0x00, 0x00] + [0x00, 0x02]
  const OUTPUT_HEADER: bytes :=
    [0x00, 0x02] + [0x20, 0x00] + [0x88, 0x92] + [0x00, 0x00, 0x00, 0x02] + [0x00, 0x48] + [0xFF, 0xFF]
    + [0x00, 0x20] + [0x00, 0x10] + [0x00, 0x01] + [0x00, 0x00] + [0xFF, 0xFF, 0xFF, 0xFF] + [0x00, 0x03]
    + [0x00, 0x03] + [0xC0, 0x00] + [0x00, 0x00, 0x00, 0x00, 0x00, 0x00] + [0x00, 0x02]
  const DAP_ENTRIES: bytes :=
    [0x00, 0x00, 0x00, 0x01, 0x00, 0x00] + [0x00, 0x00, 0x80, 0x00, 0x00, 0x01]
    + [0x00, 0x00, 0x80, 0x01, 0x00, 0x02] + [0x00, 0x00, 0x80, 0x02, 0x00, 0x03]
  const MODULE_ENTRIES: bytes := [0x00, 0x01, 0x00, 0x01, 0x00, 0x04] + [0x00, 0x01, 0x00, 0x02, 0x00, 0x05]
  const TELEGRAM_ENTRY: bytes := [0x00, 0x01, 0x00, 0x03, 0x00, 0x06]
  const CONSUMED_ENTRY: bytes := [0x00, 0x01, 0x00, 0x03, 0x00, 0x47]
  const INPUT_API0: bytes := [0x00, 0x00, 0x00, 0x00] + [0x00, 0x04] + DAP_ENTRIES + [0x00, 0x00] + []
  const INPUT_DRIVE: bytes :=
    [0x00, 0x00, 0x3A, 0x00] + [0x00, 0x03] + (MODULE_ENTRIES + TELEGRAM_ENTRY) + [0x00, 0x01] + CONSUMED_ENTRY
  const OUTPUT_API0: bytes := [0x00, 0x00, 0x00, 0x00] + [0x00, 0x00] + [] + [0x00, 0x04] + DAP_ENTRIES
  const OUTPUT_DRIVE: bytes :=
    [0x00, 0x00, 0x3A, 0x00] + [0x00, 0x01] + TELEGRAM_ENTRY + [0x00, 0x03] + (MODULE_ENTRIES + CONSUMED_ENTRY)

  const D0 := Entry(0, 1, 0)
  const D1 := Entry(0, 0x8000, 1)
  const D2 := Entry(0, 0x8001, 2)
  const D3 := Entry(0, 0x8002, 3)
  const M1 := Entry(1, 1, 4)
  const M2 := Entry(1, 2, 5)
  const TELEGRAM := Entry(1, 3, 6)
  const CONSUMED := Entry(1, 3, 71)

  // Sub-modules without data: one IOPS byte each going in, one IOCS byte each going out
  lemma {:induction false} EmptySubmodules(slots: seq<Submodule>, l: CrLayout)
    requires forall k | 0 <= k < |slots| :: slots[k].inputLength == slots[k].outputLength == 0
    ensures var i := InputProviders(slots);
            && |i.objects| == i.used == |slots| && i.iocs == []
            && forall k | 0 <= k < |slots| :: i.objects[k] == DataObject(slots[k].slot, slots[k].subslot, k, 0)
    ensures var o := OutputProviders(slots);
            && |o.iocs| == o.used == |slots| && o.objects == []
            && forall k | 0 <= k < |slots| :: o.iocs[k] == Iocs(slots[k].slot, slots[k].subslot, k)
    ensures Trailing(l, slots) == l
  {
    if slots != [] { EmptySubmodules(Front(slots), l); }
  }

  lemma AddTelegram(slots: seq<Submodule>, s: Submodule)
    requires s.HasOutput()
    requires forall l :: Trailing(l, slots) == l
    ensures InputLayout(slots + [s]) == InputProviders(slots).AddObject(s, s.inputLength).AddIocs(s)
    ensures OutputLayout(slots + [s]) == OutputProviders(slots).AddObject(s, s.outputLength).AddIocs(s)
  {
    var all := slots + [s];
    assert Front(all) == slots && Last(all) == s;
    var i, o := InputProviders(all), OutputProviders(all);
    assert Trailing(i, all) == Trailing(i, slots).AddIocs(s);
    assert Trailing(o, all) == Trailing(o, slots).AddIocs(s);
  }

  lemma GoldenLayout()
    ensures ObjectEntries(InputLayout(TOPOLOGY).objects) == [D0, D1, D2, D3, M1, M2, TELEGRAM]
    ensures IocsEntries(InputLayout(TOPOLOGY).iocs) == [CONSUMED]
    ensures ObjectEntries(OutputLayout(TOPOLOGY).objects) == [TELEGRAM]
    ensures IocsEntries(OutputLayout(TOPOLOGY).iocs) == [D0, D1, D2, D3, M1, M2, CONSUMED]
    ensures InputLayout(TOPOLOGY).FrameLength() == OutputLayout(TOPOLOGY).FrameLength() == 72
  {
    hide InputProviders, OutputProviders, Trailing, InputLayout, OutputLayout, ObjectEntries, IocsEntries;
    var slots, s := TOPOLOGY[..6], TOPOLOGY[6];
    assert slots + [s] == TOPOLOGY;
    forall l ensures Trailing(l, slots) == l { EmptySubmodules(slots, l); }
    EmptySubmodules(slots, EMPTY);
    AddTelegram(slots, s);
  }

  // ---------- entries owned by each API ----------

  lemma OwnedAppend(es: seq<Entry>, more: seq<Entry>, api: nat)
    ensures Owned(es + more, api, 0x3A00) == Owned(es, api, 0x3A00) + Owned(more, api, 0x3A00)
  {
    if more == [] {
      assert es + more == es;
    } else {
      var n := |more| - 1;
      assert (es + more)[..|es| + n] == es + more[..n];
      OwnedAppend(es, more[..n], api);
    }
  }

  // Slot 0 belongs to API 0, every other slot to the drive's API.
  lemma {:induction false} OwnedUniform(es: seq<Entry>, api: nat, mine: bool)
    requires forall e | e in es :: (ApiOf(e.slot, 0x3A00) == api) == mine
    ensures Owned(es, api, 0x3A00) == if mine then es else []
  {
    if es != [] {
      OwnedUniform(es[..|es| - 1], api, mine);
      assert es[|es| - 1] in es;
    }
  }

  lemma Split(dap: seq<Entry>, drive: seq<Entry>)
    requires forall e | e in dap :: e.slot == 0
    requires forall e | e in drive :: e.slot != 0
    ensures Owned(dap + drive, 0, 0x3A00) == dap
    ensures Owned(dap + drive, 0x3A00, 0x3A00) == drive
  {
    OwnedAppend(dap, drive, 0);
    OwnedAppend(dap, drive, 0x3A00);
    OwnedUniform(dap, 0, true);
    OwnedUniform(dap, 0x3A00, false);
    OwnedUniform(drive, 0, false);
    OwnedUniform(drive, 0x3A00, true);
  }

  lemma TwoApis(objects: seq<Entry>, iocs: seq<Entry>)
    requires Apis(objects, 0x3A00) + Apis(iocs, 0x3A00) == {0, 0x3A00}
    ensures DeclaredApis(objects, iocs, 0x3A00) == [0, 0x3A00]
  {
    var s := DeclaredApis(objects, iocs, 0x3A00);
    IocrAgreement.SortedLength({0, 0x3A00});
    assert |s| == 2 && s[0] in s && s[1] in s && s[0] < s[1];
  }

  // ---------- the captured blocks ----------

  lemma EntryLit(e: Entry)
    requires e.Fits()
    ensures EntryBytes(e) == [e.slot / 0x100, e.slot % 0x100, e.subslot / 0x100, e.subslot % 0x100,
                              e.offset / 0x100, e.offset % 0x100]
  {
  }

  lemma Entries1(a: Entry)
    requires a.Fits()
    ensures EntriesBytes([a]) == EntryBytes(a)
  {
    hide EntryBytes;
    assert [a][..0] == [];
  }

  lemma EntriesMore(es: seq<Entry>, e: Entry)
    requires e.Fits() && forall x | x in es :: x.Fits()
    ensures EntriesBytes(es + [e]) == EntriesBytes(es) + EntryBytes(e)
  {
    hide EntryBytes;
    assert (es + [e])[..|es|] == es;
  }

  lemma DapBytes()
    ensures EntriesBytes([D0, D1, D2, D3]) == DAP_ENTRIES
  {
    hide EntryBytes, EntriesBytes;
    Entries1(D0); EntriesMore([D0], D1); EntriesMore([D0, D1], D2); EntriesMore([D0, D1, D2], D3);
    assert [D0] + [D1] == [D0, D1] && [D0, D1] + [D2] == [D0, D1, D2] && [D0, D1, D2] + [D3] == [D0, D1, D2, D3];
    EntryLit(D0); EntryLit(D1); EntryLit(D2); EntryLit(D3);
  }

  lemma DriveBytes(last: Entry)
    requires last.Fits()
    ensures EntriesBytes([M1, M2, last]) == MODULE_ENTRIES + EntryBytes(last)
  {
    hide EntryBytes, EntriesBytes;
    Entries1(M1); EntriesMore([M1], M2); EntriesMore([M1, M2], last);
    assert [M1] + [M2] == [M1, M2] && [M1, M2] + [last] == [M1, M2, last];
    EntryLit(M1); EntryLit(M2);
  }

  lemma WordLits()
    ensures Be16(0) == [0, 0] && Be16(1) == [0, 1] && Be16(2) == [0, 2] && Be16(3) == [0, 3] && Be16(4) == [0, 4]
    ensures Be16(16) == [0, 0x10] && Be16(32) == [0, 0x20] && Be16(72) == [0, 0x48]
    ensures Be16(0x1000) == [0x10, 0] && Be16(0x2000) == [0x20, 0] && Be16(0x8000) == [0x80, 0]
    ensures Be16(0x8892) == [0x88, 0x92] && Be16(0xC000) == [0xC0, 0] && Be16(0xFFFF) == [0xFF, 0xFF]
    ensures Be32(0) == [0, 0, 0, 0] && Be32(2) == [0, 0, 0, 2] && Be32(0x3A00) == [0, 0, 0x3A, 0]
    ensures Be32(0xFFFF_FFFF) == [0xFF, 0xFF, 0xFF, 0xFF] && Zeros(6) == [0, 0, 0, 0, 0, 0]
  {
  }

  lemma DapGroups()
    ensures GroupBytes(ApiGroup(0, [D0, D1, D2, D3], [])) == INPUT_API0
    ensures GroupBytes(ApiGroup(0, [], [D0, D1, D2, D3])) == OUTPUT_API0
  {
    hide EntryBytes, EntriesBytes, Be16, Be32;
    DapBytes();
    NoEntries();
    WordLits();
  }

  lemma NoEntries()
    ensures EntriesBytes([]) == []
  {
  }

  lemma DriveGroups()
    ensures GroupBytes(ApiGroup(0x3A00, [M1, M2, TELEGRAM], [CONSUMED])) == INPUT_DRIVE
    ensures GroupBytes(ApiGroup(0x3A00, [TELEGRAM], [M1, M2, CONSUMED])) == OUTPUT_DRIVE
  {
    hide EntryBytes, EntriesBytes, Be16, Be32;
    DriveBytes(TELEGRAM); DriveBytes(CONSUMED);
    Entries1(TELEGRAM); Entries1(CONSUMED);
    EntryLit(TELEGRAM); EntryLit(CONSUMED);
    WordLits();
  }

  lemma TwoGroups(a: ApiGroup, b: ApiGroup)
    requires a.Fits() && b.Fits()
    ensures GroupsBytes([a, b]) == GroupBytes(a) + GroupBytes(b)
  {
    hide GroupBytes, ApiGroup.Fits;
    assert [a, b][..1] == [a] && [a][..0] == [] && [a, b][1] == b;
    assert GroupsBytes([a]) == [] + GroupBytes(a) == GroupBytes(a);
  }

  lemma GoldenHeaders()
    ensures HeaderBytes(Header(1, 0x1000, 2, 72, 0x8000, TIMING), 2) == INPUT_HEADER
    ensures HeaderBytes(Header(2, 0x2000, 2, 72, 0xFFFF, TIMING), 2) == OUTPUT_HEADER
  {
    hide Be16, Be32, Zeros;
    WordLits();
  }

  lemma ApisAre(es: seq<Entry>, others: seq<Entry>)
    requires |es| == 7 && es[0].slot == 0 && es[6].slot != 0
    ensures Apis(es, 0x3A00) + Apis(others, 0x3A00) == Apis(others, 0x3A00) + Apis(es, 0x3A00) == {0, 0x3A00}
  {
    assert es[0] in es && es[6] in es;
    assert ApiOf(es[0].slot, 0x3A00) in Apis(es, 0x3A00) && ApiOf(es[6].slot, 0x3A00) in Apis(es, 0x3A00);
  }

  lemma GoldenInputDeclaration()
    ensures Declared(1, TOPOLOGY, TIMING, PROFILE)
         == Declaration(Header(1, 0x1000, 2, 72, 0x8000, TIMING),
                        [ApiGroup(0, [D0, D1, D2, D3], []), ApiGroup(0x3A00, [M1, M2, TELEGRAM], [CONSUMED])])
  {
    hide InputLayout, OutputLayout, ObjectEntries, IocsEntries, Owned, Apis, Sorted, DeclaredApis;
    GoldenLayout();
    var objects, iocs := [D0, D1, D2, D3, M1, M2, TELEGRAM], [CONSUMED];
    assert objects == [D0, D1, D2, D3] + [M1, M2, TELEGRAM] && iocs == [] + [CONSUMED];
    Split([D0, D1, D2, D3], [M1, M2, TELEGRAM]);
    Split([], [CONSUMED]);
    ApisAre(objects, iocs);
    TwoApis(objects, iocs);
  }

  lemma GoldenOutputDeclaration()
    ensures Declared(2, TOPOLOGY, TIMING, PROFILE)
         == Declaration(Header(2, 0x2000, 2, 72, 0xFFFF, TIMING),
                        [ApiGroup(0, [], [D0, D1, D2, D3]), ApiGroup(0x3A00, [TELEGRAM], [M1, M2, CONSUMED])])
  {
    hide InputLayout, OutputLayout, ObjectEntries, IocsEntries, Owned, Apis, Sorted, DeclaredApis;
    GoldenLayout();
    var objects, iocs := [TELEGRAM], [D0, D1, D2, D3, M1, M2, CONSUMED];
    assert iocs == [D0, D1, D2, D3] + [M1, M2, CONSUMED] && objects == [] + [TELEGRAM];
    Split([D0, D1, D2, D3], [M1, M2, CONSUMED]);
    Split([], [TELEGRAM]);
    ApisAre(iocs, objects);
    TwoApis(objects, iocs);
  }

  // The encoder reproduces both blocks of the capture byte for byte.
  lemma GoldenBlocks()
    ensures Encodable(Declared(1, TOPOLOGY, TIMING, PROFILE)) && Encodable(Declared(2, TOPOLOGY, TIMING, PROFILE))
    ensures Encode(Declared(1, TOPOLOGY, TIMING, PROFILE)) == BLOCK_HEADER + INPUT_HEADER + INPUT_API0 + INPUT_DRIVE
    ensures Encode(Declared(2, TOPOLOGY, TIMING, PROFILE)) == BLOCK_HEADER + OUTPUT_HEADER + OUTPUT_API0 + OUTPUT_DRIVE
  {
    hide Declared, GroupBytes, GroupsBytes, HeaderBytes;
    GoldenInputDeclaration();
    GoldenOutputDeclaration();
    DapGroups();
    DriveGroups();
    GoldenHeaders();
    var inDap, inDrive := ApiGroup(0, [D0, D1, D2, D3], []), ApiGroup(0x3A00, [M1, M2, TELEGRAM], [CONSUMED]);
    var outDap, outDrive := ApiGroup(0, [], [D0, D1, D2, D3]), ApiGroup(0x3A00, [TELEGRAM], [M1, M2, CONSUMED]);
    TwoGroups(inDap, inDrive);
    TwoGroups(outDap, outDrive);
    EncodeParts(Declared(1, TOPOLOGY, TIMING, PROFILE), INPUT_HEADER, INPUT_API0, INPUT_DRIVE);
    EncodeParts(Declared(2, TOPOLOGY, TIMING, PROFILE), OUTPUT_HEADER, OUTPUT_API0, OUTPUT_DRIVE);
  }

  lemma EncodeParts(d: Declaration, header: bytes, first: bytes, second: bytes)
    requires HeaderFits(d.header, |d.apis|) && GroupsFit(d)
    requires HeaderBytes(d.header, |d.apis|) == header && GroupsBytes(d.apis) == first + second
    requires |header| == 40 && |first| == |second| == 32
    ensures Encodable(d) && Encode(d) == BLOCK_HEADER + header + first + second
  {
    hide HeaderBytes, GroupsBytes;
    assert Be16(0x0102) + Be16(106) + [1, 0] == BLOCK_HEADER;
    Assoc(header, first, second);
    Assoc(BLOCK_HEADER, header + first, second);
    Assoc(BLOCK_HEADER, header, first);
  }
}
