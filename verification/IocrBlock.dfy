// The IOCRBlockReq encoder of profinet_ctrl.py and a decoder for the block it emits.
module IocrBlock {
  import opened Bytes
  import opened IocrLayout

  // (slot, subslot, frame offset), the shape both lists of an API section hold
  datatype Entry = Entry(slot: nat, subslot: nat, offset: nat)
  {
    predicate Fits() { slot < 0x1_0000 && subslot < 0x1_0000 && offset < 0x1_0000 }
  }

  datatype ApiGroup = ApiGroup(api: nat, objects: seq<Entry>, iocs: seq<Entry>)
  {
    predicate Fits()
    {
      && api < 0x1_0000_0000 && |objects| < 0x1_0000 && |iocs| < 0x1_0000
      && (forall e | e in objects :: e.Fits())
      && (forall e | e in iocs :: e.Fits())
    }
  }

  // Everything in the block that is not a constant of the encoder
  datatype Timing = Timing(sendClock: nat, reduction: nat, watchdog: nat, dataHold: nat)
  {
    predicate Fits()
    {
      sendClock < 0x1_0000 && reduction < 0x1_0000 && watchdog < 0x1_0000 && dataHold < 0x1_0000
    }
  }

  datatype Header = Header(iocrType: nat, reference: nat, properties: u32,
                           dataLength: nat, frameId: nat, timing: Timing)

  datatype Declaration = Declaration(header: Header, apis: seq<ApiGroup>)

  // ---------- the block as bytes ----------

  function EntryBytes(e: Entry): bytes
    requires e.Fits()
  {
    Be16(e.slot) + Be16(e.subslot) + Be16(e.offset)
  }

  function EntriesBytes(es: seq<Entry>): (s: bytes)
    requires forall e | e in es :: e.Fits()
    ensures |s| == 6 * |es|
  {
    if es == [] then [] else EntriesBytes(es[..|es| - 1]) + EntryBytes(es[|es| - 1])
  }

  function GroupBytes(g: ApiGroup): (s: bytes)
    requires g.Fits()
    ensures |s| == 8 + 6 * (|g.objects| + |g.iocs|)
  {
    Be32(g.api) + Be16(|g.objects|) + EntriesBytes(g.objects) + Be16(|g.iocs|) + EntriesBytes(g.iocs)
  }

  function GroupsBytes(gs: seq<ApiGroup>): bytes
    requires forall g | g in gs :: g.Fits()
  {
    if gs == [] then [] else GroupsBytes(gs[..|gs| - 1]) + GroupBytes(gs[|gs| - 1])
  }

  predicate HeaderFits(h: Header, apiCount: nat)
  {
    && h.iocrType < 0x1_0000 && h.reference < 0x1_0000 && h.dataLength < 0x1_0000 && h.frameId < 0x1_0000
    && h.timing.Fits() && apiCount < 0x1_0000
  }

  function HeaderBytes(h: Header, apiCount: nat): (s: bytes)
    requires HeaderFits(h, apiCount)
    ensures |s| == 40
  {
    Be16(h.iocrType) + Be16(h.reference) + Be16(0x8892) + Be32(h.properties)
    + Be16(h.dataLength) + Be16(h.frameId) + Be16(h.timing.sendClock) + Be16(h.timing.reduction)
    + Be16(1) + Be16(0) + Be32(0xFFFF_FFFF)
    + Be16(h.timing.watchdog) + Be16(h.timing.dataHold) + Be16(0xC000) + Zeros(6) + Be16(apiCount)
  }

  predicate GroupsFit(d: Declaration) { forall g | g in d.apis :: g.Fits() }

  // struct.pack accepts every field, BlockLength included
  predicate Encodable(d: Declaration)
  {
    HeaderFits(d.header, |d.apis|) && GroupsFit(d) && 42 + |GroupsBytes(d.apis)| < 0x1_0000
  }

  function Encode(d: Declaration): bytes
    requires Encodable(d)
  {
    var body := HeaderBytes(d.header, |d.apis|) + GroupsBytes(d.apis);
    Be16(0x0102) + Be16(|body| + 2) + [1, 0] + body
  }

  // ---------- a decoder for the block ----------

  function DecodeEntries(s: bytes, n: nat): (r: Option<(seq<Entry>, bytes)>)
  {
    if n == 0 then Some(([], s))
    else if |s| < 6 then None
    else
      match DecodeEntries(s[6..], n - 1)
      case None => None
      case Some((es, rest)) => Some(([Entry(GetBe16(s, 0), GetBe16(s, 2), GetBe16(s, 4))] + es, rest))
  }

  function DecodeGroup(s: bytes): (r: Option<(ApiGroup, bytes)>)
    ensures r.Some? ==> |r.value.1| < |s|
  {
    if |s| < 6 then None
    else
      match DecodeEntries(s[6..], GetBe16(s, 4))
      case None => None
      case Some((objects, afterObjects)) =>
        if |afterObjects| < 2 || |afterObjects| > |s| - 6 then None
        else
          match DecodeEntries(afterObjects[2..], GetBe16(afterObjects, 0))
          case None => None
          case Some((iocs, rest)) =>
            if |rest| > |afterObjects| - 2 then None
            else Some((ApiGroup(GetBe32(s, 0), objects, iocs), rest))
  }

  function DecodeGroups(s: bytes, n: nat): Option<seq<ApiGroup>>
    decreases n
  {
    if n == 0 then (if s == [] then Some([]) else None)
    else
      match DecodeGroup(s)
      case None => None
      case Some((g, rest)) =>
        match DecodeGroups(rest, n - 1)
        case None => None
        case Some(gs) => Some([g] + gs)
  }

  // Refuses a block whose type, version or BlockLength is not the encoder's.
  function Decode(s: bytes): Option<Declaration>
  {
    if |s| < 46 || s[..2] != Be16(0x0102) || s[4..6] != [1, 0] || GetBe16(s, 2) != |s| - 4 then None
    else
      match DecodeGroups(s[46..], GetBe16(s, 44))
      case None => None
      case Some(apis) =>
        var timing := Timing(GetBe16(s, 20), GetBe16(s, 22), GetBe16(s, 32), GetBe16(s, 34));
        Some(Declaration(Header(GetBe16(s, 6), GetBe16(s, 8), GetBe32(s, 12), GetBe16(s, 16), GetBe16(s, 18), timing),
                         apis))
  }

  // ---------- round trip ----------

  lemma {:induction false} EntriesFrontFirst(es: seq<Entry>)
    requires es != []
    requires forall e | e in es :: e.Fits()
    ensures EntriesBytes(es) == EntryBytes(es[0]) + EntriesBytes(es[1..])
  {
    hide EntryBytes;
    var front, last := es[..|es| - 1], es[|es| - 1];
    if |es| == 1 {
      assert front == [] && es[1..] == [];
    } else {
      EntriesFrontFirst(front);
      assert es[1..][..|es| - 2] == front[1..];
      Assoc(EntryBytes(es[0]), EntriesBytes(front[1..]), EntryBytes(last));
    }
  }

  lemma {:induction false} DecodeEntriesInverts(es: seq<Entry>, rest: bytes)
    requires forall e | e in es :: e.Fits()
    ensures DecodeEntries(EntriesBytes(es) + rest, |es|) == Some((es, rest))
  {
    hide EntryBytes, GetBe16;
    var s := EntriesBytes(es) + rest;
    if es == [] {
      assert s == rest;
    } else {
      EntriesFrontFirst(es);
      DecodeEntriesInverts(es[1..], rest);
      assert s[6..] == EntriesBytes(es[1..]) + rest;
      var e := es[0];
      assert s[..6] == EntryBytes(e);
      EntryReadsBack(s, e);
      assert [e] + es[1..] == es;
    }
  }

  lemma EntryReadsBack(s: bytes, e: Entry)
    requires e.Fits() && |s| >= 6 && s[..6] == EntryBytes(e)
    ensures GetBe16(s, 0) == e.slot && GetBe16(s, 2) == e.subslot && GetBe16(s, 4) == e.offset
  {
    assert s[0..2] == s[..6][0..2] && s[2..4] == s[..6][2..4] && s[4..6] == s[..6][4..6];
    ReadsBack16(s, 0, e.slot);
    ReadsBack16(s, 2, e.subslot);
    ReadsBack16(s, 4, e.offset);
  }

  lemma DecodeGroupInverts(g: ApiGroup, rest: bytes)
    requires g.Fits()
    ensures DecodeGroup(GroupBytes(g) + rest) == Some((g, rest))
  {
    var s := GroupBytes(g) + rest;
    var objects := EntriesBytes(g.objects);
    var afterObjects := Be16(|g.iocs|) + (EntriesBytes(g.iocs) + rest);
    assert s == Be32(g.api) + Be16(|g.objects|) + (objects + afterObjects);
    assert s[0..4] == Be32(g.api) && s[4..6] == Be16(|g.objects|) && s[6..] == objects + afterObjects;
    ReadsBackBe32(s, 0, g.api);
    ReadsBack16(s, 4, |g.objects|);
    DecodeEntriesInverts(g.objects, afterObjects);
    assert afterObjects[0..2] == Be16(|g.iocs|) && afterObjects[2..] == EntriesBytes(g.iocs) + rest;
    ReadsBack16(afterObjects, 0, |g.iocs|);
    DecodeEntriesInverts(g.iocs, rest);
  }

  lemma {:induction false} GroupsFrontFirst(gs: seq<ApiGroup>)
    requires gs != []
    requires forall g | g in gs :: g.Fits()
    ensures GroupsBytes(gs) == GroupBytes(gs[0]) + GroupsBytes(gs[1..])
  {
    hide GroupBytes, ApiGroup.Fits;
    var front, last := gs[..|gs| - 1], gs[|gs| - 1];
    if |gs| == 1 {
      assert front == [] && gs[1..] == [];
    } else {
      GroupsFrontFirst(front);
      assert gs[1..][..|gs| - 2] == front[1..];
      Assoc(GroupBytes(gs[0]), GroupsBytes(front[1..]), GroupBytes(last));
    }
  }

  lemma {:induction false} DecodeGroupsInverts(gs: seq<ApiGroup>)
    requires forall g | g in gs :: g.Fits()
    ensures DecodeGroups(GroupsBytes(gs), |gs|) == Some(gs)
  {
    if gs != [] {
      GroupsFrontFirst(gs);
      DecodeGroupInverts(gs[0], GroupsBytes(gs[1..]));
      DecodeGroupsInverts(gs[1..]);
      assert [gs[0]] + gs[1..] == gs;
    }
  }

  lemma HeaderFields(h: Header, n: nat)
    requires HeaderFits(h, n)
    ensures var s := HeaderBytes(h, n);
            && s[0..2] == Be16(h.iocrType) && s[2..4] == Be16(h.reference) && s[6..10] == Be32(h.properties)
            && s[10..12] == Be16(h.dataLength) && s[12..14] == Be16(h.frameId)
            && s[14..16] == Be16(h.timing.sendClock) && s[16..18] == Be16(h.timing.reduction)
            && s[26..28] == Be16(h.timing.watchdog) && s[28..30] == Be16(h.timing.dataHold)
            && s[38..40] == Be16(n)
  {
    hide Be16, Be32;
  }

  // The fixed part of an encoded block, read back field by field
  lemma HeaderReadsBack(h: Header, n: nat, s: bytes)
    requires HeaderFits(h, n) && |s| >= 46 && s[6..46] == HeaderBytes(h, n)
    ensures GetBe16(s, 6) == h.iocrType && GetBe16(s, 8) == h.reference && GetBe32(s, 12) == h.properties
    ensures GetBe16(s, 16) == h.dataLength && GetBe16(s, 18) == h.frameId
    ensures GetBe16(s, 20) == h.timing.sendClock && GetBe16(s, 22) == h.timing.reduction
    ensures GetBe16(s, 32) == h.timing.watchdog && GetBe16(s, 34) == h.timing.dataHold
    ensures GetBe16(s, 44) == n
  {
    var f := s[6..46];
    HeaderFields(h, n);
    FieldAt(s, f, 0, h.iocrType); FieldAt(s, f, 2, h.reference);
    FieldAt(s, f, 10, h.dataLength); FieldAt(s, f, 12, h.frameId);
    FieldAt(s, f, 14, h.timing.sendClock); FieldAt(s, f, 16, h.timing.reduction);
    FieldAt(s, f, 26, h.timing.watchdog); FieldAt(s, f, 28, h.timing.dataHold);
    FieldAt(s, f, 38, n);
    SubSlice(s, 6, 46, 6, 10);
    ReadsBackBe32(s, 12, h.properties);
  }

  // The block decodes to exactly what was declared, and BlockLength counts the bytes after it.
  lemma DecodeInverts(d: Declaration)
    requires Encodable(d)
    ensures Decode(Encode(d)) == Some(d)
    ensures GetBe16(Encode(d), 2) == |Encode(d)| - 4
  {
    var s, n := Encode(d), |d.apis|;
    var h, gs := HeaderBytes(d.header, n), GroupsBytes(d.apis);
    var pre := Be16(0x0102) + Be16(42 + |gs|) + [1, 0];
    assert s == pre + (h + gs) && |pre| == 6;
    assert s[..2] == Be16(0x0102) && s[2..4] == Be16(42 + |gs|) && s[4..6] == [1, 0];
    assert s[6..46] == h && s[46..] == gs;
    ReadsBack16(s, 2, 42 + |gs|);
    HeaderReadsBack(d.header, n, s);
    DecodeGroupsInverts(d.apis);
  }

  lemma FieldAt(s: bytes, h: bytes, off: nat, v: u16)
    requires |s| >= 46 && s[6..46] == h && off + 2 <= 40
    requires h[off..off + 2] == Be16(v)
    ensures GetBe16(s, 6 + off) == v
  {
    SubSlice(s, 6, 46, off, off + 2);
    ReadsBack16(s, 6 + off, v);
  }

  // ---------- what the encoder declares for a topology ----------

  function ApiOf(slot: nat, driveApi: nat): nat { if slot == 0 then 0 else driveApi }

  function ObjectEntry(o: DataObject): Entry { Entry(o.slot, o.subslot, o.offset) }

  function IocsEntry(c: Iocs): Entry { Entry(c.slot, c.subslot, c.offset) }

  function ObjectEntries(os: seq<DataObject>): (es: seq<Entry>)
    ensures |es| == |os|
    ensures forall k | 0 <= k < |os| :: es[k] == ObjectEntry(os[k])
  {
    seq(|os|, i requires 0 <= i < |os| => ObjectEntry(os[i]))
  }

  function IocsEntries(cs: seq<Iocs>): (es: seq<Entry>)
    ensures |es| == |cs|
    ensures forall k | 0 <= k < |cs| :: es[k] == IocsEntry(cs[k])
  {
    seq(|cs|, i requires 0 <= i < |cs| => IocsEntry(cs[i]))
  }

  function Owned(es: seq<Entry>, api: nat, driveApi: nat): seq<Entry>
  {
    if es == [] then []
    else
      var f := Owned(es[..|es| - 1], api, driveApi);
      var e := es[|es| - 1];
      if ApiOf(e.slot, driveApi) == api then f + [e] else f
  }

  function Apis(es: seq<Entry>, driveApi: nat): set<nat>
  {
    set e | e in es :: ApiOf(e.slot, driveApi)
  }

  predicate IsLeast(m: nat, keys: set<nat>) { m in keys && forall k | k in keys :: m <= k }

  lemma {:induction false} FindLeast(keys: set<nat>) returns (m: nat)
    requires keys != {}
    ensures IsLeast(m, keys)
  {
    var x :| x in keys;
    var rest := keys - {x};
    m := x;
    if rest != {} {
      var n := FindLeast(rest);
      if n < x { m := n; }
    }
    assert keys == rest + {x};
  }

  function Least(keys: set<nat>): (m: nat)
    requires keys != {}
    ensures IsLeast(m, keys)
  {
    assert exists m :: IsLeast(m, keys) by { var m := FindLeast(keys); }
    var m :| IsLeast(m, keys);
    m
  }

  // sorted(keys)
  function Sorted(keys: set<nat>): (s: seq<nat>)
    ensures forall k :: k in s <==> k in keys
    ensures forall i, j | 0 <= i < j < |s| :: s[i] < s[j]
  {
    if keys == {} then []
    else
      var m := Least(keys);
      Prepend(m, Sorted(keys - {m}));
      [m] + Sorted(keys - {m})
  }

  lemma Prepend(m: nat, rest: seq<nat>)
    requires forall i, j | 0 <= i < j < |rest| :: rest[i] < rest[j]
    requires forall k | k in rest :: m < k
    ensures forall i, j | 0 <= i < j < |rest| + 1 :: ([m] + rest)[i] < ([m] + rest)[j]
    ensures forall k :: k in [m] + rest <==> k == m || k in rest
  {
    var s := [m] + rest;
    forall i, j | 0 <= i < j < |s| ensures s[i] < s[j] {
      assert s[j] == rest[j - 1] && rest[j - 1] in rest;
    }
  }

  function Groups(apis: seq<nat>, objects: seq<Entry>, iocs: seq<Entry>, driveApi: nat): (gs: seq<ApiGroup>)
    ensures |gs| == |apis|
    ensures forall k | 0 <= k < |apis| ::
              gs[k] == ApiGroup(apis[k], Owned(objects, apis[k], driveApi), Owned(iocs, apis[k], driveApi))
  {
    seq(|apis|, i requires 0 <= i < |apis| =>
      ApiGroup(apis[i], Owned(objects, apis[i], driveApi), Owned(iocs, apis[i], driveApi)))
  }

  // The values PN_* environment variables and the cyclic profile put into the block
  datatype Profile = Profile(driveApi: nat, rtClass: u32, frameIdIn: nat, frameIdOut: nat)

  const IOCR_INPUT := 1

  function LayoutFor(iocrType: nat, slots: seq<Submodule>): CrLayout
  {
    if iocrType == IOCR_INPUT then InputLayout(slots) else OutputLayout(slots)
  }

  function Declared(iocrType: nat, slots: seq<Submodule>, timing: Timing, p: Profile): Declaration
  {
    var l := LayoutFor(iocrType, slots);
    var objects, iocs := ObjectEntries(l.objects), IocsEntries(l.iocs);
    var header := Header(iocrType,
                         if iocrType == IOCR_INPUT then 0x1000 else 0x2000,
                         p.rtClass, l.FrameLength(),
                         if iocrType == IOCR_INPUT then p.frameIdIn else p.frameIdOut,
                         timing);
    Declaration(header, Groups(DeclaredApis(objects, iocs, p.driveApi), objects, iocs, p.driveApi))
  }

  function DeclaredApis(objects: seq<Entry>, iocs: seq<Entry>, driveApi: nat): seq<nat>
  {
    Sorted(Apis(objects, driveApi) + Apis(iocs, driveApi))
  }

  // ---------- the encoder itself ----------

  // struct.pack(">H", v) and struct.pack(">I", v)
  function PackH(v: nat): Result<bytes>
  {
    if v < 0x1_0000 then Success(Be16(v)) else Failure(StructError)
  }

  function PackI(v: nat): Result<bytes>
  {
    if v < 0x1_0000_0000 then Success(Be32(v)) else Failure(StructError)
  }

  lemma OwnedStep(es: seq<Entry>, i: nat, driveApi: nat)
    requires i < |es|
    ensures Apis(es[..i + 1], driveApi) == Apis(es[..i], driveApi) + {ApiOf(es[i].slot, driveApi)}
    ensures forall a :: Owned(es[..i + 1], a, driveApi)
                     == if a == ApiOf(es[i].slot, driveApi) then Owned(es[..i], a, driveApi) + [es[i]]
                        else Owned(es[..i], a, driveApi)
  {
    assert es[..i + 1] == es[..i] + [es[i]];
    assert es[..i + 1][..i] == es[..i];
  }

  lemma OwnedOnlyApis(es: seq<Entry>, a: nat, driveApi: nat)
    requires a !in Apis(es, driveApi)
    ensures Owned(es, a, driveApi) == []
  {
    if es != [] {
      var n := |es| - 1;
      OwnedStep(es, n, driveApi);
      assert es[..n + 1] == es;
      OwnedOnlyApis(es[..n], a, driveApi);
    }
  }

  // The dict of (objects, iocs) lists the encoder groups the layout into
  method GroupByApi(objects: seq<Entry>, iocs: seq<Entry>, driveApi: nat)
    returns (grouped: map<nat, (seq<Entry>, seq<Entry>)>)
    ensures grouped.Keys == Apis(objects, driveApi) + Apis(iocs, driveApi)
    ensures forall a | a in grouped :: grouped[a] == (Owned(objects, a, driveApi), Owned(iocs, a, driveApi))
  {
    grouped := map[];
    for i := 0 to |objects|
      invariant grouped.Keys == Apis(objects[..i], driveApi)
      invariant forall a | a in grouped :: grouped[a] == (Owned(objects[..i], a, driveApi), [])
    {
      OwnedStep(objects, i, driveApi);
      var api := ApiOf(objects[i].slot, driveApi);
      if api !in grouped { OwnedOnlyApis(objects[..i], api, driveApi); }
      var lists := if api in grouped then grouped[api] else ([], []);
      grouped := grouped[api := (lists.0 + [objects[i]], lists.1)];
    }
    assert objects[..|objects|] == objects;
    for i := 0 to |iocs|
      invariant grouped.Keys == Apis(objects, driveApi) + Apis(iocs[..i], driveApi)
      invariant forall a | a in grouped :: grouped[a] == (Owned(objects, a, driveApi), Owned(iocs[..i], a, driveApi))
    {
      OwnedStep(iocs, i, driveApi);
      var api := ApiOf(iocs[i].slot, driveApi);
      if api !in grouped {
        OwnedOnlyApis(iocs[..i], api, driveApi);
        OwnedOnlyApis(objects, api, driveApi);
      }
      var lists := if api in grouped then grouped[api] else ([], []);
      grouped := grouped[api := (lists.0, lists.1 + [iocs[i]])];
    }
    assert iocs[..|iocs|] == iocs;
  }

  method PackEntries(es: seq<Entry>) returns (r: Result<bytes>)
    ensures r.Success? <==> forall e | e in es :: e.Fits()
    ensures r.Success? ==> r.value == EntriesBytes(es)
  {
    var s: bytes := [];
    for i := 0 to |es|
      invariant forall e | e in es[..i] :: e.Fits()
      invariant s == EntriesBytes(es[..i])
    {
      assert es[i] in es;
      var slot :- PackH(es[i].slot);
      var subslot :- PackH(es[i].subslot);
      var offset :- PackH(es[i].offset);
      assert es[..i + 1][..i] == es[..i];
      assert forall e | e in es[..i + 1] :: e in es[..i] || e == es[i];
      s := s + (slot + subslot + offset);
    }
    assert es[..|es|] == es;
    r := Success(s);
  }

  method PackGroup(g: ApiGroup) returns (r: Result<bytes>)
    ensures r.Success? <==> g.Fits()
    ensures r.Success? ==> r.value == GroupBytes(g)
  {
    var api :- PackI(g.api);
    var nObjects :- PackH(|g.objects|);
    var objects :- PackEntries(g.objects);
    var nIocs :- PackH(|g.iocs|);
    var iocs :- PackEntries(g.iocs);
    r := Success(api + nObjects + objects + nIocs + iocs);
  }

  method PackSections(apis: seq<nat>, objects: seq<Entry>, iocs: seq<Entry>, driveApi: nat,
                      grouped: map<nat, (seq<Entry>, seq<Entry>)>) returns (r: Result<bytes>)
    requires forall a | a in apis :: a in grouped
    requires forall a | a in grouped :: grouped[a] == (Owned(objects, a, driveApi), Owned(iocs, a, driveApi))
    ensures var gs := Groups(apis, objects, iocs, driveApi);
            && (r.Success? <==> forall g | g in gs :: g.Fits())
            && (r.Success? ==> r.value == GroupsBytes(gs))
  {
    hide ApiGroup.Fits, GroupBytes;
    ghost var gs := Groups(apis, objects, iocs, driveApi);
    var apisec: bytes := [];
    for i := 0 to |apis|
      invariant forall g | g in gs[..i] :: g.Fits()
      invariant apisec == GroupsBytes(gs[..i])
    {
      var g := ApiGroup(apis[i], grouped[apis[i]].0, grouped[apis[i]].1);
      assert g == gs[i] && gs[i] in gs;
      var section :- PackGroup(g);
      assert gs[..i + 1][..i] == gs[..i];
      assert forall h | h in gs[..i + 1] :: h in gs[..i] || h == g;
      apisec := apisec + section;
    }
    assert gs[..|apis|] == gs;
    r := Success(apisec);
  }

  method PackHeader(h: Header, apiCount: nat) returns (r: Result<bytes>)
    ensures r.Success? <==> HeaderFits(h, apiCount)
    ensures r.Success? ==> r.value == HeaderBytes(h, apiCount)
  {
    var iocrType :- PackH(h.iocrType);
    var reference :- PackH(h.reference);
    var dlen :- PackH(h.dataLength);
    var fid :- PackH(h.frameId);
    var clock :- PackH(h.timing.sendClock);
    var reduction :- PackH(h.timing.reduction);
    var watchdog :- PackH(h.timing.watchdog);
    var dataHold :- PackH(h.timing.dataHold);
    var count :- PackH(apiCount);
    r := Success(iocrType + reference + Be16(0x8892) + Be32(h.properties)
                 + dlen + fid + clock + reduction + Be16(1) + Be16(0) + Be32(0xFFFF_FFFF)
                 + watchdog + dataHold + Be16(0xC000) + Zeros(6) + count);
  }

  // RPCCon._build_iocr_block: the bytes of the declaration, or struct.error exactly when some
  // field does not fit.
  method BuildIocrBlock(iocrType: u16, slots: seq<Submodule>, timing: Timing, p: Profile) returns (r: Result<bytes>)
    ensures var d := Declared(iocrType, slots, timing, p);
            && (r.Success? <==> Encodable(d))
            && (r.Success? ==> r.value == Encode(d))
  {
    var inObjs, inIocs, inLen, outObjs, outIocs, outLen := ComputeLayout(slots);
    var objs, iocs, dlen, ref, fid := outObjs, outIocs, outLen, 0x2000, p.frameIdOut;
    if iocrType == 1 {
      objs, iocs, dlen, ref, fid := inObjs, inIocs, inLen, 0x1000, p.frameIdIn;
    }
    var objects, consumers := ObjectEntries(objs), IocsEntries(iocs);
    var grouped := GroupByApi(objects, consumers, p.driveApi);
    var apis := Sorted(grouped.Keys);
    var apisec :- PackSections(apis, objects, consumers, p.driveApi, grouped);
    var hdr :- PackHeader(Header(iocrType, ref, p.rtClass, dlen, fid, timing), |apis|);
    var body := hdr + apisec;
    var length :- PackH(|body| + 2);
    r := Success(Be16(0x0102) + length + [1, 0] + body);
  }
}
