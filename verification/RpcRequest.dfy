// rpc_cm.c: the datagrams the controller sends while it connects.
module RpcRequest {
  import opened Bytes
  import opened RtFrames

  type Uuid = u: bytes | |u| == 16 witness Zeros(16)

  const RPC_PTYPE_REQUEST: byte := 0
  const RPC_PTYPE_RESPONSE: byte := 2
  const RPC_PTYPE_FAULT: byte := 3

  const OPNUM_CONNECT: u16 := 0
  const OPNUM_DCONTROL: u16 := 2
  const OPNUM_CCONTROL: u16 := 3
  const OPNUM_WRITE: u16 := 5

  const RPC_OFF_PAYLOAD := 40
  const RPC_BUF_SIZE := 2048

  const BLK_AR_REQ: u16 := 0x0101
  const BLK_IOCR_REQ: u16 := 0x0102
  const BLK_ALARM_CR_REQ: u16 := 0x0103
  const BLK_EXP_SUBMOD: u16 := 0x0104

  const IOCR_TYPE_OUTPUT: u16 := 1
  const IOCR_TYPE_INPUT: u16 := 2

  const PNIO_CM_IF_UUID: Uuid := [0x01, 0x00, 0xA0, 0xDE,
    0x97, 0x6C, 0xD1, 0x11, 0x82, 0x71, 0x00, 0xA0, 0x24, 0x42, 0xDF, 0x7D]

  datatype ArConfig = ArConfig(sendClock: u16, reduction: byte, watchdog: u16, api: u32,
                               slot: u16, subslot: u16, moduleIdent: u32, submoduleIdent: u32)

  // The part of PN_Context the connect sequence uses. The station name is the constant
  // "profinet-controller" in the source; here it is any name.
  datatype Controller = Controller(arUuid: Uuid, activityUuid: Uuid, sessionKey: u32, localMac: Mac,
                                   outFid: u16, inFid: u16, cfg: ArConfig, name: bytes)
  {
    function Key(): u16 { sessionKey % 0x1_0000 }

    function SendClock(): u16 { if cfg.sendClock != 0 then cfg.sendClock else 128 }

    function Reduction(): u16 { if cfg.reduction != 0 then cfg.reduction else 1 }

    function Watchdog(): u16 { if cfg.watchdog != 0 then cfg.watchdog else 3 }

    // The request fits the transmit buffer
    predicate NameFits() { |name| <= 1024 }
  }

  // ---------- blocks ----------

  // [type][BlockLength][version 1.0][body]; this controller's BlockLength counts the body only.
  datatype RawBlock = RawBlock(blockType: u16, body: bytes)

  predicate Packable(b: RawBlock) { 0 < |b.body| < 0x1_0000 }

  predicate AllPackable(bs: seq<RawBlock>) { forall k | 0 <= k < |bs| :: Packable(bs[k]) }

  function BlockBytes(b: RawBlock): (s: bytes)
    requires Packable(b)
    ensures |s| == 6 + |b.body|
  {
    Be16(b.blockType) + Be16(|b.body|) + [1, 0] + b.body
  }

  function BlocksBytes(bs: seq<RawBlock>): bytes
    requires AllPackable(bs)
  {
    if bs == [] then [] else BlockBytes(bs[0]) + BlocksBytes(bs[1..])
  }

  function ArBody(c: Controller): (s: bytes)
    requires c.NameFits()
    ensures |s| == 52 + |c.name|
  {
    Be16(1) + c.arUuid + Be16(c.Key()) + c.localMac + c.activityUuid + Be32(0) + Be16(50) + Be16(34964)
    + Be16(|c.name|) + c.name
  }

  function IocrBody(c: Controller, iocrType: u16, frameId: u16): (s: bytes)
    ensures |s| == 60
  {
    Be16(iocrType) + Be16(if iocrType == IOCR_TYPE_OUTPUT then 1 else 2) + Be16(0x8892) + Be32(2)
    + Be16(6) + Be16(frameId) + Be16(c.SendClock()) + Be16(c.Reduction())
    + Be16(1) + Be16(0) + Be32(0xFFFF_FFFF) + Be16(c.Watchdog()) + Be16(c.Watchdog())
    + Be16(0xC000) + Zeros(6) + Be16(1) + Be32(0)
    + Be16(1) + Be16(c.cfg.slot) + Be16(c.cfg.subslot) + Be16(0)
    + Be16(1) + Be16(c.cfg.slot) + Be16(c.cfg.subslot) + Be16(0)
  }

  function ExpSubmodBody(cfg: ArConfig): (s: bytes)
    ensures |s| == 32
  {
    Be16(1) + Be32(cfg.api) + Be16(cfg.slot) + Be32(cfg.moduleIdent) + Be16(0) + Be16(1)
    + Be16(cfg.subslot) + Be32(cfg.submoduleIdent) + Be16(0) + Be16(1) + Be16(4) + [1] + Be16(4) + [1]
  }

  function AlarmCrBody(): (s: bytes)
    ensures |s| == 18
  {
    Be16(1) + Be16(0x8892) + Be32(0) + Be16(200) + Be16(3) + Be16(1) + Be16(200) + Be16(0xC000)
  }

  function ConnectBlocks(c: Controller): (bs: seq<RawBlock>)
    requires c.NameFits()
    ensures AllPackable(bs)
  {
    [RawBlock(BLK_AR_REQ, ArBody(c)),
     RawBlock(BLK_IOCR_REQ, IocrBody(c, IOCR_TYPE_OUTPUT, c.outFid)),
     RawBlock(BLK_IOCR_REQ, IocrBody(c, IOCR_TYPE_INPUT, c.inFid)),
     RawBlock(BLK_EXP_SUBMOD, ExpSubmodBody(c.cfg)),
     RawBlock(BLK_ALARM_CR_REQ, AlarmCrBody())]
  }

  // ---------- datagrams ----------

  function Header(ptype: byte, opnum: u16, callId: u32, uuid: Uuid, fragLen: u16, allocHint: u32): (s: bytes)
    ensures |s| == RPC_OFF_PAYLOAD
  {
    [4, ptype, 0x22, 0, 0x10, 0, 0, 0] + Le16(fragLen) + [0, 0] + Le32(callId) + Le32(allocHint)
    + Le16(0) + Le16(opnum) + uuid
  }

  function Datagram(ptype: byte, opnum: u16, callId: u32, uuid: Uuid, hint: bool, payload: bytes): (s: bytes)
    requires |payload| < RPC_BUF_SIZE - RPC_OFF_PAYLOAD
    ensures |s| == RPC_OFF_PAYLOAD + |payload|
  {
    Header(ptype, opnum, callId, uuid, RPC_OFF_PAYLOAD + |payload|, if hint then |payload| else 0) + payload
  }

  lemma ConnectPayloadLength(c: Controller)
    requires c.NameFits()
    ensures |BlocksBytes(ConnectBlocks(c))| == 252 + |c.name|
  {
    hide ArBody, IocrBody, ExpSubmodBody, AlarmCrBody, BlockBytes;
    var bs := ConnectBlocks(c);
    assert bs[0..] == bs && bs[5..] == [] && BlocksBytes(bs[5..]) == [];
    BlocksNext(bs, 4); BlocksNext(bs, 3); BlocksNext(bs, 2); BlocksNext(bs, 1); BlocksNext(bs, 0);
  }

  lemma BlocksNext(bs: seq<RawBlock>, k: nat)
    requires AllPackable(bs) && k < |bs|
    ensures BlocksBytes(bs[k..]) == BlockBytes(bs[k]) + BlocksBytes(bs[k + 1..])
  {
    hide BlockBytes;
    assert bs[k..][0] == bs[k] && bs[k..][1..] == bs[k + 1..];
  }

  function ConnectRequest(c: Controller): bytes
    requires c.NameFits()
  {
    ConnectPayloadLength(c);
    Datagram(RPC_PTYPE_REQUEST, OPNUM_CONNECT, 1, PNIO_CM_IF_UUID, true, BlocksBytes(ConnectBlocks(c)))
  }

  // Record 0 write with 24 bytes of zeros
  function WritePayload(c: Controller): (s: bytes)
    ensures |s| == 58
  {
    Be16(0) + c.arUuid + Be32(0) + Be16(c.cfg.slot) + Be16(c.cfg.subslot) + Be16(0) + Be16(0x8028) + Be32(0) + Zeros(24)
  }

  function WriteRequest(c: Controller): bytes
  {
    Datagram(RPC_PTYPE_REQUEST, OPNUM_WRITE, 2, c.activityUuid, true, WritePayload(c))
  }

  // AR UUID, session key, reserved, ControlCommand, block properties
  function ControlPayload(uuid: Uuid, key: u16, command: u16): (s: bytes)
    ensures |s| == 24
  {
    uuid + Be16(key) + Be16(0) + Be16(command) + Be16(0)
  }

  function DControlRequest(c: Controller): bytes
  {
    Datagram(RPC_PTYPE_REQUEST, OPNUM_DCONTROL, 3, c.activityUuid, true, ControlPayload(c.arUuid, c.Key(), 4))
  }

  function CControlResponse(c: Controller, callId: u32): bytes
  {
    Datagram(RPC_PTYPE_RESPONSE, OPNUM_CCONTROL, callId, c.activityUuid, false, ControlPayload(c.arUuid, c.Key(), 0))
  }

  lemma OpnumOf(ptype: byte, opnum: u16, callId: u32, uuid: Uuid, hint: bool, payload: bytes)
    requires |payload| < RPC_BUF_SIZE - RPC_OFF_PAYLOAD
    ensures var s := Datagram(ptype, opnum, callId, uuid, hint, payload);
            GetLe16(s, 22) == opnum && s[40..] == payload
  {
    var s := Datagram(ptype, opnum, callId, uuid, hint, payload);
    var h := Header(ptype, opnum, callId, uuid, RPC_OFF_PAYLOAD + |payload|, if hint then |payload| else 0);
    assert h[22..24] == Le16(opnum);
    assert s[..40] == h;
    SubSlice(s, 0, 40, 22, 24);
    ReadsBack16(s, 22, opnum);
  }

  // ---------- the wire, field by field ----------

  // Type, the byte count behind the version, version 1.0
  predicate BlockWire(s: bytes, btype: u16)
  {
    |s| >= 6 && GetBe16(s, 0) == btype && GetBe16(s, 2) == |s| - 6 && s[4] == 1 && s[5] == 0
  }

  predicate ArWire(b: bytes, c: Controller)
  {
    && |b| == 52 + |c.name| && GetBe16(b, 0) == 1 && b[2..18] == c.arUuid && GetBe16(b, 18) == c.sessionKey % 0x1_0000
    && b[20..26] == c.localMac && b[26..42] == c.activityUuid && GetBe32(b, 42) == 0 && GetBe16(b, 46) == 50
    && GetBe16(b, 48) == 34964 && GetBe16(b, 50) == |c.name| && b[52..] == c.name
  }

  predicate IocrWire(b: bytes, c: Controller, iocrType: u16, frameId: u16)
  {
    |b| == 60 && IocrStartWire(b, c, iocrType, frameId) && IocrRestWire(b, c)
  }

  predicate IocrStartWire(b: bytes, c: Controller, iocrType: u16, frameId: u16)
    requires |b| == 60
  {
    && GetBe16(b, 0) == iocrType && GetBe16(b, 2) == (if iocrType == 1 then 1 else 2)
    && GetBe16(b, 4) == 0x8892 && GetBe32(b, 6) == 2 && GetBe16(b, 10) == 6 && GetBe16(b, 12) == frameId
    && GetBe16(b, 14) == (if c.cfg.sendClock != 0 then c.cfg.sendClock else 128)
    && GetBe16(b, 16) == (if c.cfg.reduction != 0 then c.cfg.reduction else 1)
    && GetBe16(b, 18) == 1 && GetBe16(b, 20) == 0 && GetBe32(b, 22) == 0xFFFF_FFFF
  }

  // Watchdog and data-hold factor, tag and multicast address, then one API with one IO data object
  // and one IOCS, both of the configured sub-module
  predicate IocrRestWire(b: bytes, c: Controller)
    requires |b| == 60
  {
    && GetBe16(b, 26) == GetBe16(b, 28) == (if c.cfg.watchdog != 0 then c.cfg.watchdog else 3)
    && GetBe16(b, 30) == 0xC000 && GetBe16(b, 32) == GetBe16(b, 34) == GetBe16(b, 36) == 0
    && GetBe16(b, 38) == 1 && GetBe32(b, 40) == 0
    && GetBe16(b, 44) == 1 && GetBe16(b, 46) == c.cfg.slot && GetBe16(b, 48) == c.cfg.subslot && GetBe16(b, 50) == 0
    && GetBe16(b, 52) == 1 && GetBe16(b, 54) == c.cfg.slot && GetBe16(b, 56) == c.cfg.subslot && GetBe16(b, 58) == 0
  }

  predicate ExpSubmodWire(b: bytes, cfg: ArConfig)
  {
    && |b| == 32 && GetBe16(b, 0) == 1 && GetBe32(b, 2) == cfg.api && GetBe16(b, 6) == cfg.slot
    && GetBe32(b, 8) == cfg.moduleIdent && GetBe16(b, 12) == 0 && GetBe16(b, 14) == 1
    && GetBe16(b, 16) == cfg.subslot && GetBe32(b, 18) == cfg.submoduleIdent && GetBe16(b, 22) == 0
    && GetBe16(b, 24) == 1 && GetBe16(b, 26) == 4 && b[28] == 1 && GetBe16(b, 29) == 4 && b[31] == 1
  }

  predicate AlarmCrWire(b: bytes)
  {
    && |b| == 18 && GetBe16(b, 0) == 1 && GetBe16(b, 2) == 0x8892 && GetBe32(b, 4) == 0 && GetBe16(b, 8) == 200
    && GetBe16(b, 10) == 3 && GetBe16(b, 12) == 1 && GetBe16(b, 14) == 200 && GetBe16(b, 16) == 0xC000
  }

  predicate WriteWire(b: bytes, c: Controller)
  {
    && |b| == 58 && GetBe16(b, 0) == 0 && b[2..18] == c.arUuid && GetBe32(b, 18) == 0 && GetBe16(b, 22) == c.cfg.slot
    && GetBe16(b, 24) == c.cfg.subslot && GetBe16(b, 26) == 0 && GetBe16(b, 28) == 0x8028 && GetBe32(b, 30) == 0
    && forall i | 34 <= i < 58 :: b[i] == 0
  }

  predicate ControlWire(b: bytes, uuid: Uuid, key: u16, command: u16)
  {
    && |b| == 24 && b[0..16] == uuid && GetBe16(b, 16) == key && GetBe16(b, 18) == 0
    && GetBe16(b, 20) == command && GetBe16(b, 22) == 0
  }

  // Version 4, last fragment without acknowledgement, Intel order, and what the callers fill in
  predicate HeaderWire(s: bytes, ptype: byte, opnum: u16, callId: u32, uuid: Uuid, fragLen: u16, allocHint: u32)
  {
    && |s| >= 40 && s[0] == 4 && s[1] == ptype && s[2] == 0x22 && s[3] == 0 && s[4] == 0x10 && s[5] == s[6] == s[7] == 0
    && GetLe16(s, 8) == fragLen && s[10] == s[11] == 0 && GetLe32(s, 12) == callId && GetLe32(s, 16) == allocHint
    && GetLe16(s, 20) == 0 && GetLe16(s, 22) == opnum && s[24..40] == uuid
  }

  lemma ArIs(c: Controller)
    requires c.NameFits()
    ensures ArWire(ArBody(c), c)
  {
    ArSlices(c);
  }

  lemma ArSlices(c: Controller)
    requires c.NameFits()
    ensures var b := ArBody(c);
            && b[2..18] == c.arUuid && b[20..26] == c.localMac && b[26..42] == c.activityUuid && b[52..] == c.name
  {
    hide Be16, Be32;
  }

  lemma IocrIs(c: Controller, iocrType: u16, frameId: u16)
    ensures IocrWire(IocrBody(c, iocrType, frameId), c, iocrType, frameId)
  {
    hide IocrBody, IocrStart, IocrRest, IocrStartWire, IocrRestWire;
    var b := IocrBody(c, iocrType, frameId);
    IocrParts(c, iocrType, frameId);
    IocrStartIs(c, iocrType, frameId, b);
    IocrRestIs(c, b);
  }

  function IocrStart(c: Controller, iocrType: u16, frameId: u16): (s: bytes)
    ensures |s| == 26
  {
    Be16(iocrType) + Be16(if iocrType == 1 then 1 else 2) + Be16(0x8892) + Be32(2)
    + Be16(6) + Be16(frameId) + Be16(c.SendClock()) + Be16(c.Reduction())
    + Be16(1) + Be16(0) + Be32(0xFFFF_FFFF)
  }

  function IocrRest(c: Controller): (s: bytes)
    ensures |s| == 34
  {
    Be16(c.Watchdog()) + Be16(c.Watchdog()) + Be16(0xC000) + Zeros(6) + Be16(1) + Be32(0)
    + Be16(1) + Be16(c.cfg.slot) + Be16(c.cfg.subslot) + Be16(0)
    + Be16(1) + Be16(c.cfg.slot) + Be16(c.cfg.subslot) + Be16(0)
  }

  lemma IocrParts(c: Controller, iocrType: u16, frameId: u16)
    ensures IocrBody(c, iocrType, frameId) == IocrStart(c, iocrType, frameId) + IocrRest(c)
  {
    hide Be16, Be32;
  }

  lemma IocrStartIs(c: Controller, iocrType: u16, frameId: u16, b: bytes)
    requires |b| == 60 && b[..26] == IocrStart(c, iocrType, frameId)
    ensures IocrStartWire(b, c, iocrType, frameId)
  {
    var s := IocrStart(c, iocrType, frameId);
    assert forall i | 0 <= i < 26 :: b[i] == s[i];
  }

  lemma IocrRestIs(c: Controller, b: bytes)
    requires |b| == 60 && b[26..] == IocrRest(c)
    ensures IocrRestWire(b, c)
  {
    var r := IocrRest(c);
    assert forall i | 26 <= i < 60 :: b[i] == r[i - 26];
    SubmoduleRefs(c, r);
  }

  // The API section: API 0, one data object and one IOCS at offset 0
  lemma SubmoduleRefs(c: Controller, r: bytes)
    requires r == IocrRest(c)
    ensures GetBe16(r, 18) == 1 && GetBe16(r, 20) == c.cfg.slot && GetBe16(r, 22) == c.cfg.subslot
    ensures GetBe16(r, 24) == 0 && GetBe16(r, 26) == 1 && GetBe16(r, 28) == c.cfg.slot
    ensures GetBe16(r, 30) == c.cfg.subslot && GetBe16(r, 32) == 0
  {
  }

  lemma ExpSubmodIs(cfg: ArConfig)
    ensures ExpSubmodWire(ExpSubmodBody(cfg), cfg)
  {
  }

  lemma AlarmCrIs()
    ensures AlarmCrWire(AlarmCrBody())
  {
  }

  lemma WriteIs(c: Controller)
    ensures WriteWire(WritePayload(c), c)
  {
  }

  lemma ControlIs(uuid: Uuid, key: u16, command: u16)
    ensures ControlWire(ControlPayload(uuid, key, command), uuid, key, command)
  {
  }

  lemma HeaderIs(ptype: byte, opnum: u16, callId: u32, uuid: Uuid, fragLen: u16, allocHint: u32)
    ensures HeaderWire(Header(ptype, opnum, callId, uuid, fragLen, allocHint), ptype, opnum, callId, uuid, fragLen,
                       allocHint)
  {
  }

  // ---------- the builders ----------

  // One pn_put of the builders and the advance of `off` behind it. `base` is the buffer up to the
  // start of what is being built and d what has been built so far.
  method Append(buf: array<byte>, off: nat, f: bytes, ghost base: bytes, ghost d: bytes)
    returns (next: nat, ghost e: bytes)
    requires off + |f| <= buf.Length && buf[..off] == base + d
    modifies buf
    ensures next == off + |f| && e == d + f && buf[..next] == base + e
  {
    PutBytes(buf, off, f);
    Assoc(base, d, f);
    next, e := off + |f|, d + f;
  }

  method Append16(buf: array<byte>, off: nat, v: u16, ghost base: bytes, ghost d: bytes)
    returns (next: nat, ghost e: bytes)
    requires off + 2 <= buf.Length && buf[..off] == base + d
    modifies buf
    ensures next == off + 2 && e == d + Be16(v) && buf[..next] == base + e
  {
    PutU16Be(buf, off, v);
    Assoc(base, d, Be16(v));
    next, e := off + 2, d + Be16(v);
  }

  method Append32(buf: array<byte>, off: nat, v: u32, ghost base: bytes, ghost d: bytes)
    returns (next: nat, ghost e: bytes)
    requires off + 4 <= buf.Length && buf[..off] == base + d
    modifies buf
    ensures next == off + 4 && e == d + Be32(v) && buf[..next] == base + e
  {
    PutU32Be(buf, off, v);
    Assoc(base, d, Be32(v));
    next, e := off + 4, d + Be32(v);
  }

  method BlockHdr(buf: array<byte>, off0: nat, btype: u16, blklen: u16) returns (off: nat)
    requires off0 + 6 <= buf.Length
    modifies buf
    ensures off == off0 + 6 && buf[..off] == old(buf[..off0]) + (Be16(btype) + Be16(blklen) + [1, 0])
  {
    ghost var base, d := buf[..off0], [];
    assert base + [] == base;
    off, d := Append16(buf, off0, btype, base, d);
    off, d := Append16(buf, off, blklen, base, d);
    off, d := Append(buf, off, [1, 0], base, d);
  }

  // A header with BlockLength |body| followed by the body is the block.
  lemma BlockIs(base: bytes, btype: u16, body: bytes)
    requires 0 < |body| < 0x1_0000
    ensures base + (Be16(btype) + Be16(|body|) + [1, 0]) + body == base + BlockBytes(RawBlock(btype, body))
  {
    Assoc(base, Be16(btype) + Be16(|body|) + [1, 0], body);
  }

  // The block at the end of the buffer, read back
  lemma BlockParts(all: bytes, end: nat, base: bytes, btype: u16, body: bytes)
    requires end <= |all| && 0 < |body| < 0x1_0000 && all[..end] == base + BlockBytes(RawBlock(btype, body))
    ensures end == |base| + 6 + |body| && BlockWire(all[|base|..end], btype) && all[|base| + 6..end] == body
  {
    var b := BlockBytes(RawBlock(btype, body));
    assert all[|base|..end] == all[..end][|base|..] == b;
    assert b[0..2] == Be16(btype) && b[2..4] == Be16(|body|) && b[6..] == body;
    ReadsBack16(b, 0, btype);
    ReadsBack16(b, 2, |body|);
    SubSlice(all, |base|, end, 6, |b|);
  }

  method BuildArBlock(buf: array<byte>, off0: nat, c: Controller) returns (off: nat)
    requires c.NameFits() && off0 + 58 + |c.name| <= buf.Length
    modifies buf
    ensures off == off0 + 58 + |c.name|
    ensures buf[..off] == old(buf[..off0]) + BlockBytes(RawBlock(BLK_AR_REQ, ArBody(c)))
    ensures BlockWire(buf[off0..off], 0x0101) && ArWire(buf[off0 + 6..off], c)
  {
    hide BlockBytes, Be16, Be32, BlockWire, ArWire;
    ghost var start := buf[..off0];
    var bodyLen := 2 + 2 + 16 + 2 + 6 + 16 + 4 + 2 + 2 + 2 + |c.name|;
    off := BlockHdr(buf, off0, BLK_AR_REQ, bodyLen - 2);
    ghost var base, d := buf[..off], [];
    assert base + [] == base;
    off, d := Append16(buf, off, 1, base, d);
    off, d := Append(buf, off, c.arUuid, base, d);
    off, d := Append16(buf, off, c.Key(), base, d);
    off, d := Append(buf, off, c.localMac, base, d);
    off, d := Append(buf, off, c.activityUuid, base, d);
    off, d := Append32(buf, off, 0, base, d);
    off, d := Append16(buf, off, 50, base, d);
    off, d := Append16(buf, off, 34964, base, d);
    off, d := Append16(buf, off, |c.name|, base, d);
    off, d := Append(buf, off, c.name, base, d);
    assert [] + Be16(1) == Be16(1);
    assert d == ArBody(c);
    BlockIs(start, BLK_AR_REQ, ArBody(c));
    BlockParts(buf[..], off, start, BLK_AR_REQ, ArBody(c));
    ArIs(c);
  }

  method BuildIocrBlock(buf: array<byte>, off0: nat, c: Controller, iocrType: u16, frameId: u16) returns (off: nat)
    requires off0 + 66 <= buf.Length
    modifies buf
    ensures off == off0 + 66
    ensures buf[..off] == old(buf[..off0]) + BlockBytes(RawBlock(BLK_IOCR_REQ, IocrBody(c, iocrType, frameId)))
    ensures BlockWire(buf[off0..off], 0x0102) && IocrWire(buf[off0 + 6..off], c, iocrType, frameId)
  {
    hide BlockBytes, Be16, Be32, BlockWire, IocrWire;
    ghost var start := buf[..off0];
    var bodyLen := 2 + 2 + 2 + 4 + 2 + 2 + 2 + 2 + 2 + 2 + 4 + 2 + 2 + 2 + 6 + 2 + 4 + 2 + 6 + 2 + 6 + 2;
    off := BlockHdr(buf, off0, BLK_IOCR_REQ, bodyLen - 2);
    ghost var base, d := buf[..off], [];
    assert base + [] == base;
    off, d := Append16(buf, off, iocrType, base, d);
    off, d := Append16(buf, off, if iocrType == IOCR_TYPE_OUTPUT then 1 else 2, base, d);
    off, d := Append16(buf, off, 0x8892, base, d);
    off, d := Append32(buf, off, 2, base, d);
    off, d := Append16(buf, off, 6, base, d);
    off, d := Append16(buf, off, frameId, base, d);
    off, d := Append16(buf, off, c.SendClock(), base, d);
    off, d := Append16(buf, off, c.Reduction(), base, d);
    off, d := Append16(buf, off, 1, base, d);
    off, d := Append16(buf, off, 0, base, d);
    off, d := Append32(buf, off, 0xFFFF_FFFF, base, d);
    off, d := Append16(buf, off, c.Watchdog(), base, d);
    off, d := Append16(buf, off, c.Watchdog(), base, d);
    off, d := Append16(buf, off, 0xC000, base, d);
    off, d := Append(buf, off, Zeros(6), base, d);
    off, d := Append16(buf, off, 1, base, d);
    off, d := Append32(buf, off, 0, base, d);
    off, d := Append16(buf, off, 1, base, d);
    off, d := Append16(buf, off, c.cfg.slot, base, d);
    off, d := Append16(buf, off, c.cfg.subslot, base, d);
    off, d := Append16(buf, off, 0, base, d);
    off, d := Append16(buf, off, 1, base, d);
    off, d := Append16(buf, off, c.cfg.slot, base, d);
    off, d := Append16(buf, off, c.cfg.subslot, base, d);
    off, d := Append16(buf, off, 0, base, d);
    assert [] + Be16(iocrType) == Be16(iocrType);
    assert d == IocrBody(c, iocrType, frameId);
    BlockIs(start, BLK_IOCR_REQ, IocrBody(c, iocrType, frameId));
    BlockParts(buf[..], off, start, BLK_IOCR_REQ, IocrBody(c, iocrType, frameId));
    IocrIs(c, iocrType, frameId);
  }

  method BuildExpSubmodBlock(buf: array<byte>, off0: nat, cfg: ArConfig) returns (off: nat)
    requires off0 + 38 <= buf.Length
    modifies buf
    ensures off == off0 + 38
    ensures buf[..off] == old(buf[..off0]) + BlockBytes(RawBlock(BLK_EXP_SUBMOD, ExpSubmodBody(cfg)))
    ensures BlockWire(buf[off0..off], 0x0104) && ExpSubmodWire(buf[off0 + 6..off], cfg)
  {
    hide BlockBytes, Be16, Be32, BlockWire, ExpSubmodWire;
    ghost var start := buf[..off0];
    var bodyLen := 2 + 2 + 4 + 2 + 4 + 2 + 2 + 2 + 4 + 2 + 2 + 2 + 1 + 2 + 1;
    off := BlockHdr(buf, off0, BLK_EXP_SUBMOD, bodyLen - 2);
    ghost var base, d := buf[..off], [];
    assert base + [] == base;
    off, d := Append16(buf, off, 1, base, d);
    off, d := Append32(buf, off, cfg.api, base, d);
    off, d := Append16(buf, off, cfg.slot, base, d);
    off, d := Append32(buf, off, cfg.moduleIdent, base, d);
    off, d := Append16(buf, off, 0, base, d);
    off, d := Append16(buf, off, 1, base, d);
    off, d := Append16(buf, off, cfg.subslot, base, d);
    off, d := Append32(buf, off, cfg.submoduleIdent, base, d);
    off, d := Append16(buf, off, 0, base, d);
    off, d := Append16(buf, off, 1, base, d);
    off, d := Append16(buf, off, 4, base, d);
    off, d := Append(buf, off, [1], base, d);
    off, d := Append16(buf, off, 4, base, d);
    off, d := Append(buf, off, [1], base, d);
    assert [] + Be16(1) == Be16(1);
    assert d == ExpSubmodBody(cfg);
    BlockIs(start, BLK_EXP_SUBMOD, ExpSubmodBody(cfg));
    BlockParts(buf[..], off, start, BLK_EXP_SUBMOD, ExpSubmodBody(cfg));
    ExpSubmodIs(cfg);
  }

  method BuildAlarmCrBlock(buf: array<byte>, off0: nat) returns (off: nat)
    requires off0 + 24 <= buf.Length
    modifies buf
    ensures off == off0 + 24
    ensures buf[..off] == old(buf[..off0]) + BlockBytes(RawBlock(BLK_ALARM_CR_REQ, AlarmCrBody()))
    ensures BlockWire(buf[off0..off], 0x0103) && AlarmCrWire(buf[off0 + 6..off])
  {
    hide BlockBytes, Be16, Be32, BlockWire, AlarmCrWire;
    ghost var start := buf[..off0];
    var bodyLen := 2 + 2 + 2 + 4 + 2 + 2 + 2 + 2 + 2;
    off := BlockHdr(buf, off0, BLK_ALARM_CR_REQ, bodyLen - 2);
    ghost var base, d := buf[..off], [];
    assert base + [] == base;
    off, d := Append16(buf, off, 1, base, d);
    off, d := Append16(buf, off, 0x8892, base, d);
    off, d := Append32(buf, off, 0, base, d);
    off, d := Append16(buf, off, 200, base, d);
    off, d := Append16(buf, off, 3, base, d);
    off, d := Append16(buf, off, 1, base, d);
    off, d := Append16(buf, off, 200, base, d);
    off, d := Append16(buf, off, 0xC000, base, d);
    assert [] + Be16(1) == Be16(1);
    assert d == AlarmCrBody();
    BlockIs(start, BLK_ALARM_CR_REQ, AlarmCrBody());
    BlockParts(buf[..], off, start, BLK_ALARM_CR_REQ, AlarmCrBody());
    AlarmCrIs();
  }

  // rpc_build_header and the two length fields its callers set behind it
  method BuildHeader(buf: array<byte>, ptype: byte, opnum: u16, callId: u32, uuid: Uuid, fragLen: u16, allocHint: u32)
    requires RPC_OFF_PAYLOAD <= buf.Length
    modifies buf
    ensures buf[..40] == Header(ptype, opnum, callId, uuid, fragLen, allocHint)
    ensures HeaderWire(buf[..40], ptype, opnum, callId, uuid, fragLen, allocHint)
    ensures buf[40..] == old(buf[40..])
  {
    hide Le16, Le32, HeaderWire;
    PutIn(buf, 0, Zeros(40), 40);
    PutIn(buf, 0, [4, ptype, 0x22, 0, 0x10, 0, 0, 0], 40);
    PutIn(buf, 8, Le16(fragLen), 40);
    PutIn(buf, 10, [0, 0], 40);
    PutIn(buf, 12, Le32(callId), 40);
    PutIn(buf, 16, Le32(allocHint), 40);
    PutIn(buf, 20, Le16(0), 40);
    PutIn(buf, 22, Le16(opnum), 40);
    PutIn(buf, 24, uuid, 40);
    HeaderIs(ptype, opnum, callId, uuid, fragLen, allocHint);
  }

  // A write inside buf[..end] leaves the bytes from end on alone.
  method PutIn(buf: array<byte>, off: nat, d: bytes, end: nat)
    requires off + |d| <= end <= buf.Length
    modifies buf
    ensures buf[..off + |d|] == old(buf[..off]) + d
    ensures buf[end..] == old(buf[end..])
  {
    PutBytes(buf, off, d);
    var at := off + |d|;
    assert buf[end..] == buf[at..][end - at..] == old(buf[at..])[end - at..] == old(buf[end..]);
  }

  method BuildConnectRequest(txbuf: array<byte>, c: Controller) returns (off: nat)
    requires txbuf.Length == RPC_BUF_SIZE && c.NameFits()
    modifies txbuf
    ensures off <= RPC_BUF_SIZE && txbuf[..off] == ConnectRequest(c)
  {
    hide BlockBytes, ArBody, IocrBody, ExpSubmodBody, AlarmCrBody, Datagram, BlockWire, ArWire, IocrWire, ExpSubmodWire,
         AlarmCrWire;
    var zeros := Zeros(RPC_BUF_SIZE);
    PutBytes(txbuf, 0, zeros);
    off := RPC_OFF_PAYLOAD;
    ghost var base := txbuf[..off];
    off := BuildArBlock(txbuf, off, c);
    off := BuildIocrBlock(txbuf, off, c, IOCR_TYPE_OUTPUT, c.outFid);
    off := BuildIocrBlock(txbuf, off, c, IOCR_TYPE_INPUT, c.inFid);
    off := BuildExpSubmodBlock(txbuf, off, c.cfg);
    off := BuildAlarmCrBlock(txbuf, off);
    ConnectPayload(base, c);
    ConnectPayloadLength(c);
    ghost var payload := BlocksBytes(ConnectBlocks(c));
    assert txbuf[..off] == base + payload;
    assert txbuf[40..off] == txbuf[..off][40..] == payload;
    FinishDatagram(txbuf, off, RPC_PTYPE_REQUEST, OPNUM_CONNECT, 1, PNIO_CM_IF_UUID, true, payload);
  }

  lemma ConnectPayload(base: bytes, c: Controller)
    requires c.NameFits()
    ensures var bs := ConnectBlocks(c);
            base + BlockBytes(bs[0]) + BlockBytes(bs[1]) + BlockBytes(bs[2]) + BlockBytes(bs[3]) + BlockBytes(bs[4])
            == base + BlocksBytes(bs)
  {
    hide BlockBytes, ArBody, IocrBody, ExpSubmodBody, AlarmCrBody;
    var bs := ConnectBlocks(c);
    var p0, p1, p2, p3, p4 :=
      BlockBytes(bs[0]), BlockBytes(bs[1]), BlockBytes(bs[2]), BlockBytes(bs[3]), BlockBytes(bs[4]);
    assert bs[0..] == bs && bs[5..] == [] && BlocksBytes(bs[5..]) == [] && p4 + [] == p4;
    BlocksNext(bs, 4); BlocksNext(bs, 3); BlocksNext(bs, 2); BlocksNext(bs, 1); BlocksNext(bs, 0);
    Assoc(p2, p3, p4); Assoc(p1, p2 + p3, p4); Assoc(p1, p2, p3);
    Assoc(p0, p1 + p2 + p3, p4); Assoc(p0, p1 + p2, p3); Assoc(p0, p1, p2);
    Assoc(base, p0, p1); Assoc(base, p0 + p1, p2); Assoc(base, p0 + p1 + p2, p3); Assoc(base, p0 + p1 + p2 + p3, p4);
  }

  // ---------- the datagrams, field by field ----------

  lemma DatagramIs(ptype: byte, opnum: u16, callId: u32, uuid: Uuid, hint: bool, payload: bytes)
    requires |payload| < RPC_BUF_SIZE - RPC_OFF_PAYLOAD
    ensures var s := Datagram(ptype, opnum, callId, uuid, hint, payload);
            && HeaderWire(s[..40], ptype, opnum, callId, uuid, |s|, if hint then |s| - 40 else 0)
            && s[40..] == payload
  {
    hide Header, HeaderWire;
    HeaderIs(ptype, opnum, callId, uuid, RPC_OFF_PAYLOAD + |payload|, if hint then |payload| else 0);
    var h := Header(ptype, opnum, callId, uuid, RPC_OFF_PAYLOAD + |payload|, if hint then |payload| else 0);
    var s := Datagram(ptype, opnum, callId, uuid, hint, payload);
    assert s[..40] == h && s[40..] == payload;
  }

  // The ConnectRequest: header, AR, output IOCR, input IOCR, expected sub-module and alarm block,
  // one behind the other, with every field where the standard's decoder looks for it.
  lemma ConnectFields(c: Controller)
    requires c.NameFits()
    ensures var s, a := ConnectRequest(c), 98 + |c.name|;
            && |s| == a + 194
            && HeaderWire(s[..40], 0, 0, 1, PNIO_CM_IF_UUID, |s|, |s| - 40)
            && BlockWire(s[40..a], 0x0101) && ArWire(s[46..a], c)
            && BlockWire(s[a..a + 66], 0x0102) && IocrWire(s[a + 6..a + 66], c, 1, c.outFid)
            && BlockWire(s[a + 66..a + 132], 0x0102) && IocrWire(s[a + 72..a + 132], c, 2, c.inFid)
            && BlockWire(s[a + 132..a + 170], 0x0104) && ExpSubmodWire(s[a + 138..a + 170], c.cfg)
            && BlockWire(s[a + 170..a + 194], 0x0103) && AlarmCrWire(s[a + 176..a + 194])
  {
    hide ArBody, IocrBody, ExpSubmodBody, AlarmCrBody, BlockBytes, BlockWire, ArWire, IocrWire, ExpSubmodWire,
         AlarmCrWire, Datagram, HeaderWire, BlocksBytes;
    var bs, a := ConnectBlocks(c), 98 + |c.name|;
    var payload := BlocksBytes(bs);
    ConnectPayloadLength(c);
    DatagramIs(RPC_PTYPE_REQUEST, OPNUM_CONNECT, 1, PNIO_CM_IF_UUID, true, payload);
    var s := ConnectRequest(c);
    ConnectPayload(s[..40], c);
    assert s == s[..40] + payload;
    var p0, p1 := s[..40] + BlockBytes(bs[0]), s[..40] + BlockBytes(bs[0]) + BlockBytes(bs[1]);
    var p2 := p1 + BlockBytes(bs[2]);
    var p3 := p2 + BlockBytes(bs[3]);
    BlockPlaced(s, s[..40], bs[0], BlockBytes(bs[1]) + BlockBytes(bs[2]) + BlockBytes(bs[3]) + BlockBytes(bs[4]));
    BlockPlaced(s, p0, bs[1], BlockBytes(bs[2]) + BlockBytes(bs[3]) + BlockBytes(bs[4]));
    BlockPlaced(s, p1, bs[2], BlockBytes(bs[3]) + BlockBytes(bs[4]));
    BlockPlaced(s, p2, bs[3], BlockBytes(bs[4]));
    BlockPlaced(s, p3, bs[4], []);
    ArIs(c); IocrIs(c, 1, c.outFid); IocrIs(c, 2, c.inFid); ExpSubmodIs(c.cfg); AlarmCrIs();
  }

  lemma BlockPlaced(s: bytes, base: bytes, b: RawBlock, rest: bytes)
    requires Packable(b) && s == base + BlockBytes(b) + rest
    ensures var at, end := |base|, |base| + 6 + |b.body|;
            end <= |s| && BlockWire(s[at..end], b.blockType) && s[at + 6..end] == b.body
  {
    hide BlockBytes, BlockWire;
    var at, end := |base|, |base| + 6 + |b.body|;
    assert s[..end] == base + BlockBytes(b);
    BlockParts(s, end, base, b.blockType, b.body);
  }

  // The datagrams behind it
  lemma LaterFields(c: Controller, callId: u32)
    ensures var s := WriteRequest(c);
            |s| == 98 && HeaderWire(s[..40], 0, 5, 2, c.activityUuid, 98, 58) && WriteWire(s[40..], c)
    ensures var s := DControlRequest(c);
            |s| == 64 && HeaderWire(s[..40], 0, 2, 3, c.activityUuid, 64, 24)
            && ControlWire(s[40..], c.arUuid, c.sessionKey % 0x1_0000, 4)
    ensures var s := CControlResponse(c, callId);
            |s| == 64 && HeaderWire(s[..40], 2, 3, callId, c.activityUuid, 64, 0)
            && ControlWire(s[40..], c.arUuid, c.sessionKey % 0x1_0000, 0)
  {
    hide Datagram, HeaderWire, WriteWire, ControlWire, WritePayload, ControlPayload;
    WriteIs(c);
    ControlIs(c.arUuid, c.Key(), 4);
    ControlIs(c.arUuid, c.Key(), 0);
    DatagramIs(RPC_PTYPE_REQUEST, OPNUM_WRITE, 2, c.activityUuid, true, WritePayload(c));
    DatagramIs(RPC_PTYPE_REQUEST, OPNUM_DCONTROL, 3, c.activityUuid, true, ControlPayload(c.arUuid, c.Key(), 4));
    DatagramIs(RPC_PTYPE_RESPONSE, OPNUM_CCONTROL, callId, c.activityUuid, false, ControlPayload(c.arUuid, c.Key(), 0));
  }

  // ---------- the datagrams behind the ConnectRequest ----------

  // A payload already in place becomes the datagram once the header is in front of it.
  method FinishDatagram(txbuf: array<byte>, off: nat, ptype: byte, opnum: u16, callId: u32, uuid: Uuid, hint: bool,
                        ghost payload: bytes)
    requires txbuf.Length == RPC_BUF_SIZE && off == RPC_OFF_PAYLOAD + |payload| < RPC_BUF_SIZE
    requires txbuf[RPC_OFF_PAYLOAD..off] == payload
    modifies txbuf
    ensures txbuf[..off] == Datagram(ptype, opnum, callId, uuid, hint, payload)
  {
    hide Header;
    ghost var tail := txbuf[40..];
    assert tail[..off - 40] == payload;
    BuildHeader(txbuf, ptype, opnum, callId, uuid, off, if hint then off - RPC_OFF_PAYLOAD else 0);
    assert txbuf[40..] == tail;
    assert txbuf[40..off] == txbuf[40..][..off - 40];
    assert txbuf[..off] == txbuf[..40] + txbuf[40..off];
  }

  method PutControl(txbuf: array<byte>, uuid: Uuid, key: u16, command: u16) returns (off: nat)
    requires txbuf.Length == RPC_BUF_SIZE
    modifies txbuf
    ensures off == RPC_OFF_PAYLOAD + 24 && txbuf[RPC_OFF_PAYLOAD..off] == ControlPayload(uuid, key, command)
  {
    hide Be16;
    ghost var base, d := txbuf[..40], [];
    assert base + [] == base;
    off, d := Append(txbuf, 40, uuid, base, d);
    off, d := Append16(txbuf, off, key, base, d);
    off, d := Append16(txbuf, off, 0, base, d);
    off, d := Append16(txbuf, off, command, base, d);
    off, d := Append16(txbuf, off, 0, base, d);
    assert [] + uuid == uuid;
    assert d == ControlPayload(uuid, key, command);
    assert txbuf[40..off] == d;
  }

  method BuildDControlRequest(txbuf: array<byte>, c: Controller) returns (off: nat)
    requires txbuf.Length == RPC_BUF_SIZE
    modifies txbuf
    ensures off <= RPC_BUF_SIZE && txbuf[..off] == DControlRequest(c)
  {
    hide Datagram, ControlPayload;
    off := PutControl(txbuf, c.arUuid, c.Key(), 0x0004);
    FinishDatagram(txbuf, off, RPC_PTYPE_REQUEST, OPNUM_DCONTROL, 3, c.activityUuid, true,
                   ControlPayload(c.arUuid, c.Key(), 4));
  }

  method BuildCControlResponse(txbuf: array<byte>, c: Controller, callId: u32) returns (off: nat)
    requires txbuf.Length == RPC_BUF_SIZE
    modifies txbuf
    ensures off <= RPC_BUF_SIZE && txbuf[..off] == CControlResponse(c, callId)
  {
    hide Datagram, ControlPayload;
    off := PutControl(txbuf, c.arUuid, c.Key(), 0x0000);
    FinishDatagram(txbuf, off, RPC_PTYPE_RESPONSE, OPNUM_CCONTROL, callId, c.activityUuid, false,
                   ControlPayload(c.arUuid, c.Key(), 0));
  }

  method BuildWriteRequest(txbuf: array<byte>, c: Controller) returns (off: nat)
    requires txbuf.Length == RPC_BUF_SIZE
    modifies txbuf
    ensures off <= RPC_BUF_SIZE && txbuf[..off] == WriteRequest(c)
  {
    hide Datagram, Be16, Be32;
    ghost var base, d := txbuf[..40], [];
    assert base + [] == base;
    off, d := Append16(txbuf, 40, 0x0000, base, d);
    off, d := Append(txbuf, off, c.arUuid, base, d);
    off, d := Append32(txbuf, off, 0, base, d);
    off, d := Append16(txbuf, off, c.cfg.slot, base, d);
    off, d := Append16(txbuf, off, c.cfg.subslot, base, d);
    off, d := Append16(txbuf, off, 0, base, d);
    off, d := Append16(txbuf, off, 0x8028, base, d);
    off, d := Append32(txbuf, off, 0, base, d);
    off, d := Append(txbuf, off, Zeros(24), base, d);
    assert [] + Be16(0) == Be16(0);
    assert d == WritePayload(c);
    assert txbuf[40..off] == d;
    FinishDatagram(txbuf, off, RPC_PTYPE_REQUEST, OPNUM_WRITE, 2, c.activityUuid, true, WritePayload(c));
  }
}
