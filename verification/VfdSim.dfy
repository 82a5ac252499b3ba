// simulator/vfd_sim.py: the device's RPC handlers.
module VfdSim {
  import opened Bytes
  import opened RpcRequest
  import opened RtFrames

  datatype DevState = Listening | Connected | Cyclic

  // The negotiated parameters and the state; `ccid` is the device's own call id counter.
  datatype Device = Device(state: DevState, localMac: Mac, arUuid: Uuid, sessionKey: u16, ctrlMac: Mac,
                           outFid: u16, inFid: u16, refOut: u16, refIn: u16,
                           sendClock: u16, dataLength: u16, ccid: u32)

  const PN_OBJ_UUID: Uuid := [0x00, 0x00, 0xA0, 0xDE,
    0x97, 0x6C, 0xD1, 0x11, 0x82, 0x71, 0x00, 0xA0, 0x24, 0x42, 0xDF, 0x7D]
  const NO_UUID: Uuid := Zeros(16)

  // ---------- walking the request blocks ----------

  // The blocks the walker visits from pos on: it stops at a zero BlockLength, at a block that
  // runs past the end and at a rest too short for a header.
  function Visited(s: bytes, pos: nat): (bs: seq<RawBlock>)
    decreases |s| - pos
  {
    if pos + 6 > |s| then []
    else
      var len := GetBe16(s, pos + 2);
      var be := pos + 6 + len;
      if len == 0 || be > |s| then []
      else [RawBlock(GetBe16(s, pos), s[pos + 6..be])] + Visited(s, be)
  }

  // What one visited block changes
  function Note(d: Device, b: RawBlock): Device
  {
    if b.blockType == BLK_AR_REQ && |b.body| >= 28 then
      d.(arUuid := b.body[2..18], sessionKey := GetBe16(b.body, 18), ctrlMac := b.body[20..26])
    else if b.blockType == BLK_IOCR_REQ && |b.body| >= 16 then
      var clock := GetBe16(b.body, 14);
      if GetBe16(b.body, 0) == 1 then
        d.(outFid := GetBe16(b.body, 12), refOut := GetBe16(b.body, 2), dataLength := GetBe16(b.body, 10),
           sendClock := if clock != 0 then clock else 128)
      else if GetBe16(b.body, 0) == 2 then
        d.(inFid := GetBe16(b.body, 12), refIn := GetBe16(b.body, 2))
      else d
    else d
  }

  function NoteAll(d: Device, bs: seq<RawBlock>): Device
    decreases |bs|
  {
    if bs == [] then d else NoteAll(Note(d, bs[0]), bs[1..])
  }

  // What a Connect resets before it walks
  function Reset(d: Device): Device
  {
    d.(arUuid := NO_UUID, sessionKey := 0, outFid := 0, inFid := 0, refOut := 0, refIn := 0,
       sendClock := 128, dataLength := 4)
  }

  // ---------- replies ----------

  function Hdr(callId: bytes, opnum: u16, pktType: byte, fragLen: u16): (s: bytes)
    requires |callId| == 4
    ensures |s| == 24
  {
    [4, 0, pktType, 0x22, 0x10, 0, 0, 0] + Le16(fragLen) + [0, 0] + callId + Zeros(6) + Le16(opnum)
  }

  // The device's BlockLength counts the two version bytes as well.
  function ResBlock(blockType: u16, body: bytes): (s: bytes)
    requires |body| < 0xFFFE
    ensures |s| == 6 + |body|
  {
    Be16(blockType) + Be16(|body| + 2) + [1, 0] + body
  }

  const BLK_AR_RES: u16 := 0x8101
  const BLK_IOCR_RES: u16 := 0x8102
  const BLK_ALARM_CR_RES: u16 := 0x8103
  const BLK_MOD_DIFF: u16 := 0x8104

  function ArResBody(d: Device): (s: bytes)
    ensures |s| == 30
  {
    Be16(6) + d.arUuid + Be16(d.sessionKey) + d.localMac + Be16(0x8894) + Be16(0)
  }

  function IocrResBody(iocrType: u16, ref: u16, fid: u16): (s: bytes)
    ensures |s| == 6
  {
    Be16(iocrType) + Be16(ref) + Be16(fid)
  }

  function AlarmResBody(): (s: bytes)
    ensures |s| == 6
  {
    Be16(1) + Be16(1) + Be16(200)
  }

  function ModDiffBody(): (s: bytes)
    ensures |s| == 8
  {
    Be16(1) + Be32(0) + Be16(0)
  }

  const CONNECT_RES_LENGTH := 130

  // Header, object UUID, a four-byte status of zeros, five blocks
  function ConnectResponse(d: Device, callId: bytes): (s: bytes)
    requires |callId| == 4
    ensures |s| == CONNECT_RES_LENGTH
  {
    Hdr(callId, OPNUM_CONNECT, 2, CONNECT_RES_LENGTH) + PN_OBJ_UUID + Zeros(4)
    + ResBlock(BLK_AR_RES, ArResBody(d))
    + ResBlock(BLK_IOCR_RES, IocrResBody(1, d.refOut, d.outFid))
    + ResBlock(BLK_IOCR_RES, IocrResBody(2, d.refIn, d.inFid))
    + ResBlock(BLK_ALARM_CR_RES, AlarmResBody())
    + ResBlock(BLK_MOD_DIFF, ModDiffBody())
  }

  function WriteResponse(callId: bytes): (s: bytes)
    requires |callId| == 4
    ensures |s| == 108
  {
    Hdr(callId, OPNUM_WRITE, 2, 108) + PN_OBJ_UUID + Zeros(4) + Be16(0x8008) + Be16(0x003C) + Zeros(60)
  }

  function DControlResponse(d: Device, callId: bytes, command: u16): (s: bytes)
    requires |callId| == 4
    ensures |s| == 76
  {
    Hdr(callId, OPNUM_DCONTROL, 2, 76) + PN_OBJ_UUID + Zeros(4)
    + Be16(0x8110) + Be16(28) + [1, 0] + [0, 0] + d.arUuid + Be16(d.sessionKey) + [0, 0] + Be16(command) + Be16(0)
  }

  function CControlRequest(d: Device): (s: bytes)
    ensures |s| == 64
  {
    Hdr(Le32(d.ccid), OPNUM_CCONTROL, 0, 64) + Zeros(16) + ControlPayload(d.arUuid, d.sessionKey, 4)
  }

  function ReleaseResponse(d: Device, callId: bytes): (s: bytes)
    requires |callId| == 4
    ensures |s| == 76
  {
    Hdr(callId, 1, 2, 76) + PN_OBJ_UUID + Zeros(4)
    + Be16(0x8111) + Be16(28) + [1, 0] + [0, 0] + d.arUuid + Be16(d.sessionKey) + [0, 0] + Be16(0x0010) + Be16(0)
  }

  // ---------- handling one datagram ----------

  function Payload(buf: bytes): bytes { if |buf| < RPC_OFF_PAYLOAD then [] else buf[RPC_OFF_PAYLOAD..] }

  function OnConnect(d: Device, buf: bytes): (r: (Device, seq<bytes>))
    requires |buf| >= 24
  {
    if |Payload(buf)| < 4 then (d, [])
    else
      var n := NoteAll(Reset(d), Visited(Payload(buf), 0)).(state := Connected);
      (n, [ConnectResponse(n, buf[12..16])])
  }

  // Bit 2 of the ControlCommand
  predicate AppReady(command: u16) { command / 4 % 2 == 1 }

  function OnDControl(d: Device, buf: bytes): (r: (Device, seq<bytes>))
    requires |buf| >= 24
  {
    if |buf| < RPC_OFF_PAYLOAD + 22 then (d, [])
    else
      var command := GetBe16(buf, RPC_OFF_PAYLOAD + 20);
      var reply := DControlResponse(d, buf[12..16], command);
      if AppReady(command) then
        var n := d.(state := Cyclic, ccid := (d.ccid + 1) % 0x1_0000_0000);
        (n, [reply, CControlRequest(n)])
      else (d, [reply])
  }

  // The RPC thread on one received datagram
  function OnDatagram(d: Device, buf: bytes): (r: (Device, seq<bytes>))
  {
    if |buf| < 24 then (d, [])
    else
      var opnum := GetLe16(buf, 22);
      if opnum == 0 then OnConnect(d, buf)
      else if opnum == 1 then (d.(state := Listening), [ReleaseResponse(d, buf[12..16])])
      else if opnum == 2 then OnDControl(d, buf)
      else if opnum == 5 then (d, [WriteResponse(buf[12..16])])
      else (d, [])
  }

  // ---------- the walker visits exactly the blocks packed ----------

  lemma ReadIn(s: bytes, at: nat, part: bytes, off: nat)
    requires at + |part| <= |s| && s[at..at + |part|] == part && off + 2 <= |part|
    ensures GetBe16(s, at + off) == GetBe16(part, off)
  {
    assert s[at + off] == part[off] && s[at + off + 1] == part[off + 1];
  }

  lemma BlockHead(b: RawBlock)
    requires Packable(b)
    ensures GetBe16(BlockBytes(b), 0) == b.blockType && GetBe16(BlockBytes(b), 2) == |b.body|
    ensures BlockBytes(b)[6..] == b.body
  {
    var s := BlockBytes(b);
    assert s[0..2] == Be16(b.blockType) && s[2..4] == Be16(|b.body|);
    ReadsBack16(s, 0, b.blockType);
    ReadsBack16(s, 2, |b.body|);
  }

  lemma VisitsOne(s: bytes, pos: nat, b: RawBlock, rest: bytes)
    requires Packable(b) && pos <= |s| && s[pos..] == BlockBytes(b) + rest
    ensures var at := pos + 6 + |b.body|;
            at <= |s| && s[at..] == rest && Visited(s, pos) == [b] + Visited(s, at)
  {
    hide BlockBytes, GetBe16;
    var p := BlockBytes(b);
    var at := pos + |p|;
    Suffix(s, pos, p, rest);
    BlockHead(b);
    ReadIn(s, pos, p, 0);
    ReadIn(s, pos, p, 2);
    SubSlice(s, pos, at, 6, |p|);
  }

  lemma Suffix(s: bytes, pos: nat, p: bytes, rest: bytes)
    requires pos <= |s| && s[pos..] == p + rest
    ensures pos + |p| <= |s| && s[pos..pos + |p|] == p && s[pos + |p|..] == rest
  {
    assert s[pos..][..|p|] == p && s[pos..][|p|..] == rest;
    SubSlice(s, pos, |s|, 0, |p|);
    SubSlice(s, pos, |s|, |p|, |s| - pos);
  }

  // Any list of blocks packed without padding is visited block by block, and nothing else.
  lemma {:induction false} VisitsPacked(s: bytes, pos: nat, bs: seq<RawBlock>)
    requires AllPackable(bs) && pos <= |s| && s[pos..] == BlocksBytes(bs)
    ensures Visited(s, pos) == bs
    decreases |bs|
  {
    hide BlockBytes, GetBe16;
    if bs == [] {
      assert |s| == pos;
    } else {
      VisitsOne(s, pos, bs[0], BlocksBytes(bs[1..]));
      VisitsPacked(s, pos + 6 + |bs[0].body|, bs[1..]);
      assert [bs[0]] + bs[1..] == bs;
    }
  }

  // ---------- a ConnectRequest is understood ----------

  lemma ArFields(c: Controller)
    requires c.NameFits()
    ensures var b := ArBody(c);
            b[2..18] == c.arUuid && GetBe16(b, 18) == c.Key() && b[20..26] == c.localMac
  {
    var b := ArBody(c);
    var tail := c.activityUuid + Be32(0) + Be16(50) + Be16(34964) + Be16(|c.name|) + c.name;
    var head := Be16(1) + c.arUuid + Be16(c.Key()) + c.localMac;
    assert b == head + tail;
    assert b[..26] == head;
    assert head[2..18] == c.arUuid && head[18..20] == Be16(c.Key()) && head[20..26] == c.localMac;
    SubSlice(b, 0, 26, 2, 18); SubSlice(b, 0, 26, 18, 20); SubSlice(b, 0, 26, 20, 26);
    ReadsBack16(b, 18, c.Key());
  }

  lemma IocrFields(c: Controller, iocrType: u16, fid: u16)
    ensures var b := IocrBody(c, iocrType, fid);
            && GetBe16(b, 0) == iocrType && GetBe16(b, 2) == (if iocrType == IOCR_TYPE_OUTPUT then 1 else 2)
            && GetBe16(b, 10) == 6 && GetBe16(b, 12) == fid && GetBe16(b, 14) == c.SendClock()
  {
    hide Be16, Be32, GetBe16;
    var b := IocrBody(c, iocrType, fid);
    var ref: u16 := if iocrType == IOCR_TYPE_OUTPUT then 1 else 2;
    var head := Be16(iocrType) + Be16(ref) + Be16(0x8892) + Be32(2) + Be16(6) + Be16(fid) + Be16(c.SendClock());
    assert b[..16] == head;
    assert head[0..2] == Be16(iocrType) && head[2..4] == Be16(ref) && head[10..12] == Be16(6);
    assert head[12..14] == Be16(fid) && head[14..16] == Be16(c.SendClock());
    SubSlice(b, 0, 16, 0, 2); SubSlice(b, 0, 16, 2, 4); SubSlice(b, 0, 16, 10, 12);
    SubSlice(b, 0, 16, 12, 14); SubSlice(b, 0, 16, 14, 16);
    ReadsBack16(b, 0, iocrType); ReadsBack16(b, 2, ref); ReadsBack16(b, 10, 6);
    ReadsBack16(b, 12, fid); ReadsBack16(b, 14, c.SendClock());
  }

  // The device as the controller means it to be after its ConnectRequest
  function Negotiated(d: Device, c: Controller): Device
  {
    d.(arUuid := c.arUuid, sessionKey := c.Key(), ctrlMac := c.localMac, outFid := c.outFid, inFid := c.inFid,
       refOut := 1, refIn := 2, sendClock := c.SendClock(), dataLength := 6)
  }

  // For all field values and any station name the device recovers every parameter.
  lemma RequestUnderstood(d: Device, c: Controller)
    requires c.NameFits()
    ensures NoteAll(Reset(d), Visited(BlocksBytes(ConnectBlocks(c)), 0)) == Negotiated(d, c)
  {
    hide ArBody, IocrBody, ExpSubmodBody, AlarmCrBody, BlocksBytes, Visited, Reset, Note;
    var bs := ConnectBlocks(c);
    assert BlocksBytes(bs)[0..] == BlocksBytes(bs);
    VisitsPacked(BlocksBytes(bs), 0, bs);
    NotesRequest(d, c);
    var d3 := Note(Note(Note(Reset(d), bs[0]), bs[1]), bs[2]);
    assert bs[0..] == bs && bs[5..] == [];
    NoteNext(Reset(d), bs, 0);
    NoteNext(Note(Reset(d), bs[0]), bs, 1);
    NoteNext(Note(Note(Reset(d), bs[0]), bs[1]), bs, 2);
    NoteNext(d3, bs, 3);
    NoteNext(d3, bs, 4);
  }

  lemma NoteNext(d: Device, bs: seq<RawBlock>, k: nat)
    requires k < |bs|
    ensures NoteAll(d, bs[k..]) == NoteAll(Note(d, bs[k]), bs[k + 1..])
  {
    assert bs[k..][0] == bs[k] && bs[k..][1..] == bs[k + 1..];
  }

  lemma NotesRequest(d: Device, c: Controller)
    requires c.NameFits()
    ensures var bs := ConnectBlocks(c);
            var d3 := Note(Note(Note(Reset(d), bs[0]), bs[1]), bs[2]);
            d3 == Negotiated(d, c) && Note(d3, bs[3]) == d3 && Note(d3, bs[4]) == d3
  {
    hide ArBody, IocrBody, ExpSubmodBody, AlarmCrBody, GetBe16;
    ArFields(c);
    IocrFields(c, IOCR_TYPE_OUTPUT, c.outFid);
    IocrFields(c, IOCR_TYPE_INPUT, c.inFid);
  }

  // What a Connect forgets before it looks at the request: everything negotiated but the MAC
  lemma EmptyConnect(d: Device, buf: bytes)
    requires |buf| >= 44 && GetLe16(buf, 22) == 0 && Visited(buf[40..], 0) == []
    ensures OnDatagram(d, buf).0
         == d.(state := Connected, arUuid := Zeros(16), sessionKey := 0, outFid := 0, inFid := 0, refOut := 0,
               refIn := 0, sendClock := 128, dataLength := 4)
  {
    hide ConnectResponse, GetLe16, Visited;
  }

  // Which block changes what: AR blocks of at least 28 bytes, IOCR blocks of at least 16 by their
  // type, a send clock of 0 meaning 128; nothing else changes anything.
  lemma BlockTable(d: Device, b: RawBlock)
    ensures b.blockType == 0x0101 && |b.body| >= 28 ==>
              Note(d, b) == d.(arUuid := b.body[2..18], sessionKey := GetBe16(b.body, 18), ctrlMac := b.body[20..26])
    ensures b.blockType == 0x0102 && |b.body| >= 16 && GetBe16(b.body, 0) == 1 ==>
              var clock := GetBe16(b.body, 14);
              Note(d, b) == d.(outFid := GetBe16(b.body, 12), refOut := GetBe16(b.body, 2),
                               dataLength := GetBe16(b.body, 10), sendClock := if clock == 0 then 128 else clock)
    ensures b.blockType == 0x0102 && |b.body| >= 16 && GetBe16(b.body, 0) == 2 ==>
              Note(d, b) == d.(inFid := GetBe16(b.body, 12), refIn := GetBe16(b.body, 2))
    ensures b.blockType != 0x0101 && b.blockType != 0x0102 ==> Note(d, b) == d
    ensures b.blockType == 0x0101 && |b.body| < 28 ==> Note(d, b) == d
    ensures b.blockType == 0x0102 && (|b.body| < 16 || GetBe16(b.body, 0) !in {1, 2}) ==> Note(d, b) == d
  {
  }

  // ---------- the replies, field by field ----------

  // Version 4, the packet type at offset 2, flags, Intel order, length, call id and operation number
  predicate ReplyHeader(s: bytes, callId: bytes, opnum: u16, pktType: byte)
  {
    && |s| >= 24 && s[0] == 4 && s[1] == 0 && s[2] == pktType && s[3] == 0x22 && s[4] == 0x10
    && s[5] == s[6] == s[7] == 0 && GetLe16(s, 8) as int == |s| && s[10] == s[11] == 0 && s[12..16] == callId
    && (forall i | 16 <= i < 22 :: s[i] == 0) && GetLe16(s, 22) == opnum
  }

  // Block type, length, version 1.0 in front of a reply block
  predicate ReplyBlock(s: bytes, at: nat, blockType: u16, length: nat)
  {
    && length >= 2 && at + 4 + length <= |s| && GetBe16(s, at) == blockType && GetBe16(s, at + 2) as int == length
    && s[at + 4] == 1 && s[at + 5] == 0
  }

  lemma HdrStarts(callId: bytes, opnum: u16, pktType: byte, s: bytes)
    requires |callId| == 4 && 24 <= |s| < 0x1_0000 && s[..24] == Hdr(callId, opnum, pktType, |s|)
    ensures ReplyHeader(s, callId, opnum, pktType)
  {
    var h := Hdr(callId, opnum, pktType, |s|);
    assert forall i | 0 <= i < 24 :: s[i] == h[i];
    assert h[12..16] == callId && s[12..16] == s[..24][12..16];
  }

  lemma ResponseBlocks(d: Device, callId: bytes)
    requires |callId| == 4
    ensures var s := ConnectResponse(d, callId);
            && s[..24] == Hdr(callId, OPNUM_CONNECT, 2, 130) && s[24..40] == PN_OBJ_UUID && s[40..44] == Zeros(4)
            && s[44..80] == ResBlock(BLK_AR_RES, ArResBody(d))
            && s[80..92] == ResBlock(BLK_IOCR_RES, IocrResBody(1, d.refOut, d.outFid))
            && s[92..104] == ResBlock(BLK_IOCR_RES, IocrResBody(2, d.refIn, d.inFid))
            && s[104..116] == ResBlock(BLK_ALARM_CR_RES, AlarmResBody())
            && s[116..130] == ResBlock(BLK_MOD_DIFF, ModDiffBody())
  {
    hide Hdr, ResBlock, ArResBody, IocrResBody, AlarmResBody, ModDiffBody;
  }

  // The ConnectResponse: AR, both IOCRs, alarm and module-difference block at their places, each with
  // every parameter the device stored
  lemma ResponseFields(d: Device, callId: bytes)
    requires |callId| == 4
    ensures var s := ConnectResponse(d, callId);
            && |s| == 130 && ReplyHeader(s, callId, 0, 2) && s[24..40] == PN_OBJ_UUID
            && s[40] == s[41] == s[42] == s[43] == 0
            && ReplyBlock(s, 44, 0x8101, 32) && GetBe16(s, 50) == 6 && s[52..68] == d.arUuid
            && GetBe16(s, 68) == d.sessionKey && s[70..76] == d.localMac && GetBe16(s, 76) == 0x8894
            && GetBe16(s, 78) == 0
            && ReplyBlock(s, 80, 0x8102, 8) && GetBe16(s, 86) == 1 && GetBe16(s, 88) == d.refOut
            && GetBe16(s, 90) == d.outFid
            && ReplyBlock(s, 92, 0x8102, 8) && GetBe16(s, 98) == 2 && GetBe16(s, 100) == d.refIn
            && GetBe16(s, 102) == d.inFid
            && ReplyBlock(s, 104, 0x8103, 8) && GetBe16(s, 110) == 1 && GetBe16(s, 112) == 1 && GetBe16(s, 114) == 200
            && ReplyBlock(s, 116, 0x8104, 10) && GetBe16(s, 122) == 1 && GetBe32(s, 124) == 0 && GetBe16(s, 128) == 0
  {
    hide ConnectResponse, Hdr, ReplyHeader;
    var s := ConnectResponse(d, callId);
    ResponseBlocks(d, callId);
    HdrStarts(callId, OPNUM_CONNECT, 2, s);
    ArResAt(s, d);
    IocrResAt(s, 80, 1, d.refOut, d.outFid);
    IocrResAt(s, 92, 2, d.refIn, d.inFid);
    AlarmResAt(s);
    ModDiffAt(s);
    StatusAt(s);
  }

  lemma StatusAt(s: bytes)
    requires |s| == 130 && s[40..44] == Zeros(4)
    ensures s[40] == s[41] == s[42] == s[43] == 0
  {
    assert forall i | 40 <= i < 44 :: s[i] == s[40..44][i - 40];
  }

  lemma ArResAt(s: bytes, d: Device)
    requires |s| == 130 && s[44..80] == ResBlock(BLK_AR_RES, ArResBody(d))
    ensures ReplyBlock(s, 44, 0x8101, 32) && GetBe16(s, 50) == 6 && s[52..68] == d.arUuid
    ensures GetBe16(s, 68) == d.sessionKey && s[70..76] == d.localMac && GetBe16(s, 76) == 0x8894 && GetBe16(s, 78) == 0
  {
    var b := ResBlock(BLK_AR_RES, ArResBody(d));
    assert forall i | 44 <= i < 80 :: s[i] == b[i - 44];
    assert b[8..24] == d.arUuid && b[26..32] == d.localMac;
    SubSlice(s, 44, 80, 8, 24);
    SubSlice(s, 44, 80, 26, 32);
  }

  lemma IocrResAt(s: bytes, at: nat, iocrType: u16, ref: u16, fid: u16)
    requires at + 12 <= |s| && s[at..at + 12] == ResBlock(BLK_IOCR_RES, IocrResBody(iocrType, ref, fid))
    ensures ReplyBlock(s, at, 0x8102, 8) && GetBe16(s, at + 6) == iocrType
    ensures GetBe16(s, at + 8) == ref && GetBe16(s, at + 10) == fid
  {
    var b := ResBlock(BLK_IOCR_RES, IocrResBody(iocrType, ref, fid));
    assert forall i | at <= i < at + 12 :: s[i] == b[i - at];
  }

  lemma AlarmResAt(s: bytes)
    requires |s| == 130 && s[104..116] == ResBlock(BLK_ALARM_CR_RES, AlarmResBody())
    ensures ReplyBlock(s, 104, 0x8103, 8) && GetBe16(s, 110) == 1 && GetBe16(s, 112) == 1 && GetBe16(s, 114) == 200
  {
    var b := ResBlock(BLK_ALARM_CR_RES, AlarmResBody());
    assert forall i | 104 <= i < 116 :: s[i] == b[i - 104];
  }

  lemma ModDiffAt(s: bytes)
    requires |s| == 130 && s[116..130] == ResBlock(BLK_MOD_DIFF, ModDiffBody())
    ensures ReplyBlock(s, 116, 0x8104, 10) && GetBe16(s, 122) == 1 && GetBe32(s, 124) == 0 && GetBe16(s, 128) == 0
  {
    var b := ResBlock(BLK_MOD_DIFF, ModDiffBody());
    assert forall i | 116 <= i < 130 :: s[i] == b[i - 116];
  }

  // Object UUID, status and one control block: type, AR UUID, session key and command
  predicate ControlReply(s: bytes, callId: bytes, opnum: u16, blockType: u16, d: Device, command: u16)
  {
    && |s| == 76 && ReplyHeader(s, callId, opnum, 2) && s[24..40] == PN_OBJ_UUID
    && s[40] == s[41] == s[42] == s[43] == 0
    && GetBe16(s, 44) == blockType && GetBe16(s, 46) == 28 && s[48] == 1 && s[49] == s[50] == s[51] == 0
    && s[52..68] == d.arUuid && GetBe16(s, 68) == d.sessionKey && GetBe16(s, 70) == 0
    && GetBe16(s, 72) == command && GetBe16(s, 74) == 0
  }

  // What the device sends besides: its answers to DControl, Release and Write, and its own CControl
  lemma ReplyFields(d: Device, callId: bytes, command: u16)
    requires |callId| == 4
    ensures ControlReply(DControlResponse(d, callId, command), callId, 2, 0x8110, d, command)
    ensures ControlReply(ReleaseResponse(d, callId), callId, 1, 0x8111, d, 0x0010)
    ensures var s := WriteResponse(callId);
            && |s| == 108 && ReplyHeader(s, callId, 5, 2) && s[24..40] == PN_OBJ_UUID
            && (forall i | 40 <= i < 44 || 48 <= i < 108 :: s[i] == 0)
            && GetBe16(s, 44) == 0x8008 && GetBe16(s, 46) == 0x003C
    ensures var s := CControlRequest(d);
            && |s| == 64 && ReplyHeader(s, s[12..16], 3, 0) && GetLe32(s, 12) == d.ccid
            && (forall i | 24 <= i < 40 :: s[i] == 0) && ControlWire(s[40..], d.arUuid, d.sessionKey, 4)
  {
    hide ReplyHeader, ControlWire, ControlPayload;
    ControlReplyIs(d, callId, OPNUM_DCONTROL, 0x8110, command);
    ControlReplyIs(d, callId, 1, 0x8111, 0x0010);
    WriteReplyIs(callId);
    CControlFields(d);
  }

  lemma ControlReplyIs(d: Device, callId: bytes, opnum: u16, blockType: u16, command: u16)
    requires |callId| == 4
    ensures ControlReply(Hdr(callId, opnum, 2, 76) + PN_OBJ_UUID + Zeros(4)
              + Be16(blockType) + Be16(28) + [1, 0] + [0, 0] + d.arUuid + Be16(d.sessionKey) + [0, 0]
              + Be16(command) + Be16(0), callId, opnum, blockType, d, command)
  {
    hide Hdr, ReplyHeader;
    var s := Hdr(callId, opnum, 2, 76) + PN_OBJ_UUID + Zeros(4)
             + Be16(blockType) + Be16(28) + [1, 0] + [0, 0] + d.arUuid + Be16(d.sessionKey) + [0, 0]
             + Be16(command) + Be16(0);
    assert s[..24] == Hdr(callId, opnum, 2, 76);
    HdrStarts(callId, opnum, 2, s);
    ControlSlices(d, callId, opnum, blockType, command);
  }

  lemma ControlSlices(d: Device, callId: bytes, opnum: u16, blockType: u16, command: u16)
    requires |callId| == 4
    ensures var s := Hdr(callId, opnum, 2, 76) + PN_OBJ_UUID + Zeros(4)
                     + Be16(blockType) + Be16(28) + [1, 0] + [0, 0] + d.arUuid + Be16(d.sessionKey) + [0, 0]
                     + Be16(command) + Be16(0);
            |s| == 76 && s[24..40] == PN_OBJ_UUID && s[52..68] == d.arUuid
  {
    hide Hdr, Be16;
  }

  lemma WriteReplyIs(callId: bytes)
    requires |callId| == 4
    ensures var s := WriteResponse(callId);
            && |s| == 108 && ReplyHeader(s, callId, 5, 2) && s[24..40] == PN_OBJ_UUID
            && (forall i | 40 <= i < 44 || 48 <= i < 108 :: s[i] == 0)
            && GetBe16(s, 44) == 0x8008 && GetBe16(s, 46) == 0x003C
  {
    hide Hdr, ReplyHeader;
    var s := WriteResponse(callId);
    assert s[..24] == Hdr(callId, OPNUM_WRITE, 2, 108);
    HdrStarts(callId, OPNUM_WRITE, 2, s);
  }

  lemma CControlFields(d: Device)
    ensures var s := CControlRequest(d);
            && |s| == 64 && ReplyHeader(s, s[12..16], 3, 0) && GetLe32(s, 12) == d.ccid
            && (forall i | 24 <= i < 40 :: s[i] == 0) && ControlWire(s[40..], d.arUuid, d.sessionKey, 4)
  {
    hide Hdr, ReplyHeader, ControlWire, ControlPayload, Le32, GetLe32;
    var s := CControlRequest(d);
    assert s[..24] == Hdr(Le32(d.ccid), OPNUM_CCONTROL, 0, 64);
    HdrStarts(Le32(d.ccid), OPNUM_CCONTROL, 0, s);
    CallIdAt(s, Le32(d.ccid));
    ReadsBackLe32(s, 12, d.ccid);
    assert s[40..] == ControlPayload(d.arUuid, d.sessionKey, 4);
    ControlIs(d.arUuid, d.sessionKey, 4);
  }

  lemma CallIdAt(s: bytes, callId: bytes)
    requires ReplyHeader(s, callId, OPNUM_CCONTROL, 0)
    ensures s[12..16] == callId
  {
  }

  // What the device makes of a datagram's operation number; anything too short or unknown is
  // dropped without a reply.
  lemma DatagramTable(d: Device, buf: bytes)
    ensures |buf| < 24 ==> OnDatagram(d, buf) == (d, [])
    ensures |buf| >= 24 && GetLe16(buf, 22) !in {0, 1, 2, 5} ==> OnDatagram(d, buf) == (d, [])
    ensures |buf| >= 24 && GetLe16(buf, 22) == 0 && |buf| < 44 ==> OnDatagram(d, buf) == (d, [])
    ensures |buf| >= 24 && GetLe16(buf, 22) == 1 ==>
              OnDatagram(d, buf) == (d.(state := Listening), [ReleaseResponse(d, buf[12..16])])
    ensures |buf| >= 24 && GetLe16(buf, 22) == 2 && |buf| < 62 ==> OnDatagram(d, buf) == (d, [])
    ensures |buf| >= 62 && GetLe16(buf, 22) == 2 && GetBe16(buf, 60) % 8 < 4 ==>
              OnDatagram(d, buf) == (d, [DControlResponse(d, buf[12..16], GetBe16(buf, 60))])
    ensures |buf| >= 24 && GetLe16(buf, 22) == 5 ==> OnDatagram(d, buf) == (d, [WriteResponse(buf[12..16])])
  {
    hide OnConnect, OnDControl, ReleaseResponse, DControlResponse, WriteResponse, GetLe16, GetBe16, ConnectResponse;
    if |buf| >= 24 {
      ShortConnect(d, buf);
      DControlTable(d, buf);
    }
  }

  lemma ShortConnect(d: Device, buf: bytes)
    requires |buf| >= 24
    ensures |buf| < 44 ==> OnConnect(d, buf) == (d, [])
  {
    hide ConnectResponse, Visited, NoteAll, Reset;
  }

  lemma DControlTable(d: Device, buf: bytes)
    requires |buf| >= 24
    ensures |buf| < 62 ==> OnDControl(d, buf) == (d, [])
    ensures |buf| >= 62 && GetBe16(buf, 60) % 8 < 4 ==>
              OnDControl(d, buf) == (d, [DControlResponse(d, buf[12..16], GetBe16(buf, 60))])
  {
    hide DControlResponse, CControlRequest, GetBe16;
  }

  // ---------- the simulator object ----------

  class VfdSim {
    const localMac: Mac
    var state: DevState
    var arUuid: Uuid
    var sessionKey: u16
    var ctrlMac: Mac
    var outFid: u16
    var inFid: u16
    var refOut: u16
    var refIn: u16
    var sendClock: u16
    var dataLength: u16
    var ccid: u32
    const autoSim: bool
    var stw1: u16
    var nsoll: u16
    var zsw1: u16
    var nist: u16

    constructor (localMac: Mac, autoSim: bool)
      ensures Drive() == FreshDrive(autoSim)
      ensures View() == Device(Listening, localMac, NO_UUID, 0, Zeros(6), 0, 0, 0, 0, 128, 4, 0x1000_0000)
    {
      this.localMac, this.autoSim := localMac, autoSim;
      stw1, nsoll, zsw1, nist := 0, 0, 0x0F21, 0;
      state, arUuid, sessionKey, ctrlMac := Listening, NO_UUID, 0, Zeros(6);
      outFid, inFid, refOut, refIn, sendClock, dataLength := 0, 0, 0, 0, 128, 4;
      ccid := 0x1000_0000;
    }

    function View(): Device
      reads this
    {
      Device(state, localMac, arUuid, sessionKey, ctrlMac, outFid, inFid, refOut, refIn, sendClock, dataLength, ccid)
    }

    function Drive(): DriveIo
      reads this
    {
      DriveIo(autoSim, stw1, nsoll, zsw1, nist)
    }

    // ---------- cyclic exchange ----------

    method ComputeProfidrive()
      modifies this`zsw1, this`nist
      ensures Drive() == old(Drive()).(zsw1 := Status(old(stw1), old(nsoll)).0, nist := Status(old(stw1), old(nsoll)).1)
    {
      var on := stw1 % 2 == 1;
      var en := stw1 / 8 % 2 == 1;
      var sp := stw1 / 64 % 2 == 1;
      if on && en && sp {
        zsw1, nist := 0x0F37, nsoll;
      } else if on {
        zsw1, nist := 0x0F31, 0;
      } else {
        zsw1, nist := 0x0F21, 0;
      }
    }

    // _pkt_thread on one frame; DCP frames do not touch the drive's words
    method PacketReceived(buf: bytes)
      modifies this`stw1, this`nsoll, this`zsw1, this`nist
      ensures Drive() == DriveReceives(old(Drive()), state == Cyclic, outFid, buf)
    {
      if |buf| < 16 || buf[12] != 0x88 || buf[13] != 0x92 {
        return;
      }
      var fid := GetBe16(buf, 14);
      if fid != FID_DCP_IDENTIFY && fid != FID_DCP_SET && state == Cyclic && fid == outFid {
        CyclicRx(buf);
      }
    }

    method CyclicRx(buf: bytes)
      modifies this`stw1, this`nsoll, this`zsw1, this`nist
      ensures Drive() == DriveTakes(old(Drive()), buf)
      ensures |buf| >= 22 && buf[16] >= 0x80 ==>
                && stw1 == buf[17] + buf[18] as int * 256 && nsoll == buf[19] + buf[20] as int * 256
                && (if autoSim then (zsw1, nist) == Status(stw1, nsoll) else zsw1 == old(zsw1) && nist == old(nist))
      ensures |buf| < 22 || buf[16] < 0x80 ==> Drive() == old(Drive())
    {
      if |buf| < 22 || buf[16] < 0x80 {
        return;
      }
      stw1 := buf[17] + buf[18] as int * 0x100;
      nsoll := buf[19] + buf[20] as int * 0x100;
      if autoSim {
        ComputeProfidrive();
      }
    }

    // One turn of the cyclic thread
    method BuildInputFrame(cc: u16) returns (f: array<byte>)
      ensures fresh(f) && f[..] == InputFrame(ctrlMac, localMac, inFid, zsw1, nist, cc)
    {
      hide Be16, Le16, InputFrame;
      f := new byte[60](_ => 0);
      ghost var d: bytes := [];
      assert f[..0] == [] + d;
      var pos;
      pos, d := Append(f, 0, ctrlMac, [], d);
      pos, d := Append(f, pos, localMac, [], d);
      pos, d := Append(f, pos, [0x88, 0x92], [], d);
      pos, d := Append(f, pos, Be16(inFid), [], d);
      pos, d := Append(f, pos, [0x80], [], d);
      pos, d := Append(f, pos, Le16(zsw1), [], d);
      pos, d := Append(f, pos, Le16(nist), [], d);
      pos, d := Append(f, pos, [0x80], [], d);
      pos, d := Append(f, pos, Be16(cc), [], d);
      pos, d := Append(f, pos, [0x35, 0], [], d);
      InputFrameIs(d, ctrlMac, localMac, inFid, zsw1, nist, cc);
      pos, d := Append(f, pos, Zeros(34), [], d);
      assert f[..] == f[..60] == d;
    }

    // ---------- connecting ----------

    method RpcConnect(buf: bytes) returns (replies: seq<bytes>)
      requires |buf| >= 24
      modifies this
      ensures (View(), replies) == OnConnect(old(View()), buf) && Drive() == old(Drive())
    {
      hide Visited, Note, NoteAll, ConnectResponse, Payload, Reset;
      var payload := Payload(buf);
      if |payload| < 4 {
        return [];
      }
      ResetParameters();
      WalkBlocks(payload);
      var r, n := BuildConnectResponse(buf[12..16]);
      state := Connected;
      replies := [r[..n]];
    }

    method ResetParameters()
      modifies this
      ensures View() == Reset(old(View())) && Drive() == old(Drive())
    {
      arUuid, sessionKey, outFid, inFid, refOut, refIn := NO_UUID, 0, 0, 0, 0, 0;
      sendClock, dataLength := 128, 4;
    }

    method WalkBlocks(payload: bytes)
      modifies this
      ensures View() == NoteAll(old(View()), Visited(payload, 0)) && Drive() == old(Drive())
    {
      var pos: nat := 0;
      while pos + 6 <= |payload|
        invariant NoteAll(View(), Visited(payload, pos)) == NoteAll(old(View()), Visited(payload, 0))
        invariant Drive() == old(Drive())
        decreases |payload| - pos
      {
        var stop, be := VisitBlock(payload, pos);
        if stop {
          break;
        }
        pos := be;
      }
    }

    method VisitBlock(payload: bytes, pos: nat) returns (stop: bool, be: nat)
      requires pos + 6 <= |payload|
      modifies this
      ensures Drive() == old(Drive())
      ensures stop ==> Visited(payload, pos) == [] && View() == old(View())
      ensures !stop ==> pos < be <= |payload|
                        && NoteAll(View(), Visited(payload, be)) == NoteAll(old(View()), Visited(payload, pos))
    {
      hide NoteAll, GetBe16, Visited;
      VisitStep(payload, pos);
      var blkType := GetBe16(payload, pos);
      var blkLen := GetBe16(payload, pos + 2);
      be := pos + 6 + blkLen;
      if blkLen == 0 || be > |payload| {
        return true, be;
      }
      var ds := pos + 4;
      ghost var b := RawBlock(blkType, payload[pos + 6..be]);
      NoteFirst(View(), b, Visited(payload, be));
      Fields(payload, pos, be);
      if blkType == 0x0101 && blkLen >= 28 {
        arUuid := payload[ds + 4..ds + 20];
        sessionKey := GetBe16(payload, ds + 20);
        ctrlMac := payload[ds + 22..ds + 28];
      } else if blkType == 0x0102 && blkLen >= 16 {
        var iocrType := GetBe16(payload, ds + 2);
        var iocrRef := GetBe16(payload, ds + 4);
        var dataLen := GetBe16(payload, ds + 12);
        var frameId := GetBe16(payload, ds + 14);
        var clock := GetBe16(payload, ds + 16);
        if iocrType == 1 {
          outFid, refOut, dataLength := frameId, iocrRef, dataLen;
          sendClock := if clock != 0 then clock else 128;
        } else if iocrType == 2 {
          inFid, refIn := frameId, iocrRef;
        }
      }
      stop := false;
    }

    // put_u16be for type and version, the body, then BlockLength patched in behind them
    method PutResBlock(r: array<byte>, rp0: nat, blockType: u16, body: bytes) returns (rp: nat)
      requires rp0 + 6 + |body| <= r.Length && |body| < 0xFFFE
      modifies r
      ensures rp == rp0 + 6 + |body| && r[..rp] == old(r[..rp0]) + ResBlock(blockType, body)
    {
      hide Be16;
      ghost var base := r[..rp0];
      PutU16Be(r, rp0, blockType);
      ghost var head := r[..rp0 + 2];
      PutBytes(r, rp0 + 4, [1, 0]);
      PutBytes(r, rp0 + 6, body);
      rp := rp0 + 6 + |body|;
      assert r[rp0 + 4..rp] == [1, 0] + body;
      assert r[..rp0 + 2] == head;
      ghost var tail := r[rp0 + 4..];
      PutU16Be(r, rp0 + 2, rp - rp0 - 4);
      assert r[..rp] == r[..rp0 + 4] + r[rp0 + 4..][..rp - rp0 - 4];
      assert tail[..rp - rp0 - 4] == [1, 0] + body;
      assert r[..rp] == base + Be16(blockType) + Be16(|body| + 2) + ([1, 0] + body);
    }

    method PutResBlocks(r: array<byte>, rp0: nat) returns (rp: nat)
      requires rp0 + 86 <= r.Length
      modifies r
      ensures rp == rp0 + 86 && r[..rp] == old(r[..rp0]) + ResBlock(BLK_AR_RES, ArResBody(View()))
                + ResBlock(BLK_IOCR_RES, IocrResBody(1, refOut, outFid))
                + ResBlock(BLK_IOCR_RES, IocrResBody(2, refIn, inFid))
                + ResBlock(BLK_ALARM_CR_RES, AlarmResBody()) + ResBlock(BLK_MOD_DIFF, ModDiffBody())
    {
      hide ResBlock, ArResBody, IocrResBody, AlarmResBody, ModDiffBody;
      rp := PutResBlock(r, rp0, BLK_AR_RES, ArResBody(View()));
      rp := PutResBlock(r, rp, BLK_IOCR_RES, IocrResBody(1, refOut, outFid));
      rp := PutResBlock(r, rp, BLK_IOCR_RES, IocrResBody(2, refIn, inFid));
      rp := PutResBlock(r, rp, BLK_ALARM_CR_RES, AlarmResBody());
      rp := PutResBlock(r, rp, BLK_MOD_DIFF, ModDiffBody());
    }

    method BuildConnectResponse(callId: bytes) returns (r: array<byte>, rp: nat)
      requires |callId| == 4
      ensures fresh(r) && rp <= r.Length && r[..rp] == ConnectResponse(View().(state := Connected), callId)
    {
      hide Hdr, ResBlock, ArResBody, IocrResBody, AlarmResBody, ModDiffBody, ConnectResponse;
      r := new byte[512](_ => 0);
      PutBytes(r, 0, Hdr(callId, OPNUM_CONNECT, 2, 0));
      PutBytes(r, 24, PN_OBJ_UUID);
      PutBytes(r, 40, Zeros(4));
      assert r[..44] == Hdr(callId, OPNUM_CONNECT, 2, 0) + PN_OBJ_UUID + Zeros(4);
      rp := PutResBlocks(r, 44);
      ghost var built := r[..rp];
      r[8], r[9] := rp % 0x100, rp / 0x100;
      ResponsePatched(View(), callId, built, r[..rp]);
    }

    // The reply to a DControl and, on ApplicationReady, the CControl behind it
    method RpcDControl(buf: bytes) returns (replies: seq<bytes>)
      requires |buf| >= 24
      modifies this`state, this`ccid
      ensures (View(), replies) == OnDControl(old(View()), buf) && Drive() == old(Drive())
    {
      hide DControlResponse, CControlRequest;
      if |buf| < RPC_OFF_PAYLOAD + 22 {
        return [];
      }
      var command := GetBe16(buf, RPC_OFF_PAYLOAD + 20);
      ghost var d := View();
      var reply := BuildDControlResponse(buf[12..16], command);
      if command / 4 % 2 == 0 {
        return [reply];
      }
      state := Cyclic;
      ccid := (ccid + 1) % 0x1_0000_0000;
      var request := BuildCControl();
      replies := [reply, request];
    }

    method BuildDControlResponse(callId: bytes, command: u16) returns (reply: bytes)
      requires |callId| == 4
      ensures reply == DControlResponse(View(), callId, command)
    {
      hide Hdr, Be16, DControlResponse;
      var r := new byte[256](_ => 0);
      PutBytes(r, 0, Hdr(callId, OPNUM_DCONTROL, 2, 0));
      ghost var base, d := r[..24], [];
      assert base + [] == base;
      var rp;
      rp, d := Append(r, 24, PN_OBJ_UUID, base, d);
      rp, d := Append(r, rp, Zeros(4), base, d);
      rp, d := Append16(r, rp, 0x8110, base, d);
      rp, d := Append16(r, rp, 28, base, d);
      rp, d := Append(r, rp, [1, 0], base, d);
      rp, d := Append(r, rp, [0, 0], base, d);
      rp, d := Append(r, rp, arUuid, base, d);
      rp, d := Append16(r, rp, sessionKey, base, d);
      rp, d := Append(r, rp, [0, 0], base, d);
      rp, d := Append16(r, rp, command, base, d);
      rp, d := Append16(r, rp, 0, base, d);
      ghost var built := r[..rp];
      r[8], r[9] := rp % 0x100, rp / 0x100;
      FragPatched(callId, OPNUM_DCONTROL, 2, built, r[..rp], rp);
      assert built[24..] == d;
      DControlIs(View(), callId, command, d);
      reply := r[..rp];
    }

    method BuildCControl() returns (request: bytes)
      ensures request == CControlRequest(View())
    {
      hide Hdr, Be16, Le32;
      var cc := new byte[64](_ => 0);
      PutBytes(cc, 0, Hdr(Le32(ccid), OPNUM_CCONTROL, 0, 0));
      PutBytes(cc, 24, Zeros(16));
      assert cc[24..40] == Zeros(16);
      ghost var base, d := cc[..40], [];
      assert base + [] == base;
      var cp;
      cp, d := Append(cc, 40, arUuid, base, d);
      cp, d := Append16(cc, cp, sessionKey, base, d);
      cp, d := Append16(cc, cp, 0x0000, base, d);
      cp, d := Append16(cc, cp, 0x0004, base, d);
      cp, d := Append16(cc, cp, 0x0000, base, d);
      ghost var built := cc[..cp];
      cc[8], cc[9] := cp % 0x100, cp / 0x100;
      FragPatched(Le32(ccid), OPNUM_CCONTROL, 0, built, cc[..cp], cp);
      CControlIs(View(), built, d);
      request := cc[..cp];
    }
  }

  lemma VisitStep(s: bytes, pos: nat)
    requires pos + 6 <= |s|
    ensures var be := pos + 6 + GetBe16(s, pos + 2);
            Visited(s, pos) == if be == pos + 6 || be > |s| then []
                               else [RawBlock(GetBe16(s, pos), s[pos + 6..be])] + Visited(s, be)
  {
  }

  lemma DControlIs(dev: Device, callId: bytes, command: u16, d: bytes)
    requires |callId| == 4
    requires d == [] + PN_OBJ_UUID + Zeros(4) + Be16(0x8110) + Be16(28) + [1, 0] + [0, 0] + dev.arUuid
                  + Be16(dev.sessionKey) + [0, 0] + Be16(command) + Be16(0)
    ensures Hdr(callId, OPNUM_DCONTROL, 2, 76) + d == DControlResponse(dev, callId, command)
  {
    hide Hdr, Be16;
    var h := Hdr(callId, OPNUM_DCONTROL, 2, 76);
    var p1 := PN_OBJ_UUID + Zeros(4) + Be16(0x8110) + Be16(28) + [1, 0];
    var p2 := [0, 0] + dev.arUuid + Be16(dev.sessionKey) + [0, 0] + Be16(command) + Be16(0);
    assert d == p1 + p2;
    Assoc(h, p1, p2);
    assert h + p1 == h + PN_OBJ_UUID + Zeros(4) + Be16(0x8110) + Be16(28) + [1, 0];
  }

  lemma CControlIs(dev: Device, built: bytes, d: bytes)
    requires |built| == 64 && built[..24] == Hdr(Le32(dev.ccid), OPNUM_CCONTROL, 0, 0)
    requires built[24..40] == Zeros(16) && built == built[..40] + d
    requires d == [] + dev.arUuid + Be16(dev.sessionKey) + Be16(0) + Be16(4) + Be16(0)
    ensures Hdr(Le32(dev.ccid), OPNUM_CCONTROL, 0, 64) + built[24..] == CControlRequest(dev)
  {
    hide Hdr, Be16, Le32;
    assert [] + dev.arUuid == dev.arUuid;
    assert d == ControlPayload(dev.arUuid, dev.sessionKey, 4);
    assert built[24..] == Zeros(16) + d;
    Assoc(Hdr(Le32(dev.ccid), OPNUM_CCONTROL, 0, 64), Zeros(16), d);
  }

  // Storing the total length at offset 8 turns the buffer into the response.
  lemma ResponsePatched(d: Device, callId: bytes, was: bytes, now: bytes)
    requires |callId| == 4 && |now| == |was| == CONNECT_RES_LENGTH
    requires was == Hdr(callId, OPNUM_CONNECT, 2, 0) + PN_OBJ_UUID + Zeros(4) + ResBlock(BLK_AR_RES, ArResBody(d))
                + ResBlock(BLK_IOCR_RES, IocrResBody(1, d.refOut, d.outFid))
                + ResBlock(BLK_IOCR_RES, IocrResBody(2, d.refIn, d.inFid))
                + ResBlock(BLK_ALARM_CR_RES, AlarmResBody()) + ResBlock(BLK_MOD_DIFF, ModDiffBody())
    requires now[8] == CONNECT_RES_LENGTH % 0x100 && now[9] == CONNECT_RES_LENGTH / 0x100
    requires forall i | 0 <= i < |was| && i != 8 && i != 9 :: now[i] == was[i]
    ensures now == ConnectResponse(d.(state := Connected), callId)
  {
    hide Hdr, ResBlock, ArResBody, IocrResBody, AlarmResBody, ModDiffBody;
    assert was[..24] == Hdr(callId, OPNUM_CONNECT, 2, 0);
    FragPatched(callId, OPNUM_CONNECT, 2, was, now, CONNECT_RES_LENGTH);
    ArResSame(d);
    var h := Hdr(callId, OPNUM_CONNECT, 2, CONNECT_RES_LENGTH);
    var rest := was[24..];
    assert h + rest == ConnectResponse(d.(state := Connected), callId);
  }

  lemma NoteFirst(d: Device, b: RawBlock, rest: seq<RawBlock>)
    ensures NoteAll(d, [b] + rest) == NoteAll(Note(d, b), rest)
  {
    assert ([b] + rest)[1..] == rest;
  }

  lemma ArResSame(d: Device)
    ensures ArResBody(d) == ArResBody(d.(state := Connected))
  {
  }

  lemma FragPatched(callId: bytes, opnum: u16, pktType: byte, was: bytes, now: bytes, n: u16)
    requires |callId| == 4 && 24 <= |was| == |now| && was[..24] == Hdr(callId, opnum, pktType, 0)
    requires now[8] == n % 0x100 && now[9] == n / 0x100
    requires forall i | 0 <= i < |was| && i != 8 && i != 9 :: now[i] == was[i]
    ensures now == Hdr(callId, opnum, pktType, n) + was[24..]
  {
    var a, b := Hdr(callId, opnum, pktType, 0), Hdr(callId, opnum, pktType, n);
    assert forall i | 0 <= i < 24 :: a[i] == was[i];
    assert a[..8] == b[..8] && a[10..] == b[10..];
    assert forall i | 10 <= i < 24 :: a[i] == a[10..][i - 10] == b[10..][i - 10] == b[i];
    assert forall i | 0 <= i < 8 :: a[i] == a[..8][i] == b[..8][i] == b[i];
  }

  // The walker's absolute offsets are the body's.
  lemma Fields(payload: bytes, pos: nat, be: nat)
    requires pos + 6 <= be <= |payload|
    ensures var body := payload[pos + 6..be];
            && (|body| >= 28 ==> body[2..18] == payload[pos + 8..pos + 24]
                                 && GetBe16(body, 18) == GetBe16(payload, pos + 24)
                                 && body[20..26] == payload[pos + 26..pos + 32])
            && (|body| >= 16 ==> && GetBe16(body, 0) == GetBe16(payload, pos + 6)
                                 && GetBe16(body, 2) == GetBe16(payload, pos + 8)
                                 && GetBe16(body, 10) == GetBe16(payload, pos + 16)
                                 && GetBe16(body, 12) == GetBe16(payload, pos + 18)
                                 && GetBe16(body, 14) == GetBe16(payload, pos + 20))
  {
    var body := payload[pos + 6..be];
    if |body| >= 28 {
      SubSlice(payload, pos + 6, be, 2, 18);
      SubSlice(payload, pos + 6, be, 20, 26);
    }
  }
}
