// The connect attempt: rpc_cm_connect against the simulated device over a network that loses,
// reorders and duplicates datagrams. Datagrams are byte strings.
module Handshake {
  import opened Bytes
  import opened RpcRequest
  import opened VfdSim

  // ---------- the controller's walk over a ConnectResponse ----------

  datatype Ids = Ids(outFid: u16, inFid: u16)

  // The block at p carries a frame ID: IOCRBlockRes with at least the six bytes up to it
  predicate HasFrameId(buf: bytes, p: nat)
    requires p + 4 <= |buf|
  {
    GetBe16(buf, p) == BLK_IOCR_RES && GetBe16(buf, p + 2) >= 6
  }

  // What the block at p of the receive buffer changes. The buffer holds the datagram in its
  // first rlen bytes and anything behind it.
  function NoteIds(buf: bytes, p: nat, ids: Ids): Ids
    requires p + 4 <= |buf| && (HasFrameId(buf, p) ==> p + 12 <= |buf|)
  {
    if HasFrameId(buf, p) then
      if GetBe16(buf, p + 6) == IOCR_TYPE_OUTPUT then ids.(outFid := GetBe16(buf, p + 10))
      else if GetBe16(buf, p + 6) == IOCR_TYPE_INPUT then ids.(inFid := GetBe16(buf, p + 10))
      else ids
    else ids
  }

  // Blocks of another type or shorter than six bytes name no frame ID, nor does an IOCR of another
  // direction; the next block starts behind the length, at an even distance.
  lemma FrameIdTable(buf: bytes, p: nat, ids: Ids)
    requires p + 12 <= |buf|
    ensures GetBe16(buf, p) != 0x8102 || GetBe16(buf, p + 2) < 6 || GetBe16(buf, p + 6) !in {1, 2} ==>
              NoteIds(buf, p, ids) == ids
    ensures GetBe16(buf, p) == 0x8102 && GetBe16(buf, p + 2) >= 6 && GetBe16(buf, p + 6) == 1 ==>
              NoteIds(buf, p, ids) == Ids(GetBe16(buf, p + 10), ids.inFid)
    ensures GetBe16(buf, p) == 0x8102 && GetBe16(buf, p + 2) >= 6 && GetBe16(buf, p + 6) == 2 ==>
              NoteIds(buf, p, ids) == Ids(ids.outFid, GetBe16(buf, p + 10))
    ensures NextBlock(buf, p) - p - 4 - GetBe16(buf, p + 2) in {0, 1} && (NextBlock(buf, p) - p) % 2 == 0
  {
    hide GetBe16;
  }

  function NextBlock(buf: bytes, p: nat): (next: nat)
    requires p + 4 <= |buf|
    ensures p + 4 <= next
  {
    var blen := GetBe16(buf, p + 2);
    p + 4 + blen + blen % 2
  }

  // None when the walk reads a frame ID that lies behind the buffer
  function WalkIds(buf: bytes, rlen: nat, p: nat, ids: Ids): Option<Ids>
    requires rlen <= |buf|
    decreases rlen - p
  {
    if p + 6 > rlen then Some(ids)
    else if HasFrameId(buf, p) && p + 12 > |buf| then None
    else WalkIds(buf, rlen, NextBlock(buf, p), NoteIds(buf, p, ids))
  }

  // The positions of the blocks from p on
  function Stops(buf: bytes, rlen: nat, p: nat): seq<nat>
    requires rlen <= |buf|
    decreases rlen - p
  {
    if p + 6 > rlen then [] else [p] + Stops(buf, rlen, NextBlock(buf, p))
  }

  // The walk reads past its buffer iff some block with a frame ID starts in the buffer's last
  // twelve bytes, so never on a datagram that leaves six bytes of the buffer free.
  lemma {:induction false} OverReadIff(buf: bytes, rlen: nat, p: nat, ids: Ids)
    requires rlen <= |buf|
    ensures forall q | q in Stops(buf, rlen, p) :: p <= q && q + 6 <= rlen
    ensures WalkIds(buf, rlen, p, ids) == None
            <==> exists q :: q in Stops(buf, rlen, p) && q + 6 <= |buf| < q + 12 && HasFrameId(buf, q)
    ensures rlen + 6 <= |buf| ==> WalkIds(buf, rlen, p, ids).Some?
    decreases rlen - p
  {
    hide HasFrameId, NextBlock, NoteIds;
    if p + 6 <= rlen {
      var next := NextBlock(buf, p);
      assert Stops(buf, rlen, p) == [p] + Stops(buf, rlen, next);
      var noted := if HasFrameId(buf, p) && p + 12 > |buf| then ids else NoteIds(buf, p, ids);
      OverReadIff(buf, rlen, next, noted);
      if HasFrameId(buf, p) && p + 12 > |buf| {
        assert p in Stops(buf, rlen, p);
      } else {
        assert forall q | q in Stops(buf, rlen, p) :: q == p || q in Stops(buf, rlen, next);
      }
    }
  }

  // Blocks start at even positions, so a datagram of up to 2043 bytes is walked inside the buffer,
  // whatever it and the stale bytes behind it are.
  lemma {:induction false} StaysInside(buf: bytes, rlen: nat, p: nat, ids: Ids)
    requires |buf| == RPC_BUF_SIZE && rlen <= 2043 && p % 2 == 0
    ensures WalkIds(buf, rlen, p, ids).Some?
    decreases rlen - p
  {
    hide HasFrameId, NoteIds, GetBe16;
    if p + 6 <= rlen {
      assert p + 12 <= |buf|;
      StaysInside(buf, rlen, NextBlock(buf, p), NoteIds(buf, p, ids));
    }
  }

  // One empty-typed block that ends ten bytes before the buffer does, and a block with a frame ID
  const OVER_READ: bytes := Zeros(42) + Be16(1994) + Zeros(1994) + Be16(BLK_IOCR_RES) + Be16(6) + Zeros(6)

  // Received with 2044 to 2048 bytes, that datagram makes the walk read past its buffer.
  lemma OverReads(rlen: nat, ids: Ids)
    requires 2044 <= rlen <= RPC_BUF_SIZE
    ensures |OVER_READ| == RPC_BUF_SIZE && WalkIds(OVER_READ, rlen, RPC_OFF_PAYLOAD, ids) == None
  {
    hide GetBe16, Be16, Zeros;
    var b := OVER_READ;
    assert b[40..42] == Be16(0) && b[42..44] == Be16(1994) by { ZeroWord(); }
    assert b[2038..2040] == Be16(BLK_IOCR_RES) && b[2040..2042] == Be16(6);
    ReadsBack16(b, 40, 0); ReadsBack16(b, 42, 1994);
    ReadsBack16(b, 2038, BLK_IOCR_RES); ReadsBack16(b, 2040, 6);
    assert NextBlock(b, 40) == 2038;
  }

  lemma ZeroWord()
    ensures Be16(0) == [0, 0]
  {
  }

  // A datagram of rlen bytes is walked inside the buffer, whatever it holds, iff rlen <= 2043.
  lemma WalkInsideIff(rlen: nat)
    requires rlen <= RPC_BUF_SIZE
    ensures (forall buf: bytes, ids: Ids | |buf| == RPC_BUF_SIZE :: WalkIds(buf, rlen, RPC_OFF_PAYLOAD, ids).Some?)
            <==> rlen <= 2043
  {
    if rlen <= 2043 {
      forall buf: bytes, ids: Ids | |buf| == RPC_BUF_SIZE ensures WalkIds(buf, rlen, RPC_OFF_PAYLOAD, ids).Some? {
        StaysInside(buf, rlen, RPC_OFF_PAYLOAD, ids);
      }
    } else {
      OverReads(rlen, Ids(0, 0));
    }
  }

  // `inside` is false when the walk reads past the receive buffer.
  method ParseFrameIds(rxbuf: array<byte>, rlen: nat, out0: u16, in0: u16)
    returns (inside: bool, outFid: u16, inFid: u16)
    requires rlen <= rxbuf.Length
    ensures var r := WalkIds(rxbuf[..], rlen, RPC_OFF_PAYLOAD, Ids(out0, in0));
            && (inside <==> r.Some?)
            && (inside ==> r == Some(Ids(outFid, inFid)))
  {
    outFid, inFid := out0, in0;
    var p: nat := RPC_OFF_PAYLOAD;
    ghost var buf := rxbuf[..];
    while p + 6 <= rlen
      invariant WalkIds(buf, rlen, p, Ids(outFid, inFid)) == WalkIds(buf, rlen, RPC_OFF_PAYLOAD, Ids(out0, in0))
      decreases rlen - p
    {
      var btype := ReadBe16(rxbuf, p);
      var blen := ReadBe16(rxbuf, p + 2);
      if btype == BLK_IOCR_RES && blen >= 6 {
        if p + 12 > rxbuf.Length {
          return false, outFid, inFid;
        }
        var iocrType := ReadBe16(rxbuf, p + 6);
        var fid := ReadBe16(rxbuf, p + 10);
        if iocrType == IOCR_TYPE_OUTPUT {
          outFid := fid;
        } else if iocrType == IOCR_TYPE_INPUT {
          inFid := fid;
        }
      }
      var next := p + 4 + blen;
      p := next + blen % 2;
    }
    inside := true;
  }

  method ReadBe16(buf: array<byte>, off: nat) returns (v: u16)
    requires off + 2 <= buf.Length
    ensures v == GetBe16(buf[..], off)
  {
    v := buf[off] as int * 0x100 + buf[off + 1];
  }

  lemma ResHead(buf: bytes, at: nat, blockType: u16, body: bytes)
    requires 4 <= |body| < 0xFFFE && at + 6 + |body| <= |buf|
    requires buf[at..at + 6 + |body|] == ResBlock(blockType, body)
    ensures GetBe16(buf, at) == blockType && GetBe16(buf, at + 2) == |body| + 2
    ensures GetBe16(buf, at + 6) == GetBe16(body, 0)
    ensures |body| >= 6 ==> GetBe16(buf, at + 10) == GetBe16(body, 4)
  {
    var part := ResBlock(blockType, body);
    assert part[0..2] == Be16(blockType) && part[2..4] == Be16(|body| + 2) && part[6..] == body;
    ReadsBack16(part, 0, blockType);
    ReadsBack16(part, 2, |body| + 2);
    ReadIn(buf, at, part, 0); ReadIn(buf, at, part, 2); ReadIn(buf, at, part, 6);
    if |body| >= 6 { ReadIn(buf, at, part, 10); }
  }

  lemma IocrResFields(iocrType: u16, ref: u16, fid: u16)
    ensures GetBe16(IocrResBody(iocrType, ref, fid), 0) == iocrType
    ensures GetBe16(IocrResBody(iocrType, ref, fid), 4) == fid
  {
    var b := IocrResBody(iocrType, ref, fid);
    assert b[0..2] == Be16(iocrType) && b[4..6] == Be16(fid);
    ReadsBack16(b, 0, iocrType);
    ReadsBack16(b, 4, fid);
  }

  lemma ResponseHeads(d: Device, callId: bytes, buf: bytes)
    requires |callId| == 4 && CONNECT_RES_LENGTH <= |buf|
    requires buf[..CONNECT_RES_LENGTH] == ConnectResponse(d, callId)
    ensures GetBe16(buf, 40) == 0 && GetBe16(buf, 42) == 0
    ensures GetBe16(buf, 44) == BLK_AR_RES && GetBe16(buf, 46) == 32
    ensures GetBe16(buf, 80) == BLK_IOCR_RES && GetBe16(buf, 82) == 8
    ensures GetBe16(buf, 86) == 1 && GetBe16(buf, 90) == d.outFid
    ensures GetBe16(buf, 92) == BLK_IOCR_RES && GetBe16(buf, 94) == 8
    ensures GetBe16(buf, 98) == 2 && GetBe16(buf, 102) == d.inFid
    ensures GetBe16(buf, 104) == BLK_ALARM_CR_RES && GetBe16(buf, 106) == 8
    ensures GetBe16(buf, 116) == BLK_MOD_DIFF && GetBe16(buf, 118) == 10
  {
    hide ConnectResponse, ResBlock, ArResBody, IocrResBody, AlarmResBody, ModDiffBody, GetBe16;
    ResponseBlocks(d, callId);
    forall i: nat, j: nat | i <= j <= 130 ensures buf[i..j] == ConnectResponse(d, callId)[i..j] {
      SubSlice(buf, 0, 130, i, j);
    }
    ReadIn(buf, 40, Zeros(4), 0); ReadIn(buf, 40, Zeros(4), 2);
    ZeroWords();
    ResHead(buf, 44, BLK_AR_RES, ArResBody(d));
    ResHead(buf, 80, BLK_IOCR_RES, IocrResBody(1, d.refOut, d.outFid));
    ResHead(buf, 92, BLK_IOCR_RES, IocrResBody(2, d.refIn, d.inFid));
    ResHead(buf, 104, BLK_ALARM_CR_RES, AlarmResBody());
    ResHead(buf, 116, BLK_MOD_DIFF, ModDiffBody());
    IocrResFields(1, d.refOut, d.outFid);
    IocrResFields(2, d.refIn, d.inFid);
  }

  lemma ZeroWords()
    ensures GetBe16(Zeros(4), 0) == 0 && GetBe16(Zeros(4), 2) == 0
  {
  }

  // The status counts as one empty block, each response block is visited once, and the frame IDs
  // become exactly those the device stored, whatever lies behind the datagram in the buffer.
  lemma ResponseUnderstood(d: Device, callId: bytes, buf: bytes, ids: Ids)
    requires |callId| == 4 && CONNECT_RES_LENGTH <= |buf|
    requires buf[..CONNECT_RES_LENGTH] == ConnectResponse(d, callId)
    ensures Stops(buf, CONNECT_RES_LENGTH, RPC_OFF_PAYLOAD) == [40, 44, 80, 92, 104, 116]
    ensures WalkIds(buf, CONNECT_RES_LENGTH, RPC_OFF_PAYLOAD, ids) == Some(Ids(d.outFid, d.inFid))
  {
    hide ConnectResponse, GetBe16;
    ResponseHeads(d, callId, buf);
    assert Stops(buf, 130, 130) == [];
    assert Stops(buf, 130, 116) == [116];
    assert Stops(buf, 130, 104) == [104, 116];
    assert Stops(buf, 130, 92) == [92, 104, 116];
    assert Stops(buf, 130, 80) == [80, 92, 104, 116];
    assert Stops(buf, 130, 44) == [44, 80, 92, 104, 116];
    var done := Ids(d.outFid, d.inFid);
    assert WalkIds(buf, 130, 104, done) == WalkIds(buf, 130, 116, done) == WalkIds(buf, 130, 130, done) == Some(done);
    assert WalkIds(buf, 130, 92, ids.(outFid := d.outFid)) == Some(done);
    assert WalkIds(buf, 130, 80, ids) == Some(done);
    assert WalkIds(buf, 130, 44, ids) == Some(done);
  }

  // ---------- the run ----------

  datatype Pc = Start | AwaitConnect | AwaitWrite | AwaitReady | Finished(ok: bool)

  datatype State = State(pc: Pc, ctrl: Controller, dev: Device, toDev: seq<bytes>, toCtrl: seq<bytes>)

  datatype Event =
    | Send                          // build and send the ConnectRequest
    | Receive(i: nat, behind: bytes) // the controller's recv returns datagram i; `behind` is stale buffer
    | RecvTimeout                   // the controller's recv times out
    | Deadline                      // the ten seconds of the last wait are over
    | DeviceReceives(i: nat)
    | LoseToDevice(i: nat) | LoseToController(i: nat)
    | DuplicateToDevice(i: nat) | DuplicateToController(i: nat)

  function Without(net: seq<bytes>, i: nat): seq<bytes>
    requires i < |net|
  {
    net[..i] + net[i + 1..]
  }

  ghost predicate Init(s: State)
  {
    && s.pc == Start && s.dev.state == Listening && s.toDev == [] && s.toCtrl == []
    && s.ctrl.NameFits()
  }

  ghost predicate Enabled(s: State, e: Event)
  {
    match e
    case Send => s.pc == Start && s.ctrl.NameFits()
    case Receive(i, behind) =>
      i < |s.toCtrl| && |s.toCtrl[i]| + |behind| == RPC_BUF_SIZE && !s.pc.Finished? && s.pc != Start
    case RecvTimeout => s.pc == AwaitConnect || s.pc == AwaitWrite || s.pc == AwaitReady
    case Deadline => s.pc == AwaitReady
    case DeviceReceives(i) => i < |s.toDev|
    case LoseToDevice(i) => i < |s.toDev|
    case LoseToController(i) => i < |s.toCtrl|
    case DuplicateToDevice(i) => i < |s.toDev|
    case DuplicateToController(i) => i < |s.toCtrl|
  }

  // Only datagrams to the device with one of these operation numbers are ever duplicated.
  ghost predicate Permitted(dup: set<u16>, s: State, e: Event)
  {
    e.DuplicateToDevice? && e.i < |s.toDev| ==> |s.toDev[e.i]| >= 24 && GetLe16(s.toDev[e.i], 22) in dup
  }

  // rpc_cm_connect after its recv in the ConnectResponse wait. An attempt that reads past its
  // buffer counts as failed; no response of the device makes it.
  function OnConnectResponse(s: State, b: bytes, behind: bytes): State
  {
    if |b| < RPC_OFF_PAYLOAD || b[1] == RPC_PTYPE_FAULT then s.(pc := Finished(false))
    else
      var ids := WalkIds(b + behind, |b|, RPC_OFF_PAYLOAD, Ids(s.ctrl.outFid, s.ctrl.inFid));
      if ids.None? then s.(pc := Finished(false))
      else
        var c := s.ctrl.(outFid := ids.value.outFid, inFid := ids.value.inFid);
        s.(pc := AwaitWrite, ctrl := c, toDev := s.toDev + [WriteRequest(c)])
  }

  // The wait after the write takes any datagram or a timeout.
  function AfterWrite(s: State): State
  {
    s.(pc := AwaitReady, toDev := s.toDev + [DControlRequest(s.ctrl)])
  }

  // One datagram in the wait for the device's CControl
  function OnWhileWaiting(s: State, b: bytes): State
  {
    if |b| < RPC_OFF_PAYLOAD || GetLe16(b, 22) != OPNUM_CCONTROL then s
    else
      var ready := |b| >= RPC_OFF_PAYLOAD + 22 && AppReady(GetBe16(b, RPC_OFF_PAYLOAD + 20));
      s.(pc := if ready then Finished(true) else AwaitReady,
         toDev := s.toDev + [CControlResponse(s.ctrl, GetLe32(b, 12))])
  }

  ghost function Next(s: State, e: Event): State
    requires Enabled(s, e)
  {
    match e
    case Send =>
      var c := s.ctrl.(sessionKey := 1,
                       outFid := if s.ctrl.outFid == 0 then 0xC000 else s.ctrl.outFid,
                       inFid := if s.ctrl.inFid == 0 then 0xC001 else s.ctrl.inFid);
      s.(pc := AwaitConnect, ctrl := c, toDev := s.toDev + [ConnectRequest(c)])
    case Receive(i, behind) =>
      var b, t := s.toCtrl[i], s.(toCtrl := Without(s.toCtrl, i));
      if s.pc == AwaitConnect then OnConnectResponse(t, b, behind)
      else if s.pc == AwaitWrite then AfterWrite(t)
      else OnWhileWaiting(t, b)
    case RecvTimeout =>
      if s.pc == AwaitConnect then s.(pc := Finished(false))
      else if s.pc == AwaitWrite then AfterWrite(s)
      else s
    case Deadline => s.(pc := Finished(false))
    case DeviceReceives(i) =>
      var r := OnDatagram(s.dev, s.toDev[i]);
      s.(dev := r.0, toDev := Without(s.toDev, i), toCtrl := s.toCtrl + r.1)
    case LoseToDevice(i) => s.(toDev := Without(s.toDev, i))
    case LoseToController(i) => s.(toCtrl := Without(s.toCtrl, i))
    case DuplicateToDevice(i) => s.(toDev := s.toDev + [s.toDev[i]])
    case DuplicateToController(i) => s.(toCtrl := s.toCtrl + [s.toCtrl[i]])
  }

  ghost predicate Run(dup: set<u16>, states: seq<State>, events: seq<Event>)
  {
    && |states| == |events| + 1
    && Init(states[0])
    && forall k | 0 <= k < |events| ::
         Enabled(states[k], events[k]) && Permitted(dup, states[k], events[k])
         && states[k + 1] == Next(states[k], events[k])
  }

  // ---------- the invariant ----------

  // The device holds what the controller proposed.
  ghost predicate Agreed(c: Controller, d: Device)
  {
    && d.arUuid == c.arUuid && d.sessionKey == c.Key() && d.ctrlMac == c.localMac
    && d.outFid == c.outFid && d.inFid == c.inFid && d.sendClock == c.SendClock()
  }

  predicate IsRequest(b: bytes) { |b| >= 24 && GetLe16(b, 22) == OPNUM_CONNECT }

  predicate IsControl(b: bytes) { |b| >= 24 && GetLe16(b, 22) == OPNUM_DCONTROL }

  predicate IsCControl(b: bytes) { |b| >= 24 && GetLe16(b, 22) == OPNUM_CCONTROL }

  // A datagram on its way to the device: the one ConnectRequest, a DControl only once the
  // handshake is in its last wait, or one that does not change the device.
  ghost predicate ToDevOk(s: State, b: bytes)
  {
    && |b| >= 24
    && (IsRequest(b) ==> s.ctrl.NameFits() && b == ConnectRequest(s.ctrl))
    && (!IsRequest(b) ==> s.dev.state != Listening && s.pc != AwaitConnect)
    && (IsControl(b) ==> s.pc == AwaitReady || s.pc.Finished?)
    && GetLe16(b, 22) != 1
  }

  ghost predicate RequestPending(s: State) { exists i :: 0 <= i < |s.toDev| && IsRequest(s.toDev[i]) }

  // A datagram on its way to the controller: before the response arrived it is the response, and
  // a CControl exists only once the device is cyclic.
  ghost predicate ToCtrlOk(s: State, b: bytes)
  {
    && (s.pc == AwaitConnect ==> exists callId :: |callId| == 4 && b == ConnectResponse(s.dev, callId))
    && (IsCControl(b) ==> s.dev.state == Cyclic)
  }

  ghost predicate Inv(s: State)
  {
    && (s.pc == Start ==> Init(s))
    && (forall i | 0 <= i < |s.toDev| :: ToDevOk(s, s.toDev[i]))
    && (forall i, j | 0 <= i < j < |s.toDev| :: !(IsRequest(s.toDev[i]) && IsRequest(s.toDev[j])))
    && (forall i | 0 <= i < |s.toCtrl| :: ToCtrlOk(s, s.toCtrl[i]))
    // the device leaves LISTENING only by taking the request, and then it holds the proposal
    && (RequestPending(s) ==> s.dev.state == Listening)
    && (s.dev.state != Listening ==> Agreed(s.ctrl, s.dev))
    && (s.dev.state == Listening ==>
          s.toCtrl == [] && (s.pc == Start || s.pc == AwaitConnect || s.pc == Finished(false)))
    && (s.pc == AwaitConnect ==> s.dev.state != Cyclic)
    && (s.pc == Finished(true) ==> s.dev.state == Cyclic)
  }

  // ---------- what the datagrams are ----------

  lemma RequestIs(c: Controller)
    requires c.NameFits()
    ensures IsRequest(ConnectRequest(c)) && |ConnectRequest(c)| >= 44
    ensures Payload(ConnectRequest(c)) == BlocksBytes(ConnectBlocks(c))
  {
    hide BlocksBytes, ConnectBlocks, Datagram, GetLe16;
    ConnectPayloadLength(c);
    OpnumOf(RPC_PTYPE_REQUEST, OPNUM_CONNECT, 1, PNIO_CM_IF_UUID, true, BlocksBytes(ConnectBlocks(c)));
  }

  lemma OthersAre(c: Controller, callId: u32)
    ensures GetLe16(WriteRequest(c), 22) == OPNUM_WRITE && |WriteRequest(c)| >= 24
    ensures GetLe16(DControlRequest(c), 22) == OPNUM_DCONTROL && |DControlRequest(c)| >= 24
    ensures GetLe16(CControlResponse(c, callId), 22) == OPNUM_CCONTROL && |CControlResponse(c, callId)| >= 24
  {
    hide Datagram, GetLe16, WritePayload, ControlPayload;
    OpnumOf(RPC_PTYPE_REQUEST, OPNUM_WRITE, 2, c.activityUuid, true, WritePayload(c));
    OpnumOf(RPC_PTYPE_REQUEST, OPNUM_DCONTROL, 3, c.activityUuid, true, ControlPayload(c.arUuid, c.Key(), 4));
    OpnumOf(RPC_PTYPE_RESPONSE, OPNUM_CCONTROL, callId, c.activityUuid, false, ControlPayload(c.arUuid, c.Key(), 0));
  }

  lemma HdrOpnum(callId: bytes, opnum: u16, pktType: byte, n: u16, s: bytes)
    requires |callId| == 4 && |s| >= 24 && s[..24] == Hdr(callId, opnum, pktType, n)
    ensures GetLe16(s, 22) == opnum && s[1] == 0
  {
    var h := Hdr(callId, opnum, pktType, n);
    assert h[22..24] == Le16(opnum) && h[1] == 0;
    SubSlice(s, 0, 24, 22, 24);
    ReadsBack16(s, 22, opnum);
    assert s[1] == s[..24][1];
  }

  // The controller reads the packet type at offset 1, where the device leaves 0: it takes every
  // datagram of the device for a request and never sees a response or a fault.
  lemma RepliesAre(d: Device, callId: bytes, command: u16)
    requires |callId| == 4
    ensures GetLe16(ConnectResponse(d, callId), 22) == OPNUM_CONNECT
            && ConnectResponse(d, callId)[1] == RPC_PTYPE_REQUEST
    ensures GetLe16(WriteResponse(callId), 22) == OPNUM_WRITE && WriteResponse(callId)[1] == RPC_PTYPE_REQUEST
    ensures GetLe16(DControlResponse(d, callId, command), 22) == OPNUM_DCONTROL
            && DControlResponse(d, callId, command)[1] == RPC_PTYPE_REQUEST
    ensures GetLe16(CControlRequest(d), 22) == OPNUM_CCONTROL && CControlRequest(d)[1] == RPC_PTYPE_REQUEST
  {
    hide Hdr, GetLe16, ResBlock, ArResBody, IocrResBody, AlarmResBody, ModDiffBody, ControlPayload, Be16, Le32;
    HdrOpnum(callId, OPNUM_CONNECT, 2, CONNECT_RES_LENGTH, ConnectResponse(d, callId));
    HdrOpnum(callId, OPNUM_WRITE, 2, 108, WriteResponse(callId));
    HdrOpnum(callId, OPNUM_DCONTROL, 2, 76, DControlResponse(d, callId, command));
    HdrOpnum(Le32(d.ccid), OPNUM_CCONTROL, 0, 64, CControlRequest(d));
  }

  // The device on the ConnectRequest: everything proposed is stored and answered.
  lemma OnRequest(d: Device, c: Controller)
    requires c.NameFits()
    ensures var b := ConnectRequest(c);
            var n := Negotiated(d, c).(state := Connected);
            |b| >= 24 && OnDatagram(d, b) == (n, [ConnectResponse(n, b[12..16])])
    ensures Agreed(c, Negotiated(d, c).(state := Connected))
  {
    hide ConnectRequest, BlocksBytes, ConnectBlocks, Visited, NoteAll, ConnectResponse, Payload, GetLe16;
    RequestIs(c);
    RequestUnderstood(d, c);
    ConnectPayloadLength(c);
  }

  // The device on a datagram that is neither a ConnectRequest nor a Release
  lemma OnOther(d: Device, b: bytes)
    requires |b| >= 24 && GetLe16(b, 22) != OPNUM_CONNECT && GetLe16(b, 22) != 1
    ensures var r := OnDatagram(d, b);
            && r.0 == d.(state := r.0.state, ccid := r.0.ccid)
            && (r.0.state == d.state || (IsControl(b) && r.0.state == Cyclic))
            && (!IsControl(b) ==> r.0 == d)
            && forall k | 0 <= k < |r.1| :: IsCControl(r.1[k]) ==> r.0.state == Cyclic
  {
    hide WriteResponse, DControlResponse, CControlRequest, GetLe16, GetBe16;
    var r := OnDatagram(d, b);
    RepliesAre(r.0, b[12..16], if |b| >= 62 then GetBe16(b, 60) else 0);
    RepliesAre(d, b[12..16], if |b| >= 62 then GetBe16(b, 60) else 0);
  }

  // ---------- every step keeps the invariant ----------

  lemma WithoutMembers(net: seq<bytes>, i: nat)
    requires i < |net|
    ensures |Without(net, i)| == |net| - 1
    ensures forall k | 0 <= k < |net| - 1 :: Without(net, i)[k] == net[if k < i then k else k + 1]
  {
  }

  lemma KeepsSend(s: State)
    requires Inv(s) && Enabled(s, Send)
    ensures Inv(Next(s, Send))
  {
    hide ConnectRequest, GetLe16;
    RequestIs(Next(s, Send).ctrl);
  }

  lemma KeepsLoss(s: State, i: nat)
    requires Inv(s)
    ensures i < |s.toDev| ==> Inv(s.(toDev := Without(s.toDev, i)))
    ensures i < |s.toCtrl| ==> Inv(s.(toCtrl := Without(s.toCtrl, i)))
  {
    hide ConnectRequest, ConnectResponse, IsRequest, IsControl, IsCControl, GetLe16, Without;
    if i < |s.toDev| { WithoutMembers(s.toDev, i); }
    if i < |s.toCtrl| { WithoutMembers(s.toCtrl, i); }
  }

  lemma KeepsDuplicate(s: State, i: nat)
    requires Inv(s)
    ensures i < |s.toDev| && !IsRequest(s.toDev[i]) ==> Inv(s.(toDev := s.toDev + [s.toDev[i]]))
    ensures i < |s.toCtrl| ==> Inv(s.(toCtrl := s.toCtrl + [s.toCtrl[i]]))
  {
    hide ConnectRequest, ConnectResponse, IsRequest, IsControl, IsCControl, GetLe16;
    if i < |s.toDev| && !IsRequest(s.toDev[i]) {
      var t := s.(toDev := s.toDev + [s.toDev[i]]);
      assert ToDevOk(s, s.toDev[i]);
      forall k | 0 <= k < |t.toDev| ensures ToDevOk(t, t.toDev[k]) {
        assert ToDevOk(s, s.toDev[if k < |s.toDev| then k else i]);
      }
      assert RequestPending(t) ==> RequestPending(s);
    }
    if i < |s.toCtrl| {
      var t := s.(toCtrl := s.toCtrl + [s.toCtrl[i]]);
      forall k | 0 <= k < |t.toCtrl| ensures ToCtrlOk(t, t.toCtrl[k]) {
        assert ToCtrlOk(s, s.toCtrl[if k < |s.toCtrl| then k else i]);
      }
    }
  }

  // Once the response is in, the request is gone: no datagram on the way starts a new connect.
  lemma KeepsAppend(s: State, t: State, b: bytes)
    requires Inv(s) && s.dev.state != Listening && s.pc != Start
    requires t == s.(pc := t.pc, toDev := s.toDev + [b])
    requires |b| >= 24 && !IsRequest(b) && GetLe16(b, 22) != 1
    requires t.pc == AwaitWrite || t.pc == AwaitReady || t.pc.Finished?
    requires s.pc == AwaitReady || s.pc.Finished? ==> t.pc == AwaitReady || t.pc.Finished?
    requires IsControl(b) ==> t.pc == AwaitReady || t.pc.Finished?
    requires t.pc == Finished(true) ==> t.dev.state == Cyclic
    ensures Inv(t)
  {
    hide ConnectRequest, ConnectResponse, GetLe16;
    forall i | 0 <= i < |t.toDev| ensures ToDevOk(t, t.toDev[i]) {
      if i < |s.toDev| { assert ToDevOk(s, s.toDev[i]) && t.toDev[i] == s.toDev[i]; }
    }
    forall i, j | 0 <= i < j < |t.toDev| ensures !(IsRequest(t.toDev[i]) && IsRequest(t.toDev[j])) {
      if j < |s.toDev| { assert t.toDev[i] == s.toDev[i] && t.toDev[j] == s.toDev[j]; }
    }
  }

  lemma KeepsConnectResponse(s: State, b: bytes, behind: bytes)
    requires Inv(s) && s.pc == AwaitConnect && ToCtrlOk(s, b) && s.dev.state != Listening
    ensures Inv(OnConnectResponse(s, b, behind))
    ensures OnConnectResponse(s, b, behind).pc == AwaitWrite
    ensures OnConnectResponse(s, b, behind).ctrl == s.ctrl
  {
    hide ConnectRequest, WriteRequest, ConnectResponse, WalkIds, GetLe16;
    var callId :| |callId| == 4 && b == ConnectResponse(s.dev, callId);
    var buf := b + behind;
    assert buf[..CONNECT_RES_LENGTH] == b;
    ResponseUnderstood(s.dev, callId, buf, Ids(s.ctrl.outFid, s.ctrl.inFid));
    RepliesAre(s.dev, callId, 0);
    OthersAre(s.ctrl, 0);
    KeepsAppend(s, OnConnectResponse(s, b, behind), WriteRequest(s.ctrl));
  }

  lemma KeepsAfterWrite(s: State)
    requires Inv(s) && s.pc == AwaitWrite
    ensures Inv(AfterWrite(s))
  {
    hide ConnectRequest, DControlRequest, ConnectResponse, GetLe16;
    OthersAre(s.ctrl, 0);
    KeepsAppend(s, AfterWrite(s), DControlRequest(s.ctrl));
  }

  lemma KeepsWaiting(s: State, b: bytes)
    requires Inv(s) && s.pc == AwaitReady && ToCtrlOk(s, b)
    ensures Inv(OnWhileWaiting(s, b))
  {
    hide ConnectRequest, CControlResponse, ConnectResponse, GetLe16, GetBe16, GetLe32;
    if |b| >= RPC_OFF_PAYLOAD && GetLe16(b, 22) == OPNUM_CCONTROL {
      OthersAre(s.ctrl, GetLe32(b, 12));
      KeepsAppend(s, OnWhileWaiting(s, b), CControlResponse(s.ctrl, GetLe32(b, 12)));
    }
  }

  lemma KeepsGivingUp(s: State)
    requires Inv(s) && s.pc != Start
    ensures Inv(s.(pc := Finished(false)))
  {
    hide ConnectRequest, ConnectResponse, IsRequest, IsCControl, GetLe16;
    var t := s.(pc := Finished(false));
    forall i | 0 <= i < |t.toDev| ensures ToDevOk(t, t.toDev[i]) { assert ToDevOk(s, s.toDev[i]); }
    forall i | 0 <= i < |t.toCtrl| ensures ToCtrlOk(t, t.toCtrl[i]) { assert ToCtrlOk(s, s.toCtrl[i]); }
  }

  lemma KeepsReceive(s: State, i: nat, behind: bytes)
    requires Inv(s) && Enabled(s, Receive(i, behind))
    ensures Inv(Next(s, Receive(i, behind)))
  {
    hide ConnectRequest, ConnectResponse, OnConnectResponse, AfterWrite, OnWhileWaiting,
         IsRequest, IsControl, IsCControl;
    var t := s.(toCtrl := Without(s.toCtrl, i));
    KeepsLoss(s, i);
    assert ToCtrlOk(s, s.toCtrl[i]);
    assert s.dev.state != Listening;
    if s.pc == AwaitConnect {
      KeepsConnectResponse(t, s.toCtrl[i], behind);
    } else if s.pc == AwaitWrite {
      KeepsAfterWrite(t);
    } else {
      KeepsWaiting(t, s.toCtrl[i]);
    }
  }

  // Beside an undelivered ConnectRequest nothing is on its way to the device.
  lemma OtherRequest(s: State, i: nat)
    requires Inv(s) && i < |s.toDev| && IsRequest(s.toDev[i])
    ensures |s.toDev| == 1
  {
    hide ConnectRequest, ConnectResponse, IsRequest, IsControl, IsCControl, GetLe16;
    var k := if i == 0 then |s.toDev| - 1 else 0;
    assert ToDevOk(s, s.toDev[k]);
  }

  lemma KeepsDeviceRequest(s: State, i: nat)
    requires Inv(s) && i < |s.toDev| && IsRequest(s.toDev[i])
    ensures Inv(Next(s, DeviceReceives(i)))
  {
    hide ConnectRequest, ConnectResponse, OnDatagram, IsCControl, GetLe16;
    var t := Next(s, DeviceReceives(i));
    assert ToDevOk(s, s.toDev[i]);
    OnRequest(s.dev, s.ctrl);
    var b := s.toDev[i];
    WithoutMembers(s.toDev, i);
    RepliesAre(t.dev, b[12..16], 0);
    ResponseNoCControl(t.dev, b[12..16]);
    assert t.toCtrl == [ConnectResponse(t.dev, b[12..16])];
    OtherRequest(s, i);
    assert t.toDev == [];
  }

  lemma ResponseNoCControl(d: Device, callId: bytes)
    requires |callId| == 4
    ensures !IsCControl(ConnectResponse(d, callId))
  {
    hide ConnectResponse, GetLe16;
    RepliesAre(d, callId, 0);
  }

  lemma KeepsDeviceOther(s: State, i: nat)
    requires Inv(s) && i < |s.toDev| && !IsRequest(s.toDev[i])
    ensures Inv(Next(s, DeviceReceives(i)))
  {
    hide ConnectRequest, ConnectResponse, OnDatagram, GetLe16, Without;
    var t := Next(s, DeviceReceives(i));
    var b := s.toDev[i];
    assert ToDevOk(s, b);
    OnOther(s.dev, b);
    WithoutMembers(s.toDev, i);
    forall k | 0 <= k < |t.toDev| ensures ToDevOk(t, t.toDev[k]) {
      assert ToDevOk(s, s.toDev[if k < i then k else k + 1]);
    }
    forall k | 0 <= k < |t.toCtrl| ensures ToCtrlOk(t, t.toCtrl[k]) {
      if k < |s.toCtrl| { assert ToCtrlOk(s, s.toCtrl[k]); }
    }
  }

  // Every step keeps the invariant unless it duplicates the ConnectRequest.
  lemma InvKept(s: State, e: Event)
    requires Inv(s) && Enabled(s, e)
    requires e.DuplicateToDevice? ==> !IsRequest(s.toDev[e.i])
    ensures Inv(Next(s, e))
  {
    hide Inv, OnDatagram, Without;
    match e
    case Send => KeepsSend(s);
    case Receive(i, behind) => KeepsReceive(s, i, behind);
    case RecvTimeout =>
      if s.pc == AwaitConnect { KeepsGivingUp(s); }
      else if s.pc == AwaitWrite { KeepsAfterWrite(s); }
    case Deadline => KeepsGivingUp(s);
    case DeviceReceives(i) => if IsRequest(s.toDev[i]) { KeepsDeviceRequest(s, i); } else { KeepsDeviceOther(s, i); }
    case LoseToDevice(i) => KeepsLoss(s, i);
    case LoseToController(i) => KeepsLoss(s, i);
    case DuplicateToDevice(i) => KeepsDuplicate(s, i);
    case DuplicateToController(i) => KeepsDuplicate(s, i);
  }

  // ---------- agreement ----------

  // What the controller c0 proposes, defaults filled in
  function Proposal(c0: Controller): Controller
  {
    c0.(sessionKey := 1,
        outFid := if c0.outFid == 0 then 0xC000 else c0.outFid,
        inFid := if c0.inFid == 0 then 0xC001 else c0.inFid)
  }

  ghost predicate Proposed(c0: Controller, s: State)
  {
    s.ctrl == if s.pc == Start then c0 else Proposal(c0)
  }

  lemma ProposalKept(c0: Controller, s: State, e: Event)
    requires Inv(s) && Proposed(c0, s) && Enabled(s, e)
    ensures Proposed(c0, Next(s, e))
  {
    hide OnConnectResponse, OnDatagram, ConnectRequest, DControlRequest, CControlResponse,
         Without, ToDevOk, IsRequest, IsCControl, GetLe16;
    match e
    case Receive(i, behind) =>
      assert ToCtrlOk(s, s.toCtrl[i]);
      if s.pc == AwaitConnect {
        KeepsLoss(s, i);
        KeepsConnectResponse(s.(toCtrl := Without(s.toCtrl, i)), s.toCtrl[i], behind);
      }
    case _ =>
  }

  lemma RunInv(dup: set<u16>, states: seq<State>, events: seq<Event>, k: nat)
    requires Run(dup, states, events) && k < |states| && OPNUM_CONNECT !in dup
    ensures Inv(states[k]) && Proposed(states[0].ctrl, states[k])
  {
    if k > 0 {
      hide Next, Inv, Init, Proposed;
      RunInv(dup, states, events, k - 1);
      InvKept(states[k - 1], events[k - 1]);
      ProposalKept(states[0].ctrl, states[k - 1], events[k - 1]);
    }
  }

  // PN_OK means: the device is cyclic and holds the AR UUID, session key, MAC and both frame IDs
  // of the controller c0 the attempt began with, and the controller still uses the IDs it proposed.
  ghost predicate AgreedAtOk(c0: Controller, s: State)
  {
    var c, d := s.ctrl, s.dev;
    s.pc == Finished(true) ==>
      && c == c0.(sessionKey := 1, outFid := c.outFid, inFid := c.inFid)
      && c.outFid == (if c0.outFid == 0 then 0xC000 else c0.outFid)
      && c.inFid == (if c0.inFid == 0 then 0xC001 else c0.inFid)
      && d.state == Cyclic
      && d.arUuid == c0.arUuid && d.sessionKey == 1 && d.ctrlMac == c0.localMac
      && d.outFid == c.outFid && d.inFid == c.inFid
      && d.sendClock == (if c0.cfg.sendClock != 0 then c0.cfg.sendClock else 128)
  }

  // In every run of one connect attempt, with datagrams lost and reordered, and every datagram but
  // the ConnectRequest duplicated any number of times.
  lemma ConnectAgrees(dup: set<u16>, states: seq<State>, events: seq<Event>, k: nat)
    requires Run(dup, states, events) && k < |states| && OPNUM_CONNECT !in dup
    ensures AgreedAtOk(states[0].ctrl, states[k])
  {
    RunInv(dup, states, events, k);
  }

  ghost predicate AlwaysAgrees(dup: set<u16>, c: Controller, d: Device)
  {
    forall states: seq<State>, events: seq<Event>, k: nat |
      Run(dup, states, events) && states[0].ctrl == c && states[0].dev == d && k < |states| :: AgreedAtOk(c, states[k])
  }

  // ---------- a duplicated ConnectRequest ----------

  lemma CommandIn(b: bytes, uuid: Uuid, key: u16, command: u16)
    requires |b| >= 64 && b[40..64] == ControlPayload(uuid, key, command)
    ensures GetBe16(b, 60) == command
  {
    var p := ControlPayload(uuid, key, command);
    assert p[20..22] == Be16(command);
    SubSlice(b, 40, 64, 20, 22);
    ReadsBack16(b, 60, command);
  }

  // The device on ApplicationReady: cyclic, with a CControl of its own that reports ready.
  lemma OnReady(d: Device, c: Controller)
    ensures var b := DControlRequest(c);
            var n := d.(state := Cyclic, ccid := (d.ccid + 1) % 0x1_0000_0000);
            |b| == 64 && OnDatagram(d, b) == (n, [DControlResponse(d, b[12..16], 4), CControlRequest(n)])
  {
    hide DControlResponse, CControlRequest, GetLe16, GetBe16, Datagram, ControlPayload;
    var payload := ControlPayload(c.arUuid, c.Key(), 4);
    OthersAre(c, 0);
    OpnumOf(RPC_PTYPE_REQUEST, OPNUM_DCONTROL, 3, c.activityUuid, true, payload);
    CommandIn(DControlRequest(c), c.arUuid, c.Key(), 4);
  }

  lemma OnReadyReport(s: State, d: Device)
    requires s.pc == AwaitReady
    ensures OnWhileWaiting(s, CControlRequest(d)).pc == Finished(true)
    ensures OnWhileWaiting(s, CControlRequest(d)).dev == s.dev
  {
    hide Hdr, GetLe16, GetBe16, GetLe32, ControlPayload, CControlResponse;
    var b := CControlRequest(d);
    RepliesAre(d, Le32(d.ccid), 0);
    assert b[40..64] == ControlPayload(d.arUuid, d.sessionKey, 4);
    CommandIn(b, d.arUuid, d.sessionKey, 4);
  }

  lemma OnResponse(s: State, d: Device, callId: bytes, behind: bytes)
    requires |callId| == 4 && d.outFid == s.ctrl.outFid && d.inFid == s.ctrl.inFid
    ensures OnConnectResponse(s, ConnectResponse(d, callId), behind)
         == s.(pc := AwaitWrite, toDev := s.toDev + [WriteRequest(s.ctrl)])
  {
    hide ConnectResponse, WriteRequest, WalkIds, GetLe16;
    var b := ConnectResponse(d, callId);
    assert (b + behind)[..CONNECT_RES_LENGTH] == b;
    ResponseUnderstood(d, callId, b + behind, Ids(s.ctrl.outFid, s.ctrl.inFid));
    RepliesAre(d, callId, 0);
  }

  lemma Extend(dup: set<u16>, states: seq<State>, events: seq<Event>, e: Event) returns (more: seq<State>)
    requires Run(dup, states, events)
    requires Enabled(states[|events|], e) && Permitted(dup, states[|events|], e)
    ensures Run(dup, more, events + [e]) && more == states + [Next(states[|events|], e)]
  {
    hide Enabled, Next, Permitted, Init;
    more := states + [Next(states[|events|], e)];
    forall k | 0 <= k < |events| + 1
      ensures Enabled(more[k], (events + [e])[k]) && Permitted(dup, more[k], (events + [e])[k])
      ensures more[k + 1] == Next(more[k], (events + [e])[k])
    {
      if k < |events| { assert more[k] == states[k] && more[k + 1] == states[k + 1]; }
    }
  }

  // The request is sent, duplicated and taken once.
  lemma RequestTwice(c: Controller, d: Device) returns (states: seq<State>, events: seq<Event>)
    requires c.NameFits() && d.state == Listening
    ensures Run({OPNUM_CONNECT}, states, events) && |states| == |events| + 1
    ensures states[0].ctrl == c && states[0].dev == d
    ensures var p := Proposal(c);
            var req, n := ConnectRequest(p), Negotiated(d, p).(state := Connected);
            |req| >= 24
            && states[|events|] == State(AwaitConnect, p, n, [req], [ConnectResponse(n, req[12..16])])
  {
    hide ConnectRequest, ConnectResponse, OnDatagram, Negotiated, GetLe16;
    var p := Proposal(c);
    var req := ConnectRequest(p);
    RequestIs(p);
    OnRequest(d, p);
    states := Extend({OPNUM_CONNECT}, [State(Start, c, d, [], [])], [], Send);
    assert states[1] == State(AwaitConnect, p, d, [req], []);
    states := Extend({OPNUM_CONNECT}, states, [] + [Send], DuplicateToDevice(0));
    assert states[2] == states[1].(toDev := [req, req]) && Without([req, req], 0) == [req];
    states := Extend({OPNUM_CONNECT}, states, [] + [Send] + [DuplicateToDevice(0)], DeviceReceives(0));
    events := [] + [Send] + [DuplicateToDevice(0)] + [DeviceReceives(0)];
  }

  // Up to the last wait, with the duplicate of the request still on its way
  lemma ConnectTwice(c: Controller, d: Device) returns (states: seq<State>, events: seq<Event>)
    requires c.NameFits() && d.state == Listening
    ensures Run({OPNUM_CONNECT}, states, events) && |states| == |events| + 1
    ensures states[0].ctrl == c && states[0].dev == d
    ensures var p := Proposal(c);
            states[|events|] == State(AwaitReady, p, Negotiated(d, p).(state := Connected),
                                      [ConnectRequest(p), WriteRequest(p), DControlRequest(p)], [])
  {
    hide ConnectRequest, WriteRequest, DControlRequest, ConnectResponse, OnConnectResponse, OnDatagram, GetLe16, Run;
    var p := Proposal(c);
    states, events := RequestTwice(c, d);
    var s3 := states[|events|];
    var req, n := ConnectRequest(p), s3.dev;
    assert n.outFid == p.outFid && n.inFid == p.inFid;
    var e := Receive(0, Zeros(RPC_BUF_SIZE - CONNECT_RES_LENGTH));
    assert Without(s3.toCtrl, 0) == [];
    OnResponse(s3.(toCtrl := []), n, req[12..16], e.behind);
    states := Extend({OPNUM_CONNECT}, states, events, e);
    events := events + [e];
    assert [req] + [WriteRequest(p)] == [req, WriteRequest(p)];
    states := Extend({OPNUM_CONNECT}, states, events, RecvTimeout);
    events := events + [RecvTimeout];
    assert [req, WriteRequest(p)] + [DControlRequest(p)] == [req, WriteRequest(p), DControlRequest(p)];
  }

  // The duplicate reaches the cyclic device before its ready report reaches the controller, which
  // then returns PN_OK with a device that is back in CONNECTED and ignores the cyclic frames.
  lemma DuplicateRequestBreaks(c: Controller, d: Device) returns (states: seq<State>, events: seq<Event>)
    requires c.NameFits() && d.state == Listening
    ensures Run({OPNUM_CONNECT}, states, events) && |states| == |events| + 1
    ensures states[0].ctrl == c && states[0].dev == d
    ensures states[|events|].pc == Finished(true) && states[|events|].dev.state == Connected
  {
    hide ConnectRequest, WriteRequest, DControlRequest, ConnectResponse, DControlResponse, CControlRequest,
         OnWhileWaiting, OnDatagram, Negotiated, GetLe16, Run;
    states, events := ConnectTwice(c, d);
    var p, s5 := Proposal(c), states[|events|];
    RequestIs(p);
    OnReady(s5.dev, p);
    states := Extend({OPNUM_CONNECT}, states, events, DeviceReceives(2));
    events := events + [DeviceReceives(2)];
    var s6 := states[|events|];
    assert s6.toDev == [ConnectRequest(p), WriteRequest(p)];
    assert s6.toCtrl == [DControlResponse(s5.dev, DControlRequest(p)[12..16], 4), CControlRequest(s6.dev)];
    assert s6.toDev[0] == ConnectRequest(p) && s6.toCtrl[1] == CControlRequest(s6.dev);
    OnRequest(s6.dev, p);
    states := Extend({OPNUM_CONNECT}, states, events, DeviceReceives(0));
    events := events + [DeviceReceives(0)];
    var s7 := states[|events|];
    assert s7.toCtrl[1] == CControlRequest(s6.dev) && s7.dev.state == Connected && s7.pc == AwaitReady;
    var e := Receive(1, Zeros(RPC_BUF_SIZE - 64));
    OnReadyReport(s7.(toCtrl := Without(s7.toCtrl, 1)), s6.dev);
    states := Extend({OPNUM_CONNECT}, states, events, e);
    events := events + [e];
  }

  // ---------- the run that succeeds, and giving up ----------

  // Without a single loss or duplicate the attempt succeeds, for every controller and every
  // listening device.
  lemma ConnectSucceeds(c: Controller, d: Device) returns (states: seq<State>, events: seq<Event>)
    requires c.NameFits() && d.state == Listening
    ensures Run({}, states, events) && |states| == |events| + 1
    ensures states[0].ctrl == c && states[0].dev == d
    ensures states[|events|].pc == Finished(true) && AgreedAtOk(c, states[|events|])
  {
    hide ConnectRequest, WriteRequest, DControlRequest, ConnectResponse, DControlResponse, CControlRequest,
         OnConnectResponse, OnWhileWaiting, OnDatagram, GetLe16, Run, AgreedAtOk;
    states, events := Answered(c, d);
    var p, s2 := Proposal(c), states[|events|];
    var req, n := ConnectRequest(p), s2.dev;
    var e := Receive(0, Zeros(RPC_BUF_SIZE - CONNECT_RES_LENGTH));
    assert n.outFid == p.outFid && n.inFid == p.inFid && Without(s2.toCtrl, 0) == [];
    OnResponse(s2.(toCtrl := []), n, req[12..16], e.behind);
    states := Extend({}, states, events, e);
    events := events + [e];
    assert [] + [WriteRequest(p)] == [WriteRequest(p)];
    states := Extend({}, states, events, RecvTimeout);
    events := events + [RecvTimeout];
    assert [WriteRequest(p)] + [DControlRequest(p)] == [WriteRequest(p), DControlRequest(p)];
    OnReady(n, p);
    states := Extend({}, states, events, DeviceReceives(1));
    events := events + [DeviceReceives(1)];
    var s5 := states[|events|];
    assert s5.toCtrl == [DControlResponse(n, DControlRequest(p)[12..16], 4), CControlRequest(s5.dev)];
    var r := Receive(1, Zeros(RPC_BUF_SIZE - 64));
    OnReadyReport(s5.(toCtrl := Without(s5.toCtrl, 1)), s5.dev);
    states := Extend({}, states, events, r);
    events := events + [r];
    ConnectAgrees({}, states, events, |events|);
  }

  lemma Answered(c: Controller, d: Device) returns (states: seq<State>, events: seq<Event>)
    requires c.NameFits() && d.state == Listening
    ensures Run({}, states, events) && |states| == |events| + 1
    ensures states[0].ctrl == c && states[0].dev == d
    ensures var p := Proposal(c);
            var req, n := ConnectRequest(p), Negotiated(d, p).(state := Connected);
            |req| >= 24
            && states[|events|] == State(AwaitConnect, p, n, [], [ConnectResponse(n, req[12..16])])
  {
    hide ConnectRequest, ConnectResponse, OnDatagram, Negotiated, GetLe16;
    var p := Proposal(c);
    var req := ConnectRequest(p);
    RequestIs(p);
    OnRequest(d, p);
    states := Extend({}, [State(Start, c, d, [], [])], [], Send);
    assert states[1] == State(AwaitConnect, p, d, [req], []) && Without([req], 0) == [];
    states := Extend({}, states, [] + [Send], DeviceReceives(0));
    events := [] + [Send] + [DeviceReceives(0)];
  }

  // The attempt fails when nothing answers the request, when the answer is too short or a fault,
  // and when no report of readiness comes in ten seconds; nothing else that arrives ends the wait.
  lemma GivesUp(s: State, b: bytes, behind: bytes)
    requires |b| + |behind| == RPC_BUF_SIZE
    ensures s.pc == AwaitConnect ==> Next(s, RecvTimeout).pc == Finished(false)
    ensures |b| < 40 || b[1] == 3 ==> OnConnectResponse(s, b, behind).pc == Finished(false)
    ensures s.pc == AwaitReady ==> Next(s, Deadline).pc == Finished(false) && Next(s, RecvTimeout) == s
    ensures s.pc == AwaitReady && (|b| < 40 || GetLe16(b, 22) != 3) ==> OnWhileWaiting(s, b) == s
    ensures s.pc == AwaitReady && 40 <= |b| && (|b| < 62 || GetBe16(b, 60) % 8 < 4) ==>
              OnWhileWaiting(s, b).pc == AwaitReady
  {
    hide WalkIds, WriteRequest, CControlResponse, GetLe16, GetLe32;
  }

  lemma {:induction false} MoreDuplicates(few: set<u16>, dup: set<u16>, states: seq<State>, events: seq<Event>)
    requires Run(few, states, events) && few <= dup
    ensures Run(dup, states, events)
  {
    hide Enabled, Next, Init;
    forall k | 0 <= k < |events| ensures Permitted(dup, states[k], events[k]) {
      assert Permitted(few, states[k], events[k]);
    }
  }

  // Whatever the controller and the listening device are: every run agrees iff the network does
  // not duplicate ConnectRequests.
  lemma ConnectAgreesIff(dup: set<u16>, c: Controller, d: Device)
    requires c.NameFits() && d.state == Listening
    ensures AlwaysAgrees(dup, c, d) <==> OPNUM_CONNECT !in dup
  {
    if OPNUM_CONNECT !in dup {
      forall states: seq<State>, events: seq<Event>, k: nat |
        Run(dup, states, events) && states[0].ctrl == c && states[0].dev == d && k < |states|
        ensures AgreedAtOk(c, states[k])
      {
        ConnectAgrees(dup, states, events, k);
      }
    } else {
      var states, events := DuplicateRequestBreaks(c, d);
      MoreDuplicates({OPNUM_CONNECT}, dup, states, events);
      assert !AgreedAtOk(c, states[|events|]);
    }
  }
}
